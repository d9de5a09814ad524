/**
 * The value-representation registry: a mapping from a runtime type name to a renderer,
 * consulted before a fixed chain of generic rules (`repr_value`).
 *
 * Python's `repr` and `str` of arbitrary objects cannot be computed here; values carry the
 * texts the host would produce, except for lists, whose `repr` is built from their items.
 */
module Values {
  import opened Strings
  import opened Palette

  /** A runtime value, as far as rendering it is concerned. */
  datatype Value =
      /** An object with a `__name__` attribute (a function, a class, a module). */
    | Named(typeName: string, name: string, text: string, reprText: string)
      /** An instance of `list` or of a subclass named `typeName`. */
    | List(typeName: string, items: seq<Value>)
      /** An instance of `str` or of a subclass; `quoted` is its `repr`. */
    | Str(typeName: string, s: string, quoted: string)
      /** Anything else, with its `str` and `repr` texts. */
    | Other(typeName: string, text: string, reprText: string)

  /** `type(v).__name__`. */
  function TypeName(v: Value): string {
    v.typeName
  }

  /** `repr(v)`. */
  function ReprOf(v: Value): string
    decreases v
  {
    match v
    case Named(_, _, _, r) => r
    case List(_, items) =>
      "[" + Join(", ", seq(|items|, i requires 0 <= i < |items| => ReprOf(items[i]))) + "]"
    case Str(_, _, q) => q
    case Other(_, _, r) => r
  }

  /** `str(v)`, which is also what an f-string inserts. */
  function StrOf(v: Value): string {
    match v
    case Named(_, _, t, _) => t
    case List(_, _) => ReprOf(v)
    case Str(_, s, _) => s
    case Other(_, t, _) => t
  }

  /** The registered renderers, by type name. */
  type Renderers = map<string, Value -> string>

  /**
   * `repr_value`: a renderer registered under the value's type name, else the name of a
   * named object, else the first item of a list of two or more, else a quoted string,
   * else `repr`. Total: it is defined for every value.
   */
  function ReprValue(reg: Renderers, v: Value): string {
    var t := TypeName(v);
    if t in reg then reg[t](v)
    else if v.Named? then Cyan("(" + t + ")") + v.name
    else if v.List? && |v.items| > 1 then "[" + StrOf(v.items[0]) + ", " + Dots + "]"
    else if v.Str? then Red(ReprOf(v))
    else ReprOf(v)
  }

  /** A renderer registered for a type name decides the text of every value of that type. */
  lemma RegisteredRendererWins(reg: Renderers, t: string, render: Value -> string, v: Value)
    requires TypeName(v) == t
    ensures ReprValue(reg[t := render], v) == render(v)
  {
  }

  /** Registering for one type name leaves the text of every other type unchanged. */
  lemma RegisterIsLocal(reg: Renderers, t: string, render: Value -> string, v: Value)
    requires TypeName(v) != t
    ensures ReprValue(reg[t := render], v) == ReprValue(reg, v)
  {
  }

  /**
   * The last registration for a type name is the one that counts: after two registrations every
   * value shows as after the second alone, and a value of that type shows as the second renders it.
   */
  lemma LastRegistrationWins(reg: Renderers, t: string, first: Value -> string, second: Value -> string, v: Value)
    ensures ReprValue(reg[t := first][t := second], v) == ReprValue(reg[t := second], v)
    ensures TypeName(v) == t ==> ReprValue(reg[t := first][t := second], v) == second(v)
  {
  }

  /** An unregistered named object shows as its type name in brackets and its name. */
  lemma NamedShowsName(reg: Renderers, v: Value)
    requires v.Named? && TypeName(v) !in reg
    requires Esc !in v.typeName
    ensures Plain(ReprValue(reg, v)) == "(" + v.typeName + ")" + Plain(v.name)
  {
    StyleShowsText("36", "(" + v.typeName + ")", v.name);
  }

  /**
   * An unregistered list of two or more items shows only its first item and an ellipsis,
   * so its text does not grow with the list.
   */
  lemma LongListShowsFirstItem(reg: Renderers, v: Value, w: Value)
    requires v.List? && w.List? && v.typeName == w.typeName && TypeName(v) !in reg
    requires |v.items| > 1 && |w.items| > 1 && v.items[0] == w.items[0]
    requires Esc !in StrOf(v.items[0])
    ensures ReprValue(reg, v) == ReprValue(reg, w)
    ensures Plain(ReprValue(reg, v)) == "[" + StrOf(v.items[0]) + ", ...]"
  {
    var first := "[" + StrOf(v.items[0]) + ", ";
    assert ReprValue(reg, v) == first + (Dots + "]");
    PlainNoEsc(first, Dots + "]");
    StyleShowsText("32", "...", "]");
    PlainNoEsc("]", "");
  }

  /** An unregistered list of at most one item shows as its `repr`. */
  lemma ShortListShowsRepr(reg: Renderers, v: Value)
    requires v.List? && TypeName(v) !in reg && |v.items| <= 1
    ensures ReprValue(reg, v) == if |v.items| == 0 then "[]" else "[" + ReprOf(v.items[0]) + "]"
  {
    var items := v.items;
    var reprs := seq(|items|, i requires 0 <= i < |items| => ReprOf(items[i]));
    if |items| == 0 {
      assert reprs == [];
    } else {
      assert reprs == [ReprOf(items[0])];
    }
  }

  /** An unregistered string shows as its `repr`, in red. */
  lemma StringShowsQuoted(reg: Renderers, v: Value)
    requires v.Str? && TypeName(v) !in reg && Esc !in v.quoted
    ensures ReprValue(reg, v) == Red(v.quoted)
    ensures Plain(ReprValue(reg, v)) == v.quoted
  {
    PaletteShowsText(v.quoted);
  }

  /** Any other unregistered value shows as its `repr`, unstyled. */
  lemma OtherShowsRepr(reg: Renderers, v: Value)
    requires v.Other? && TypeName(v) !in reg
    ensures ReprValue(reg, v) == v.reprText
  {
  }

  /** The process-wide registry (`REPR_VALUE`), which `kogi_register_repr` updates in place. */
  class Registry {
    var renderers: Renderers

    /** The registry starts empty. */
    constructor ()
      ensures renderers == map[]
    {
      renderers := map[];
    }

    /** `repr_value` against the current registrations. */
    function Repr(v: Value): string
      reads this
    {
      ReprValue(renderers, v)
    }

    /** `kogi_register_repr`: install `render` for `typeName`, replacing any earlier one. */
    method Register(typeName: string, render: Value -> string)
      modifies this
      ensures renderers == old(renderers)[typeName := render]
      ensures forall v :: TypeName(v) == typeName ==> Repr(v) == render(v)
      ensures forall v :: TypeName(v) != typeName ==> Repr(v) == old(Repr(v))
    {
      renderers := renderers[typeName := render];
    }
  }
}
