/**
 * One frame's header line: where it is (`print_func`) and its local variables
 * (`repr_vars`, after `filter_globals` has thinned out an interactive shell's globals).
 */
module FrameReport {
  import opened Seqs
  import opened Strings
  import opened Palette
  import opened Values

  /** An ordered mapping from variable names to values, in insertion order. */
  type Vars = seq<(string, Value)>

  /** One frame of the unwind: where it stopped and its local variables. */
  datatype Frame = Frame(filename: string, funcname: string, lineno: int, locals: Vars)

  /** No name occurs twice, as in a Python dict. */
  predicate DistinctKeys(vars: Vars) {
    forall i, j :: 0 <= i < j < |vars| ==> vars[i].0 != vars[j].0
  }

  /** A variable whose name does not start with an underscore is shown. */
  predicate IsPublic(kv: (string, Value)) {
    !StartsWith(kv.0, "_")
  }

  /** How one variable is shown: its name in bold, `=`, its representation. */
  function Entry(reg: Renderers, kv: (string, Value)): string {
    Bold(kv.0) + "=" + ReprValue(reg, kv.1)
  }

  /** The entries of the shown variables, in insertion order. */
  function Entries(reg: Renderers, vars: Vars): seq<string> {
    var shown := Filter(vars, IsPublic);
    seq(|shown|, i requires 0 <= i < |shown| => Entry(reg, shown[i]))
  }

  /** The variables part of a header: the entries separated by single spaces. */
  function VarsText(reg: Renderers, vars: Vars): string {
    Join(" ", Entries(reg, vars))
  }

  /** One more variable adds its entry at the end exactly when it is public. */
  lemma EntriesSnoc(reg: Renderers, vars: Vars, kv: (string, Value))
    ensures Entries(reg, vars + [kv]) == Entries(reg, vars) + (if IsPublic(kv) then [Entry(reg, kv)] else [])
  {
    assert (vars + [kv])[..|vars|] == vars;
  }

  /** Every public variable has its entry, and nothing else does. */
  lemma EntriesArePublic(reg: Renderers, vars: Vars)
    ensures forall kv :: kv in vars && IsPublic(kv) ==> Entry(reg, kv) in Entries(reg, vars)
    ensures forall e :: e in Entries(reg, vars) ==> exists kv :: kv in vars && IsPublic(kv) && e == Entry(reg, kv)
  {
    var shown := Filter(vars, IsPublic);
    var es := Entries(reg, vars);
    forall kv | kv in vars && IsPublic(kv) ensures Entry(reg, kv) in es {
      var k :| 0 <= k < |vars| && vars[k] == kv;
      assert kv in shown;
      var j :| 0 <= j < |shown| && shown[j] == kv;
      assert es[j] == Entry(reg, kv);
    }
    forall e | e in es ensures exists kv :: kv in vars && IsPublic(kv) && e == Entry(reg, kv) {
      var j :| 0 <= j < |es| && es[j] == e;
      assert shown[j] in vars && IsPublic(shown[j]);
    }
  }

  /** Without public variables the variables part is empty. */
  lemma OnlyPrivateShowsNothing(reg: Renderers, vars: Vars)
    requires forall i :: 0 <= i < |vars| ==> !IsPublic(vars[i])
    ensures VarsText(reg, vars) == ""
  {
    FilterDropsAll(vars, IsPublic);
  }

  /** A public variable after at least one shown one is added after a single space. */
  lemma VarsTextSnoc(reg: Renderers, vars: Vars, kv: (string, Value))
    requires IsPublic(kv) && Entries(reg, vars) != []
    ensures VarsText(reg, vars + [kv]) == VarsText(reg, vars) + " " + Entry(reg, kv)
  {
    EntriesSnoc(reg, vars, kv);
    JoinSnoc(" ", Entries(reg, vars), Entry(reg, kv));
  }

  /** `repr_vars`: collect the entries of the public variables and join them with spaces. */
  method ReprVars(reg: Renderers, vars: Vars) returns (text: string)
    ensures text == VarsText(reg, vars)
  {
    var ss: seq<string> := [];
    for i := 0 to |vars|
      invariant ss == Entries(reg, vars[..i])
    {
      assert vars[..i + 1] == vars[..i] + [vars[i]];
      EntriesSnoc(reg, vars[..i], vars[i]);
      var (key, value) := vars[i];
      if StartsWith(key, "_") {
        continue;
      }
      ss := ss + [Bold(key) + "=" + ReprValue(reg, value)];
    }
    assert vars[..|vars|] == vars;
    text := Join(" ", ss);
  }

  /** The variable whose presence marks an interactive shell's global namespace. */
  const ShellSentinel: string := "get_ipython"

  /** `key in vars` for an ordered mapping. */
  predicate HasKey(vars: Vars, key: string) {
    exists i :: 0 <= i < |vars| && vars[i].0 == key
  }

  /** The variables whose name occurs somewhere in `code`. */
  function MentionedIn(code: string): ((string, Value)) -> bool {
    (kv: (string, Value)) => Contains(code, kv.0)
  }

  /**
   * `filter_globals`: a shell namespace is cut down to the names that occur in the code;
   * any other mapping is returned as it is.
   */
  function GlobalsFiltered(vars: Vars, code: string): Vars {
    if HasKey(vars, ShellSentinel) then Filter(vars, MentionedIn(code)) else vars
  }

  /** `filter_globals`, filling the new mapping one variable at a time. */
  method FilterGlobals(vars: Vars, code: string) returns (r: Vars)
    ensures r == GlobalsFiltered(vars, code)
  {
    if HasKey(vars, ShellSentinel) {
      var kept: Vars := [];
      for i := 0 to |vars|
        invariant kept == Filter(vars[..i], MentionedIn(code))
      {
        assert vars[..i + 1] == vars[..i] + [vars[i]];
        assert (vars[..i] + [vars[i]])[..i] == vars[..i];
        var (key, value) := vars[i];
        if Contains(code, key) {
          kept := kept + [(key, value)];
        }
      }
      assert vars[..|vars|] == vars;
      return kept;
    }
    return vars;
  }

  /**
   * In a shell namespace exactly the variables whose name is a substring of the code
   * survive; elsewhere nothing is dropped.
   */
  lemma GlobalsFilteredKeepsMentioned(vars: Vars, code: string)
    ensures !HasKey(vars, ShellSentinel) ==> GlobalsFiltered(vars, code) == vars
    ensures HasKey(vars, ShellSentinel) ==>
      forall kv :: kv in GlobalsFiltered(vars, code) <==>
        kv in vars && exists i :: OccursAt(code, kv.0, i)
  {
    if HasKey(vars, ShellSentinel) {
      var r := GlobalsFiltered(vars, code);
      forall kv ensures kv in r <==> kv in vars && exists i :: OccursAt(code, kv.0, i) {
        ContainsIffOccurs(code, kv.0);
        if kv in r {
          var j :| 0 <= j < |r| && r[j] == kv;
          assert MentionedIn(code)(r[j]);
        }
        if kv in vars && Contains(code, kv.0) {
          var j :| 0 <= j < |vars| && vars[j] == kv;
          assert MentionedIn(code)(vars[j]);
        }
      }
    }
  }

  /** Filtering keeps the variables in the order the mapping had them. */
  lemma GlobalsFilteredKeepsOrder(a: Vars, b: Vars, code: string)
    requires HasKey(a + b, ShellSentinel)
    ensures GlobalsFiltered(a + b, code) == Filter(a, MentionedIn(code)) + Filter(b, MentionedIn(code))
  {
    FilterAppend(a, b, MentionedIn(code));
  }

  /** What the filter returns is again a mapping: no name occurs twice. */
  lemma {:induction false} FilterKeepsDistinct(vars: Vars, p: ((string, Value)) -> bool)
    requires DistinctKeys(vars)
    ensures DistinctKeys(Filter(vars, p))
    decreases |vars|
  {
    if |vars| > 0 {
      var front := vars[..|vars| - 1];
      var last := vars[|vars| - 1];
      FilterKeepsDistinct(front, p);
      var r := Filter(vars, p);
      var f := Filter(front, p);
      if p(last) {
        forall i | 0 <= i < |f| ensures f[i].0 != last.0 {
          assert f[i] in front;
          var k :| 0 <= k < |front| && front[k] == f[i];
          assert vars[k] == f[i];
        }
        assert r == f + [last];
      }
    }
  }

  /** The prefix of a frame name that `print_func` takes for an IPython cell. */
  const CellPrefix: string := "<ipython-input-"

  /** The marker of a file that belongs to a Jupyter kernel. */
  const KernelMarker: string := "/ipykernel_"

  /** The file name `print_func` shows: `[n]` for a cell frame, the file name otherwise. */
  function ShownFile(filename: string, funcname: string): string {
    var t := Split(funcname, '-');
    if StartsWith(funcname, CellPrefix) && |t| > 2 then "[" + t[2] + "]" else filename
  }

  /** `print_func`: the header line of a frame, given its rendered variables. */
  function FuncHeader(filename: string, funcname: string, varsText: string): string {
    var shown := ShownFile(filename, funcname);
    HeaderLine(shown, Contains(shown, KernelMarker), funcname, varsText)
  }

  /** The header line for the file name as shown; a kernel's file name is left out. */
  function HeaderLine(shown: string, inKernel: bool, funcname: string, varsText: string): string {
    if inKernel then Bold(funcname) + " " + varsText
    else "\"" + Glay(shown) + "\" " + Bold(funcname) + " " + varsText
  }

  /** Splitting after a piece without the separator yields that piece first. */
  lemma SplitAfter(p: string, rest: string, c: char)
    requires c !in p
    ensures Split(p + [c] + rest, c) == [p] + Split(rest, c)
  {
    var s := p + [c] + rest;
    IndexOfFirst(p, [c] + rest, c);
    assert s == p + ([c] + rest);
    assert s[..|p|] == p && s[|p| + 1..] == rest;
  }

  lemma {:induction false} IndexOfFirst(p: string, rest: string, c: char)
    requires c !in p && |rest| > 0 && rest[0] == c
    ensures IndexOf(p + rest, c) == |p|
    decreases |p|
  {
    if |p| > 0 {
      assert (p + rest)[1..] == p[1..] + rest;
      IndexOfFirst(p[1..], rest, c);
    } else {
      assert p + rest == rest;
    }
  }

  /** The first piece of a split is everything before the first separator. */
  lemma SplitFirst(s: string, c: char)
    ensures Split(s, c)[0] == s[..IndexOf(s, c)]
  {
  }

  /** The cell number of a cell frame name: what follows the prefix, up to the next `-`. */
  function CellNumber(funcname: string): string
    requires StartsWith(funcname, CellPrefix)
  {
    var rest := funcname[|CellPrefix|..];
    rest[..IndexOf(rest, '-')]
  }

  /**
   * A frame name with the cell prefix always splits into more than two pieces, so the
   * source's length test never fails, and the shown file is `[` cell number `]`.
   */
  lemma CellFrameShowsCellNumber(filename: string, funcname: string)
    requires StartsWith(funcname, CellPrefix)
    ensures |Split(funcname, '-')| > 2
    ensures ShownFile(filename, funcname) == "[" + CellNumber(funcname) + "]"
  {
    var rest := funcname[|CellPrefix|..];
    assert funcname == "<ipython" + ['-'] + ("input" + ['-'] + rest);
    SplitAfter("<ipython", "input" + ['-'] + rest, '-');
    SplitAfter("input", rest, '-');
    var t := Split(funcname, '-');
    assert t == ["<ipython"] + (["input"] + Split(rest, '-'));
    SplitFirst(rest, '-');
  }

  /**
   * What a header shows: the quoted file name unless it belongs to a kernel, then the
   * function name and the variables.
   */
  lemma FuncHeaderShows(filename: string, funcname: string, varsText: string)
    requires Esc !in ShownFile(filename, funcname) && Esc !in funcname
    ensures var shown := ShownFile(filename, funcname);
      Plain(FuncHeader(filename, funcname, varsText)) ==
        (if Contains(shown, KernelMarker) then "" else "\"" + shown + "\" ")
        + funcname + " " + Plain(varsText)
  {
    var shown := ShownFile(filename, funcname);
    var inKernel := Contains(shown, KernelMarker);
    if inKernel {
      KernelHeaderShows(shown, funcname, varsText);
    } else {
      FileHeaderShows(shown, funcname, varsText);
    }
  }

  lemma FuncAndVarsShow(funcname: string, varsText: string)
    requires Esc !in funcname
    ensures Plain(Bold(funcname) + (" " + varsText)) == funcname + " " + Plain(varsText)
  {
    var v := Plain(varsText);
    PlainNoEsc(" ", varsText);
    StyleShowsText("01", funcname, " " + varsText);
    assert funcname + " " + v == funcname + (" " + v);
  }

  lemma KernelHeaderShows(shown: string, funcname: string, varsText: string)
    requires Esc !in funcname
    ensures Plain(HeaderLine(shown, true, funcname, varsText)) == funcname + " " + Plain(varsText)
  {
    FuncAndVarsShow(funcname, varsText);
    assert HeaderLine(shown, true, funcname, varsText) == Bold(funcname) + (" " + varsText);
  }

  lemma FileHeaderShows(shown: string, funcname: string, varsText: string)
    requires Esc !in shown && Esc !in funcname
    ensures Plain(HeaderLine(shown, false, funcname, varsText)) ==
      "\"" + shown + "\" " + funcname + " " + Plain(varsText)
  {
    var g, b := Glay(shown), Bold(funcname);
    var rest := b + (" " + varsText);
    var x := "\" " + rest;
    calc {
      HeaderLine(shown, false, funcname, varsText);
      "\"" + g + "\" " + b + " " + varsText;
      { AppendAssoc("\"" + g + "\" " + b, " ", varsText); AppendAssoc("\"" + g + "\" ", b, " " + varsText); }
      "\"" + g + "\" " + rest;
      { AppendAssoc("\"" + g, "\" ", rest); }
      "\"" + g + x;
      { AppendAssoc("\"", g, x); }
      "\"" + (g + x);
    }
    var v := Plain(varsText);
    var w := funcname + " " + v;
    calc {
      Plain("\"" + (g + x));
      { PlainNoEsc("\"", g + x); }
      "\"" + Plain(g + x);
      { StyleShowsText("07", shown, x); }
      "\"" + (shown + Plain(x));
      { PlainNoEsc("\" ", rest); }
      "\"" + (shown + ("\" " + Plain(rest)));
      { FuncAndVarsShow(funcname, varsText); }
      "\"" + (shown + ("\" " + w));
      { AppendAssoc("\"" + shown, "\" ", w); AppendAssoc("\"", shown, "\" " + w); }
      "\"" + shown + "\" " + w;
      { AppendAssoc("\"" + shown + "\" " + funcname, " ", v); AppendAssoc("\"" + shown + "\" ", funcname, " " + v); }
      "\"" + shown + "\" " + funcname + " " + v;
    }
  }
}
