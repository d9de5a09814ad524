/**
 * The fixed palette: each style wraps a text in an ANSI "select graphic rendition"
 * escape and the reset escape `ESC[0m`. `Plain` is the text a terminal shows, with
 * every such escape removed; it is the partner the palette's properties are stated against.
 */
module Palette {

  const Esc: char := '\U{1B}'

  /** The escape sequence `ESC[<code>m`. */
  function Sgr(code: string): string {
    [Esc, '['] + code + "m"
  }

  const Reset: string := Sgr("0")

  function Style(code: string, s: string): string {
    Sgr(code) + s + Reset
  }

  function Bold(s: string): string { Style("01", s) }

  /** Inverse video (the source calls it "glay"). */
  function Glay(s: string): string { Style("07", s) }

  function Red(s: string): string { Style("31", s) }

  function Green(s: string): string { Style("32", s) }

  function Yellow(s: string): string { Style("33", s) }

  function Blue(s: string): string { Style("34", s) }

  function Cyan(s: string): string { Style("36", s) }

  /** The ellipsis used to cut a long list short. */
  const Dots: string := Green("...")

  /** A character that may appear between `ESC[` and `m`. */
  predicate IsParam(c: char) { '0' <= c <= '9' || c == ';' }

  predicate AllParams(s: string) { forall i :: 0 <= i < |s| ==> IsParam(s[i]) }

  /** The first index at or after `k` that does not hold a parameter character. */
  function ParamsEnd(s: string, k: nat): (j: nat)
    requires k <= |s|
    ensures k <= j <= |s|
    ensures forall i :: k <= i < j ==> IsParam(s[i])
    ensures j < |s| ==> !IsParam(s[j])
    decreases |s| - k
  {
    if k == |s| || !IsParam(s[k]) then k else ParamsEnd(s, k + 1)
  }

  /** The length of the escape sequence that `s` starts with, or 0 when it starts with none. */
  function EscapeLength(s: string): nat {
    if |s| >= 2 && s[0] == Esc && s[1] == '[' then
      var j := ParamsEnd(s, 2);
      if j < |s| && s[j] == 'm' then j + 1 else 0
    else 0
  }

  /** The visible text of `s`: `s` with its escape sequences removed. */
  function Plain(s: string): string
    decreases |s|
  {
    if |s| == 0 then ""
    else if EscapeLength(s) > 0 then Plain(s[EscapeLength(s)..])
    else [s[0]] + Plain(s[1..])
  }

  /** Text without escape characters is shown as it is. */
  lemma {:induction false} PlainNoEsc(t: string, rest: string)
    requires Esc !in t
    ensures Plain(t + rest) == t + Plain(rest)
    decreases |t|
  {
    if |t| > 0 {
      assert t[0] != Esc;
      assert (t + rest)[1..] == t[1..] + rest;
      PlainNoEsc(t[1..], rest);
      assert t == [t[0]] + t[1..];
    } else {
      assert t + rest == rest;
    }
  }

  /** An escape sequence is not shown. */
  lemma SgrInvisible(code: string, rest: string)
    requires AllParams(code)
    ensures EscapeLength(Sgr(code) + rest) == |code| + 3
    ensures Plain(Sgr(code) + rest) == Plain(rest)
  {
    var s := Sgr(code) + rest;
    assert s[2..2 + |code|] == code;
    ParamsRun(s, 2, |code|);
    assert s[2 + |code|] == 'm';
    assert s[|code| + 3..] == rest;
  }

  lemma {:induction false} ParamsRun(s: string, k: nat, n: nat)
    requires k + n < |s|
    requires AllParams(s[k..k + n]) && !IsParam(s[k + n])
    ensures ParamsEnd(s, k) == k + n
    decreases n
  {
    if n > 0 {
      assert s[k] == s[k..k + n][0];
      assert s[k + 1..k + 1 + (n - 1)] == s[k..k + n][1..];
      ParamsRun(s, k + 1, n - 1);
    }
  }

  /** A styled text shows exactly its text, whatever follows it. */
  lemma StyleShowsText(code: string, t: string, rest: string)
    requires AllParams(code) && Esc !in t
    ensures Plain(Style(code, t) + rest) == t + Plain(rest)
  {
    assert Style(code, t) + rest == Sgr(code) + (t + (Reset + rest));
    SgrInvisible(code, t + (Reset + rest));
    PlainNoEsc(t, Reset + rest);
    SgrInvisible("0", rest);
  }

  /** Every palette style changes how a text looks, never what it says. */
  lemma PaletteShowsText(t: string)
    requires Esc !in t
    ensures Plain(Bold(t)) == t && Plain(Glay(t)) == t && Plain(Red(t)) == t
    ensures Plain(Green(t)) == t && Plain(Yellow(t)) == t && Plain(Blue(t)) == t
    ensures Plain(Cyan(t)) == t
  {
    var codes := ["01", "07", "31", "32", "33", "34", "36"];
    forall k | 0 <= k < |codes| ensures Plain(Style(codes[k], t)) == t {
      StyleShowsText(codes[k], t, "");
      assert Style(codes[k], t) + "" == Style(codes[k], t);
    }
    assert Bold(t) == Style(codes[0], t) && Glay(t) == Style(codes[1], t);
    assert Red(t) == Style(codes[2], t) && Green(t) == Style(codes[3], t);
    assert Yellow(t) == Style(codes[4], t) && Blue(t) == Style(codes[5], t);
    assert Cyan(t) == Style(codes[6], t);
  }

  /** Bold red, the style of the verdict line, shows its text and what follows. */
  lemma BoldRedShowsText(t: string, rest: string)
    requires Esc !in t
    ensures Plain(Bold(Red(t)) + rest) == t + Plain(rest)
  {
    calc {
      Plain(Bold(Red(t)) + rest);
      { StyleAppend("01", Red(t), rest); }
      Plain(Sgr("01") + (Red(t) + (Reset + rest)));
      { SgrInvisible("01", Red(t) + (Reset + rest)); }
      Plain(Red(t) + (Reset + rest));
      { StyleShowsText("31", t, Reset + rest); }
      t + Plain(Reset + rest);
      { SgrInvisible("0", rest); }
      t + Plain(rest);
    }
  }

  lemma StyleAppend(code: string, s: string, rest: string)
    ensures Style(code, s) + rest == Sgr(code) + (s + (Reset + rest))
  {
  }
}
