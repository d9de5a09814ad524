/**
 * The Python string built-ins that the traceback printer relies on, on `seq<char>`:
 * `startswith`, substring `in`, `split` on one character, `join`, `rstrip`/`strip`,
 * `ljust`, `splitlines`, string repetition and `str` of an integer.
 */
module Strings {
  import opened Seqs

  /** `s.startswith(p)`. */
  predicate StartsWith(s: string, p: string) {
    |p| <= |s| && s[..|p|] == p
  }

  /** `p in s` for two strings: scan `s` for a position where `p` starts. */
  predicate Contains(s: string, p: string)
    decreases |s|
  {
    StartsWith(s, p) || (|s| > 0 && Contains(s[1..], p))
  }

  /** `p` occurs in `s` starting at index `i`. */
  predicate OccursAt(s: string, p: string, i: int) {
    0 <= i <= |s| - |p| && s[i..i + |p|] == p
  }

  /** The scan agrees with the definition of a substring. */
  lemma {:induction false} ContainsIffOccurs(s: string, p: string)
    ensures Contains(s, p) <==> exists i :: OccursAt(s, p, i)
    decreases |s|
  {
    if StartsWith(s, p) {
      assert OccursAt(s, p, 0);
    }
    if |s| > 0 {
      var t := s[1..];
      ContainsIffOccurs(t, p);
      if Contains(t, p) {
        var j :| OccursAt(t, p, j);
        assert s[j + 1..j + 1 + |p|] == t[j..j + |p|];
        assert OccursAt(s, p, j + 1);
      }
      if exists i :: OccursAt(s, p, i) {
        var i :| OccursAt(s, p, i);
        if i > 0 {
          assert t[i - 1..i - 1 + |p|] == s[i..i + |p|];
          assert OccursAt(t, p, i - 1);
        } else {
          assert StartsWith(s, p);
        }
      }
    } else if exists i :: OccursAt(s, p, i) {
      assert |p| == 0 && StartsWith(s, p);
    }
  }

  /** `c * n` for a one-character string `c`: empty when `n` is not positive. */
  function Repeat(c: char, n: int): (r: string)
    ensures |r| == Max(n, 0)
  {
    seq(Max(n, 0), _ => c)
  }

  /** `s.ljust(width)`: `s` padded on the right with spaces to at least `width` characters. */
  function LJust(s: string, width: int): (r: string)
    ensures |r| == Max(width, |s|)
    ensures r[..|s|] == s
    ensures forall i :: |s| <= i < |r| ==> r[i] == ' '
  {
    s + Repeat(' ', width - |s|)
  }

  /** The index of the first `c` in `s`, or `|s|` when there is none. */
  function IndexOf(s: string, c: char): (i: nat)
    ensures i <= |s|
    ensures forall j :: 0 <= j < i ==> s[j] != c
    ensures i < |s| ==> s[i] == c
    decreases |s|
  {
    if |s| == 0 || s[0] == c then 0 else 1 + IndexOf(s[1..], c)
  }

  /** `s.split(c)` for a one-character separator: the pieces between the occurrences of `c`. */
  function Split(s: string, c: char): (parts: seq<string>)
    ensures |parts| >= 1
    ensures forall k :: 0 <= k < |parts| ==> c !in parts[k]
    decreases |s|
  {
    var i := IndexOf(s, c);
    if i == |s| then
      assert c !in s;
      [s]
    else
      assert c !in s[..i];
      [s[..i]] + Split(s[i + 1..], c)
  }

  /** `sep.join(parts)`. */
  function Join(sep: string, parts: seq<string>): string
    decreases |parts|
  {
    if |parts| == 0 then ""
    else if |parts| == 1 then parts[0]
    else parts[0] + sep + Join(sep, parts[1..])
  }

  /** Joining a part in front of at least one other part puts the separator between them. */
  lemma JoinCons(sep: string, x: string, tail: seq<string>)
    requires |tail| > 0
    ensures Join(sep, [x] + tail) == x + sep + Join(sep, tail)
  {
    assert ([x] + tail)[1..] == tail;
  }

  /** Joining the pieces of a split with the separator gives back the original string. */
  lemma {:induction false} JoinSplit(s: string, c: char)
    ensures Join([c], Split(s, c)) == s
    decreases |s|
  {
    var i := IndexOf(s, c);
    if i < |s| {
      var rest := s[i + 1..];
      var tail := Split(rest, c);
      JoinSplit(rest, c);
      assert Split(s, c) == [s[..i]] + tail;
      JoinCons([c], s[..i], tail);
      assert s == s[..i] + [c] + rest;
    }
  }

  /** Joining one more part appends the separator and that part. */
  lemma {:induction false} JoinSnoc(sep: string, parts: seq<string>, x: string)
    requires |parts| > 0
    ensures Join(sep, parts + [x]) == Join(sep, parts) + sep + x
    decreases |parts|
  {
    if |parts| > 1 {
      assert (parts + [x])[1..] == parts[1..] + [x];
      JoinSnoc(sep, parts[1..], x);
    } else {
      assert (parts + [x])[1..] == [x];
    }
  }

  /** Python's `str.isspace` for one character: the Unicode whitespace characters. */
  predicate IsSpace(c: char) {
    || ('\t' <= c <= '\r')
    || ('\U{1C}' <= c <= ' ')
    || c == '\U{85}' || c == '\U{A0}' || c == '\U{1680}'
    || ('\U{2000}' <= c <= '\U{200A}')
    || c == '\U{2028}' || c == '\U{2029}' || c == '\U{202F}' || c == '\U{205F}' || c == '\U{3000}'
  }

  /** `s.rstrip()`: `s` without its longest all-whitespace suffix. */
  function RStrip(s: string): (r: string)
    ensures |r| <= |s| && r == s[..|r|]
    ensures r == [] || !IsSpace(r[|r| - 1])
    ensures forall i :: |r| <= i < |s| ==> IsSpace(s[i])
    decreases |s|
  {
    if |s| > 0 && IsSpace(s[|s| - 1]) then RStrip(s[..|s| - 1]) else s
  }

  /** `s.lstrip()`: `s` without its longest all-whitespace prefix. */
  function LStrip(s: string): (r: string)
    ensures |r| <= |s| && r == s[|s| - |r|..]
    ensures r == [] || !IsSpace(r[0])
    ensures forall i :: 0 <= i < |s| - |r| ==> IsSpace(s[i])
    decreases |s|
  {
    if |s| > 0 && IsSpace(s[0]) then LStrip(s[1..]) else s
  }

  /** `s.strip()`. */
  function Strip(s: string): string {
    LStrip(RStrip(s))
  }

  /** Stripping twice strips nothing more. */
  lemma StripIdempotent(s: string)
    ensures Strip(Strip(s)) == Strip(s)
  {
    var r := Strip(s);
    if r != [] {
      assert r == RStrip(s)[|RStrip(s)| - |r|..];
      assert r[|r| - 1] == RStrip(s)[|RStrip(s)| - 1];
    }
  }

  /**
   * `strip` removes exactly the whitespace at both ends: what remains sits inside `s` between
   * two all-whitespace pieces, and neither of its own ends is whitespace.
   */
  lemma StripTrims(s: string)
    ensures var e := Strip(s);
      && (e == [] || (!IsSpace(e[0]) && !IsSpace(e[|e| - 1])))
      && exists i :: (
        && 0 <= i <= |s| - |e|
        && s[i..][..|e|] == e
        && (forall j :: 0 <= j < i ==> IsSpace(s[j]))
        && (forall j :: i + |e| <= j < |s| ==> IsSpace(s[j])))
  {
    var r := RStrip(s);
    var e := LStrip(r);
    var i := |r| - |e|;
    assert s[i..][..|e|] == e by {
      assert s[i..][..|e|] == r[i..];
    }
    assert forall j :: 0 <= j < i ==> IsSpace(s[j]) by {
      forall j | 0 <= j < i ensures IsSpace(s[j]) {
        assert s[j] == r[j];
      }
    }
    if e != [] {
      assert e[|e| - 1] == r[|r| - 1];
    }
  }

  predicate IsDigit(c: char) { '0' <= c <= '9' }

  predicate AllDigits(s: string) { forall i :: 0 <= i < |s| ==> IsDigit(s[i]) }

  function DigitChar(d: nat): (c: char)
    requires d < 10
    ensures IsDigit(c)
  {
    ('0' as int + d) as char
  }

  /** `str(n)` for a natural number: its decimal digits, most significant first. */
  function NatToString(n: nat): (s: string)
    decreases n
  {
    if n < 10 then [DigitChar(n)] else NatToString(n / 10) + [DigitChar(n % 10)]
  }

  /** `str(n)` for any integer. */
  function IntToString(n: int): string {
    if n < 0 then "-" + NatToString(-n) else NatToString(n)
  }

  /** The value of a string of decimal digits. */
  function DigitsValue(s: string): nat
    requires AllDigits(s)
    decreases |s|
  {
    if |s| == 0 then 0
    else DigitsValue(s[..|s| - 1]) * 10 + (s[|s| - 1] as int - '0' as int)
  }

  /** `int(s)` for the strings `str` produces. */
  function ParseInt(s: string): int
    requires |s| > 0
    requires AllDigits(s) || (s[0] == '-' && AllDigits(s[1..]))
  {
    if s[0] == '-' then -(DigitsValue(s[1..]) as int) else DigitsValue(s)
  }

  /** `str(n)` of a natural number is a non-empty digit string without a leading zero that reads back as `n`. */
  lemma {:induction false} NatToStringRoundTrip(n: nat)
    ensures var s := NatToString(n);
      && |s| > 0 && AllDigits(s)
      && (s[0] == '0' ==> n == 0)
      && DigitsValue(s) == n
    decreases n
  {
    var s := NatToString(n);
    if n >= 10 {
      NatToStringRoundTrip(n / 10);
      var h := NatToString(n / 10);
      assert s[..|s| - 1] == h;
      assert s[0] == h[0];
    }
  }

  /** `int(str(n)) == n` for every integer. */
  lemma IntToStringRoundTrip(n: int)
    ensures var s := IntToString(n);
      && |s| > 0
      && (AllDigits(s) || (s[0] == '-' && AllDigits(s[1..])))
      && (s[0] == '-' <==> n < 0)
      && ParseInt(s) == n
  {
    if n < 0 {
      NatToStringRoundTrip(-n);
      assert IntToString(n)[1..] == NatToString(-n);
    } else {
      NatToStringRoundTrip(n);
    }
  }

  /** The characters at which `str.splitlines` ends a line. */
  predicate IsLineBreak(c: char) {
    || c == '\n' || c == '\r' || c == '\U{B}' || c == '\U{C}'
    || ('\U{1C}' <= c <= '\U{1E}')
    || c == '\U{85}' || c == '\U{2028}' || c == '\U{2029}'
  }

  predicate NoLineBreak(s: string) { forall i :: 0 <= i < |s| ==> !IsLineBreak(s[i]) }

  /** The index of the first line break in `s`, or `|s|` when there is none. */
  function LineEnd(s: string): (i: nat)
    ensures i <= |s|
    ensures NoLineBreak(s[..i])
    ensures i < |s| ==> IsLineBreak(s[i])
    decreases |s|
  {
    if |s| == 0 || IsLineBreak(s[0]) then 0
    else
      var j := LineEnd(s[1..]);
      assert s[..1 + j] == [s[0]] + s[1..][..j];
      1 + j
  }

  /** `s.splitlines()`: lines without their terminators; `"\r\n"` ends one line, not two. */
  function SplitLines(s: string): (lines: seq<string>)
    ensures |lines| == 0 <==> |s| == 0
    decreases |s|
  {
    if |s| == 0 then []
    else
      var i := LineEnd(s);
      if i == |s| then [s]
      else
        var width := if s[i] == '\r' && i + 1 < |s| && s[i + 1] == '\n' then 2 else 1;
        [s[..i]] + SplitLines(s[i + width..])
  }

  /** Each line followed by `"\n"`, concatenated. */
  function Unsplit(lines: seq<string>): string
    decreases |lines|
  {
    if |lines| == 0 then "" else lines[0] + "\n" + Unsplit(lines[1..])
  }

  /** Every line break in `s` is a `"\n"`. */
  predicate OnlyNewlines(s: string) {
    forall i :: 0 <= i < |s| && IsLineBreak(s[i]) ==> s[i] == '\n'
  }

  /** A suffix of text whose only line breaks are `"\n"` has no other line breaks either. */
  lemma OnlyNewlinesSuffix(s: string, k: nat)
    requires OnlyNewlines(s) && k <= |s|
    ensures OnlyNewlines(s[k..])
  {
    forall j | 0 <= j < |s| - k && IsLineBreak(s[k..][j]) ensures s[k..][j] == '\n' {
      assert s[k..][j] == s[k + j];
    }
  }

  /** No line that `splitlines` returns holds a line break. */
  lemma {:induction false} SplitLinesHaveNoBreaks(s: string)
    ensures forall k :: 0 <= k < |SplitLines(s)| ==> NoLineBreak(SplitLines(s)[k])
    decreases |s|
  {
    if |s| > 0 {
      var i := LineEnd(s);
      if i < |s| {
        var width := if s[i] == '\r' && i + 1 < |s| && s[i + 1] == '\n' then 2 else 1;
        SplitLinesHaveNoBreaks(s[i + width..]);
      } else {
        assert s[..i] == s;
      }
    }
  }

  /** `splitlines` at a `"\n"` ending the first line: that line, then the lines of the rest. */
  lemma SplitLinesAtBreak(s: string)
    requires LineEnd(s) < |s| && s[LineEnd(s)] == '\n'
    ensures SplitLines(s) == [s[..LineEnd(s)]] + SplitLines(s[LineEnd(s) + 1..])
  {
  }

  /** How `splitlines` proceeds at a `"\n"` that ends the first line. */
  lemma SplitLinesAtNewline(s: string)
    requires OnlyNewlines(s) && LineEnd(s) < |s|
    ensures var i := LineEnd(s);
      && s[i] == '\n'
      && OnlyNewlines(s[i + 1..])
      && SplitLines(s) == [s[..i]] + SplitLines(s[i + 1..])
  {
    var i := LineEnd(s);
    assert IsLineBreak(s[i]);
    OnlyNewlinesSuffix(s, i + 1);
    SplitLinesAtBreak(s);
  }

  /**
   * For text whose only line terminator is `"\n"`, `splitlines` loses nothing but
   * the distinction between ending with a newline and not.
   */
  lemma {:induction false} SplitLinesRoundTrip(s: string)
    requires OnlyNewlines(s)
    ensures Unsplit(SplitLines(s)) == if |s| == 0 || s[|s| - 1] == '\n' then s else s + "\n"
    decreases |s|
  {
    if |s| > 0 {
      var i := LineEnd(s);
      if i < |s| {
        SplitLinesAtNewline(s);
        var line, rest := s[..i], s[i + 1..];
        SplitLinesRoundTrip(rest);
        UnsplitCons(line, SplitLines(rest));
        NewlineSplit(s, i);
      } else {
        SingleLine(s);
      }
    }
  }

  /** In a line without breaks followed by `"\n"`, the first break is that `"\n"`. */
  lemma {:induction false} LineEndAfter(line: string, rest: string)
    requires NoLineBreak(line)
    ensures LineEnd(line + "\n" + rest) == |line|
    decreases |line|
  {
    var s := line + "\n" + rest;
    if |line| == 0 {
      assert s[0] == '\n';
    } else {
      assert s[1..] == line[1..] + "\n" + rest;
      assert s[0] == line[0];
      forall i | 0 <= i < |line| - 1 ensures !IsLineBreak(line[1..][i]) {
        assert line[1..][i] == line[i + 1];
      }
      LineEndAfter(line[1..], rest);
    }
  }

  /** A line without breaks and its `"\n"` come out of `splitlines` as that line, then the lines of the rest. */
  lemma SplitLinesLine(line: string, rest: string)
    requires NoLineBreak(line)
    ensures SplitLines(line + "\n" + rest) == [line] + SplitLines(rest)
  {
    var s := line + "\n" + rest;
    LineEndAfter(line, rest);
    assert s[|line|] == '\n';
    SplitLinesAtBreak(s);
    assert s[..|line|] == line && s[|line| + 1..] == rest;
  }

  /** `Unsplit` of a first line and the rest. */
  lemma UnsplitCons(line: string, tail: seq<string>)
    ensures Unsplit([line] + tail) == line + "\n" + Unsplit(tail)
  {
    assert ([line] + tail)[1..] == tail;
  }

  /** Text cut at the `"\n"` at `i`: what `Unsplit` gives back matches the whole text. */
  lemma NewlineSplit(s: string, i: nat)
    requires i < |s| && s[i] == '\n'
    ensures var rest := s[i + 1..];
      s[..i] + "\n" + (if |rest| == 0 || rest[|rest| - 1] == '\n' then rest else rest + "\n")
      == if s[|s| - 1] == '\n' then s else s + "\n"
  {
    var rest := s[i + 1..];
    assert s == s[..i] + "\n" + rest;
    if |rest| > 0 {
      assert s[|s| - 1] == rest[|rest| - 1];
    }
  }

  /** Text without a line break is one line. */
  lemma SingleLine(s: string)
    requires |s| > 0 && LineEnd(s) == |s|
    ensures SplitLines(s) == [s] && s[|s| - 1] != '\n'
  {
    assert s[..|s|] == s;
    assert !IsLineBreak(s[..|s|][|s| - 1]);
  }

}
