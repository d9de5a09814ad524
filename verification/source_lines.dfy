/**
 * Source lines and the context window: `getline`, the line-number gutter `arrow`, and
 * `print_linecode`, which shows up to two lines before the failing line and two after it.
 */
module SourceLines {
  import opened Seqs
  import opened Strings
  import opened Palette

  /**
   * Where source lines come from: the lines of the inline code, and the file-line cache
   * (`linecache.getline`), which answers `""` for a missing file or line.
   */
  datatype Sources = Sources(lines: seq<string>, cachedLine: (string, int) -> string)

  /** The file name under which inline code runs. */
  const InlineName: string := "<string>"

  /** `getline`: line `n` (counted from 1) of the inline code or of a file; never fails. */
  function GetLine(src: Sources, filename: string, n: int): string {
    if filename == InlineName then
      if 0 <= n - 1 < |src.lines| then src.lines[n - 1] else ""
    else RStrip(src.cachedLine(filename, n))
  }

  /** Inline code yields its own lines in range and the empty string outside it. */
  lemma GetLineInline(src: Sources, n: int)
    ensures 1 <= n <= |src.lines| ==> GetLine(src, InlineName, n) == src.lines[n - 1]
    ensures (n < 1 || n > |src.lines|) ==> GetLine(src, InlineName, n) == ""
  {
  }

  /**
   * A line read from a file is the cached line without its trailing whitespace: a prefix of it
   * that does not end in whitespace, followed in the cached line only by whitespace.
   */
  lemma GetLineFileTrimmed(src: Sources, filename: string, n: int)
    requires filename != InlineName
    ensures var l, c := GetLine(src, filename, n), src.cachedLine(filename, n);
      && StartsWith(c, l)
      && (l == [] || !IsSpace(l[|l| - 1]))
      && forall i :: |l| <= i < |c| ==> IsSpace(c[i])
  {
  }

  /** The gutter padding before the line number: dashes ending in `> ` or spaces. */
  function ArrowPad(n: int, here: bool): string {
    var w := 5 - |IntToString(n)|;
    if here then Repeat('-', w) + "> " else Repeat(' ', w) + "  "
  }

  /** `arrow`: the red padding and the green line number. */
  function Arrow(n: int, here: bool): string {
    Red(ArrowPad(n, here)) + Green(IntToString(n))
  }

  lemma NumberHasNoEsc(n: int)
    ensures Esc !in IntToString(n)
  {
    IntToStringRoundTrip(n);
    var s := IntToString(n);
    forall i | 0 <= i < |s| ensures s[i] != Esc {
      if i > 0 && s[0] == '-' {
        assert s[1..][i - 1] == s[i];
      }
    }
  }

  /**
   * A gutter shows its padding and the line number, `max(5, digits) + 2` characters
   * whether or not it marks the failing line; the marker ends in `> `, the plain gutter
   * in two spaces.
   */
  lemma ArrowShows(n: int, here: bool, rest: string)
    ensures Plain(Arrow(n, here) + rest) == ArrowPad(n, here) + IntToString(n) + Plain(rest)
    ensures |ArrowPad(n, here) + IntToString(n)| == Max(5, |IntToString(n)|) + 2
    ensures var pad := ArrowPad(n, here);
      && |pad| >= 2
      && pad[|pad| - 2..] == (if here then "> " else "  ")
      && forall i :: 0 <= i < |pad| - 2 ==> pad[i] == (if here then '-' else ' ')
  {
    var pad, s := ArrowPad(n, here), IntToString(n);
    NumberHasNoEsc(n);
    assert Esc !in pad;
    calc {
      Plain(Arrow(n, here) + rest);
      { AppendAssoc(Red(pad), Green(s), rest); }
      Plain(Red(pad) + (Green(s) + rest));
      { StyleShowsText("31", pad, Green(s) + rest); }
      pad + Plain(Green(s) + rest);
      { StyleShowsText("32", s, rest); }
      pad + (s + Plain(rest));
      { AppendAssoc(pad, s, Plain(rest)); }
      pad + s + Plain(rest);
    }
  }

  /** The marked and the plain gutter of a line are equally wide, so the columns after them line up. */
  lemma ArrowWidthIgnoresMark(n: int)
    ensures |Plain(Arrow(n, true))| == |Plain(Arrow(n, false))| == Max(5, |IntToString(n)|) + 2
  {
    ArrowShows(n, true, "");
    ArrowShows(n, false, "");
    assert Arrow(n, true) + "" == Arrow(n, true);
    assert Arrow(n, false) + "" == Arrow(n, false);
  }

  /** The marked gutter differs from the plain one. */
  lemma MarkedArrowDiffers(n: int)
    ensures Arrow(n, true) != Arrow(n, false)
  {
    var a, b, s := ArrowPad(n, true), ArrowPad(n, false), IntToString(n);
    ArrowShows(n, true, "");
    ArrowShows(n, false, "");
    assert Arrow(n, true) + "" == Arrow(n, true);
    assert Arrow(n, false) + "" == Arrow(n, false);
    assert Plain(Arrow(n, true)) == a + s;
    assert Plain(Arrow(n, false)) == b + s;
    assert a[|a| - 2..][0] == '>' && b[|b| - 2..][0] == ' ';
    assert (a + s)[|a| - 2] == '>';
    assert (b + s)[|a| - 2] == ' ';
  }

  /** One printed line of source: its gutter, a space, and the text. */
  function CodeLine(src: Sources, filename: string, n: int, here: bool): string {
    Arrow(n, here) + " " + GetLine(src, filename, n)
  }

  /** A line to print: its number and whether it is the failing line. */
  type Mark = (int, bool)

  /** The printed lines for the given marks, in order. */
  function CodeLines(src: Sources, filename: string, marks: seq<Mark>): (r: seq<string>)
    ensures |r| == |marks|
  {
    seq(|marks|, i requires 0 <= i < |marks| => CodeLine(src, filename, marks[i].0, marks[i].1))
  }

  /**
   * The lines `print_linecode` prints: the two before the failing line when their number is
   * positive, the failing line marked, and the two after it.
   */
  function WindowMarks(lineno: int): seq<Mark> {
    (if lineno - 2 > 0 then [(lineno - 2, false)] else [])
    + (if lineno - 1 > 0 then [(lineno - 1, false)] else [])
    + [(lineno, true), (lineno + 1, false), (lineno + 2, false)]
  }

  /** `print_linecode`: the window of source around `lineno`. */
  function LineCode(src: Sources, filename: string, lineno: int): seq<string> {
    CodeLines(src, filename, WindowMarks(lineno))
  }

  /** A line number the window shows: a positive one, or one at or after the failing line. */
  function ShownAround(lineno: int): int -> bool {
    k => k > 0 || k >= lineno
  }

  /** The line numbers of the window: the five around `lineno` that may be shown, in order. */
  function WindowNumbers(lineno: int): seq<int> {
    Filter([lineno - 2, lineno - 1, lineno, lineno + 1, lineno + 2], ShownAround(lineno))
  }

  /** The window numbers written out case by case. */
  lemma WindowNumbersCases(lineno: int)
    ensures WindowNumbers(lineno) ==
      (if lineno - 2 > 0 then [lineno - 2] else [])
      + (if lineno - 1 > 0 then [lineno - 1] else [])
      + [lineno, lineno + 1, lineno + 2]
  {
    var p := ShownAround(lineno);
    var early := [lineno - 2, lineno - 1];
    var late := [lineno, lineno + 1, lineno + 2];
    assert early + late == [lineno - 2, lineno - 1, lineno, lineno + 1, lineno + 2];
    FilterAppend(early, late, p);
    FilterKeepsAll(late, p);
    EarlyWindowNumbers(lineno);
  }

  /** Of the two lines before the failing one, the positive ones are shown. */
  lemma EarlyWindowNumbers(lineno: int)
    ensures Filter([lineno - 2, lineno - 1], ShownAround(lineno)) ==
      (if lineno - 2 > 0 then [lineno - 2] else []) + (if lineno - 1 > 0 then [lineno - 1] else [])
  {
    var p := ShownAround(lineno);
    var a, b := lineno - 2, lineno - 1;
    FilterSnoc([], a, p);
    assert [] + [a] == [a];
    FilterSnoc([a], b, p);
    assert [a] + [b] == [a, b];
  }

  /** The numbers `ns`, in order, with only `lineno` marked. */
  function Marked(lineno: int, ns: seq<int>): seq<Mark> {
    seq(|ns|, i requires 0 <= i < |ns| => (ns[i], ns[i] == lineno))
  }

  /** `print_linecode` prints, for each window number in order, that line, marking only the failing one. */
  lemma LineCodeFollowsWindow(src: Sources, filename: string, lineno: int)
    ensures LineCode(src, filename, lineno) == CodeLines(src, filename, Marked(lineno, WindowNumbers(lineno)))
  {
    WindowMarksFollowWindow(lineno);
  }

  lemma WindowMarksFollowWindow(lineno: int)
    ensures WindowMarks(lineno) == Marked(lineno, WindowNumbers(lineno))
  {
    WindowNumbersCases(lineno);
  }

  /**
   * For a real line number the window holds three to five consecutive positive numbers,
   * ends two after the failing line, and holds the failing line exactly once.
   */
  lemma WindowShape(lineno: int)
    requires lineno >= 1
    ensures var ns := WindowNumbers(lineno);
      && |ns| == 3 + Min(2, lineno - 1)
      && (forall i :: 0 <= i < |ns| ==> ns[i] >= 1)
      && (forall i :: 0 < i < |ns| ==> ns[i] == ns[i - 1] + 1)
      && ns[|ns| - 1] == lineno + 2
      && ns[|ns| - 3] == lineno
      && (forall i :: 0 <= i < |ns| && ns[i] == lineno ==> i == |ns| - 3)
  {
    WindowNumbersCases(lineno);
  }

  /** At the first line of a file the window is lines 1 to 3. */
  lemma WindowAtFirstLine()
    ensures WindowNumbers(1) == [1, 2, 3]
  {
    WindowNumbersCases(1);
  }

  /** The marks of the syntax-error window: up to two positive lines before the failing one, then that line. */
  function SyntaxMarks(lineno: int): seq<Mark> {
    (if lineno - 2 > 0 then [(lineno - 2, false)] else [])
    + (if lineno - 1 > 0 then [(lineno - 1, false)] else [])
    + [(lineno, true)]
  }

  /** The syntax-error window: the failing line and up to two positive lines before it, nothing after. */
  function SyntaxWindow(src: Sources, filename: string, lineno: int): seq<string> {
    CodeLines(src, filename, SyntaxMarks(lineno))
  }

  /** The syntax-error window is the general window without its two trailing lines, and ends at the marked line. */
  lemma SyntaxWindowIsPrefix(src: Sources, filename: string, lineno: int)
    ensures var w := LineCode(src, filename, lineno);
      |w| >= 3 && SyntaxWindow(src, filename, lineno) == w[..|w| - 2]
    ensures var sw := SyntaxWindow(src, filename, lineno);
      sw[|sw| - 1] == CodeLine(src, filename, lineno, true)
  {
    var m := WindowMarks(lineno);
    assert SyntaxMarks(lineno) == m[..|m| - 2];
  }
}
