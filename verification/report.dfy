/**
 * The report as a whole (`kogi_print_exc`): the banner of `print_header`, the frame walk, the
 * verdict line and the slots returned to the caller; and the report of a syntax error
 * (`print_syntax_error`), both as the source writes it and as it is evidently meant to work.
 */
module Report {
  import opened Wrappers
  import opened Seqs
  import opened Strings
  import opened Palette
  import opened Values
  import opened FrameReport
  import opened SourceLines
  import opened Unwind

  /** The width of the rule above the banner. */
  const RuleWidth: nat := 79

  /** The column width the exception type's name is padded to. */
  const NameWidth: nat := 46

  const TracebackTitle: string := " Traceback(most recent call last)"

  /** `print_header`: a red rule, then the type name padded to 46 columns and the title, in bold red. */
  function PrintHeader(typeName: string): seq<string> {
    [Red(Repeat('-', RuleWidth)), Bold(Red(LJust(typeName, NameWidth) + TracebackTitle))]
  }

  /**
   * The banner shows 79 dashes, then the type name at the start of the line, spaces, and the
   * title; the title starts at column 46 whenever the name fits in the 46 columns.
   */
  lemma HeaderShows(typeName: string)
    requires Esc !in typeName
    ensures var h := PrintHeader(typeName);
      && |h| == 2
      && Plain(h[0]) == Repeat('-', RuleWidth)
      && Plain(h[1]) == LJust(typeName, NameWidth) + TracebackTitle
    ensures var b := Plain(PrintHeader(typeName)[1]);
      && b[..|typeName|] == typeName
      && (forall i :: |typeName| <= i < Max(NameWidth, |typeName|) ==> b[i] == ' ')
      && b[Max(NameWidth, |typeName|)..] == TracebackTitle
      && (|typeName| <= NameWidth ==> b[NameWidth..] == TracebackTitle)
  {
    var rule := Repeat('-', RuleWidth);
    var title := LJust(typeName, NameWidth) + TracebackTitle;
    assert Esc !in rule by {
      forall i | 0 <= i < |rule| ensures rule[i] != Esc {
      }
    }
    var padded := LJust(typeName, NameWidth);
    assert Esc !in padded by {
      forall i | 0 <= i < |padded| ensures padded[i] != Esc {
        if i < |typeName| {
          assert padded[i] == padded[..|typeName|][i] == typeName[i];
        }
      }
    }
    assert Esc !in TracebackTitle;
    assert Esc !in title;
    PaletteShowsText(rule);
    BoldRedShowsText(title, "");
    assert Bold(Red(title)) + "" == Bold(Red(title));
  }

  /** The verdict line: the type name in bold red, a colon, and the message in bold. */
  function FinalLine(typeName: string, message: string): string {
    Bold(Red(typeName)) + ": " + Bold(message)
  }

  /** The verdict line reads `<type name>: <message>`. */
  lemma FinalLineShows(typeName: string, message: string)
    requires Esc !in typeName && Esc !in message
    ensures Plain(FinalLine(typeName, message)) == typeName + ": " + message
  {
    var m := Bold(message);
    assert FinalLine(typeName, message) == Bold(Red(typeName)) + (": " + m);
    BoldRedShowsText(typeName, ": " + m);
    PlainNoEsc(": ", m);
    StyleShowsText("01", message, "");
    assert Bold(message) + "" == m;
  }

  /** Where a syntax error was found, as the slots record it: line, text of the line, column (from 1). */
  datatype Spot = Spot(lineno: int, line: Option<string>, offset: Option<int>)

  /**
   * The dictionary `kogi_print_exc` hands back: the code, the one-line error message and, for a
   * syntax error, its position.
   */
  datatype Slots = Slots(code: string, emsg: string, spot: Option<Spot>)

  /** The error message kept in the slots: `str(etype) + ": " + str(evalue)`, stripped. */
  function ErrorMessage(typeText: string, message: string): string {
    Strip(typeText + ": " + message)
  }

  /**
   * When the type's text and the message have no whitespace at their outer ends, nothing is
   * stripped; an empty message leaves the type's text and a bare colon.
   */
  lemma ErrorMessageCases(typeText: string, message: string)
    requires typeText != [] && !IsSpace(typeText[0])
    ensures message != [] && !IsSpace(message[|message| - 1]) ==>
      ErrorMessage(typeText, message) == typeText + ": " + message
    ensures message == [] && !IsSpace(typeText[|typeText| - 1]) ==>
      ErrorMessage(typeText, message) == typeText + ":"
  {
    var t := typeText + ": " + message;
    if message != [] && !IsSpace(message[|message| - 1]) {
      assert t[|t| - 1] == message[|message| - 1];
      assert RStrip(t) == t;
      assert t[0] == typeText[0];
    }
    if message == [] && !IsSpace(typeText[|typeText| - 1]) {
      var u := typeText + ":";
      assert t == u + " ";
      assert IsSpace(t[|t| - 1]);
      assert t[..|t| - 1] == u;
      assert RStrip(u) == u;
      assert RStrip(t) == RStrip(u);
      assert u[0] == typeText[0];
    }
  }

  /** A syntax error's attributes: class name, file, line, text of the line, column (from 1), message. */
  datatype SyntaxInfo = SyntaxInfo(
    className: string, filename: string, lineno: int, text: Option<string>, offset: Option<int>, msg: string)

  /**
   * The exception being reported: its type's name (`etype.__name__`), the type as `str` shows
   * it (`<class '…'>`), the message (`str(evalue)`), the syntax error itself when the type is
   * a `SyntaxError`, and the frames of its traceback, outermost first.
   */
  datatype ExcInfo = ExcInfo(
    typeName: string, typeText: string, message: string, syntax: Option<SyntaxInfo>, frames: seq<Frame>)

  /** The `exception` argument of `kogi_print_exc`: absent, a syntax error, or another exception. */
  datatype Given = NoneGiven | GivenSyntax(info: SyntaxInfo) | GivenOther

  /**
   * The syntax error `kogi_print_exc` reports, if any: the one given, or, when none is given,
   * the exception itself when its type is a `SyntaxError`.
   */
  function SyntaxToReport(exc: ExcInfo, given: Given): (r: Option<SyntaxInfo>)
    ensures r.Some? <==> given.GivenSyntax? || (given.NoneGiven? && exc.syntax.Some?)
    ensures given.GivenSyntax? ==> r == Some(given.info)
    ensures given.NoneGiven? ==> r == exc.syntax
  {
    match given
    case GivenSyntax(info) => Some(info)
    case NoneGiven => exc.syntax
    case GivenOther => None
  }

  /** What the report reads besides the exception: renderers, the cell's code split into lines, the line cache. */
  function ReportEnv(reg: Renderers, cachedLine: (string, int) -> string, code: string): Env {
    Env(reg, code, Sources(SplitLines(code), cachedLine))
  }

  /** The report of a runtime error: banner, the walk as the run-based reference describes it, verdict. */
  function RuntimeReport(env: Env, exc: ExcInfo): seq<string> {
    PrintHeader(exc.typeName)
    + RenderAll(env, RefOutput(Runs(exc.frames)))
    + [FinalLine(exc.typeName, exc.message)]
  }

  /** The column a syntax error's caret goes under: the offset less one, never negative; no offset counts as 0. */
  function CaretIndent(offset: Option<int>): (k: nat)
    ensures offset.Some? && offset.value >= 1 ==> k == offset.value - 1
    ensures offset.None? || offset.value <= 1 ==> k == 0
  {
    match offset
    case None => 0
    case Some(o) => Max(0, o - 1)
  }

  /** The line under the failing line: a plain gutter, a space, the indent, and a bold red `^^`. */
  function CaretLine(lineno: int, offset: Option<int>): string {
    Arrow(lineno, false) + " " + (Repeat(' ', CaretIndent(offset)) + Bold(Red("^^")))
  }

  /** The function name `print_syntax_error` shows in its header: `[lineno: n]`. */
  function LinenoLabel(lineno: int): string {
    "[lineno: " + IntToString(lineno) + "]"
  }

  /**
   * `print_syntax_error` as it is meant to work: a header naming the line, the window up to
   * the failing line, the caret line, and the verdict with the error's class name and message.
   */
  function SyntaxReport(env: Env, info: SyntaxInfo): seq<string> {
    [FuncHeader(info.filename, LinenoLabel(info.lineno), VarsText(env.reg, []))]
    + SyntaxWindow(env.src, info.filename, info.lineno)
    + [CaretLine(info.lineno, info.offset), FinalLine(info.className, info.msg)]
  }

  /** The slots after a syntax error: its line, the text of the line and its offset are added. */
  function SyntaxSlots(slots: Slots, info: SyntaxInfo): (r: Slots)
    ensures r.code == slots.code && r.emsg == slots.emsg
    ensures r.spot == Some(Spot(info.lineno, info.text, info.offset))
  {
    slots.(spot := Some(Spot(info.lineno, info.text, info.offset)))
  }

  /**
   * `kogi_print_exc`, with `print_syntax_error` as it is meant to work. A syntax error prints
   * its own report; any other error prints the banner, what the walk prints for the frames and
   * the verdict. Either way the slots hold the code and the stripped error message.
   */
  method PrintExc(reg: Renderers, cachedLine: (string, int) -> string, code: string, exc: ExcInfo, given: Given)
    returns (printed: seq<string>, slots: Slots)
    ensures slots.code == code && slots.emsg == ErrorMessage(exc.typeText, exc.message)
    ensures SyntaxToReport(exc, given).None? ==>
      printed == RuntimeReport(ReportEnv(reg, cachedLine, code), exc) && slots.spot == None
    ensures SyntaxToReport(exc, given).Some? ==>
      var info := SyntaxToReport(exc, given).value;
      && printed == SyntaxReport(ReportEnv(reg, cachedLine, code), info)
      && slots.spot == Some(Spot(info.lineno, info.text, info.offset))
  {
    slots := Slots(code, Strip(exc.typeText + ": " + exc.message), None);
    var lines := SplitLines(code);
    var env := Env(reg, code, Sources(lines, cachedLine));
    var syntax := SyntaxToReport(exc, given);
    if syntax.Some? {
      printed := SyntaxReport(env, syntax.value);
      slots := SyntaxSlots(slots, syntax.value);
      return;
    }
    printed := PrintHeader(exc.typeName);
    var walked := Walk(env, exc.frames);
    printed := printed + walked + [FinalLine(exc.typeName, exc.message)];
  }

  /**
   * A runtime report opens with the banner and closes with the verdict; with no frames it is
   * nothing else, and with one frame it shows that frame's header and window between them.
   */
  lemma RuntimeReportShape(env: Env, exc: ExcInfo)
    ensures var r := RuntimeReport(env, exc);
      && |r| >= 3
      && r[..2] == PrintHeader(exc.typeName)
      && r[|r| - 1] == FinalLine(exc.typeName, exc.message)
    ensures exc.frames == [] ==>
      RuntimeReport(env, exc) == PrintHeader(exc.typeName) + [FinalLine(exc.typeName, exc.message)]
    ensures |exc.frames| == 1 ==>
      RuntimeReport(env, exc) ==
        PrintHeader(exc.typeName) + [Header(env, exc.frames[0])] + Window(env, exc.frames[0])
        + [FinalLine(exc.typeName, exc.message)]
  {
    var fs := exc.frames;
    if fs == [] {
      assert Runs(fs) == [];
    }
    if |fs| == 1 {
      UniformIsOneRun(fs);
      var f := fs[0];
      assert RefOutput([fs]) == RunBlock(fs);
      assert fs[1..Min(|fs|, RepeatLimit + 1)] == [];
      assert RunBlock(fs) == [FuncLine(f), CodeWindow(f)];
      RenderAllAppend(env, [FuncLine(f)], [CodeWindow(f)]);
      RenderAllSingle(env, FuncLine(f));
      RenderAllSingle(env, CodeWindow(f));
    }
  }

  /** Two different frames: the banner, each frame's header and window in order, the verdict. */
  lemma TwoFrameReport(env: Env, exc: ExcInfo)
    requires |exc.frames| == 2 && IdOf(exc.frames[0]) != IdOf(exc.frames[1])
    ensures var f, g := exc.frames[0], exc.frames[1];
      RuntimeReport(env, exc) ==
        PrintHeader(exc.typeName) + [Header(env, f)] + Window(env, f) + [Header(env, g)] + Window(env, g)
        + [FinalLine(exc.typeName, exc.message)]
  {
    var f, g := exc.frames[0], exc.frames[1];
    var head, last := PrintHeader(exc.typeName), [FinalLine(exc.typeName, exc.message)];
    var hf, wf, hg, wg := [Header(env, f)], Window(env, f), [Header(env, g)], Window(env, g);
    TwoFrameItems(exc.frames);
    RenderAllAppend(env, [FuncLine(f), CodeWindow(f)], [FuncLine(g), CodeWindow(g)]);
    RenderPair(env, f);
    RenderPair(env, g);
    assert RenderAll(env, RefOutput(Runs(exc.frames))) == (hf + wf) + (hg + wg);
    calc {
      RuntimeReport(env, exc);
      head + ((hf + wf) + (hg + wg)) + last;
      { AppendAssoc(hf + wf, hg, wg); }
      head + ((hf + wf) + hg + wg) + last;
      { AppendAssoc(head, (hf + wf) + hg, wg); AppendAssoc(head, hf + wf, hg); AppendAssoc(head, hf, wf); }
      head + hf + wf + hg + wg + last;
    }
  }

  /** The items the walk prints for two different frames: each one's function line and window. */
  lemma {:induction false} TwoFrameItems(frames: seq<Frame>)
    requires |frames| == 2 && IdOf(frames[0]) != IdOf(frames[1])
    ensures RefOutput(Runs(frames)) ==
      [FuncLine(frames[0]), CodeWindow(frames[0])] + [FuncLine(frames[1]), CodeWindow(frames[1])]
  {
    var f, g := frames[0], frames[1];
    assert AllAt([f], IdOf(f));
    RunThenOther([f], g);
    assert [f] + [g] == frames;
    WalkMatchesRuns(frames);
    assert [f][1..Min(1, RepeatLimit + 1)] == [];
    assert RunBlock([f]) == [FuncLine(f), CodeWindow(f)];
  }

  /** A frame's function line and window render as its header followed by its window. */
  lemma RenderPair(env: Env, f: Frame)
    ensures RenderAll(env, [FuncLine(f), CodeWindow(f)]) == [Header(env, f)] + Window(env, f)
  {
    RenderAllAppend(env, [FuncLine(f)], [CodeWindow(f)]);
    assert [FuncLine(f)] + [CodeWindow(f)] == [FuncLine(f), CodeWindow(f)];
    RenderAllSingle(env, FuncLine(f));
    RenderAllSingle(env, CodeWindow(f));
  }

  /** The slots' message for a division by zero joins the type's text and the message. */
  lemma ZeroDivisionMessage()
    ensures ErrorMessage("<class 'ZeroDivisionError'>", "division by zero")
      == "<class 'ZeroDivisionError'>: division by zero"
  {
    var t, m := "<class 'ZeroDivisionError'>", "division by zero";
    assert !IsSpace(t[0]) && !IsSpace(m[|m| - 1]);
    ErrorMessageCases(t, m);
  }

  /** The window around line 2 starts at line 1: there is no line 0 to show. */
  lemma WindowAtLineTwo(src: Sources, filename: string)
    ensures LineCode(src, filename, 2) == [
      CodeLine(src, filename, 1, false), CodeLine(src, filename, 2, true),
      CodeLine(src, filename, 3, false), CodeLine(src, filename, 4, false)]
  {
    assert WindowMarks(2) == [(1, false), (2, true), (3, false), (4, false)];
  }

  /** The width of the gutter of line `n`, marked or not: the padded number and two more characters. */
  function GutterWidth(n: int): nat {
    Max(5, |IntToString(n)|) + 2
  }

  /** The failing line shows its gutter, then a space, then the text of the line. */
  lemma MarkedLineText(src: Sources, filename: string, lineno: int)
    requires Esc !in GetLine(src, filename, lineno)
    ensures var gutter := ArrowPad(lineno, true) + IntToString(lineno);
      && Plain(CodeLine(src, filename, lineno, true)) == gutter + (" " + GetLine(src, filename, lineno))
      && |gutter| == GutterWidth(lineno)
  {
    var text, gutter := GetLine(src, filename, lineno), ArrowPad(lineno, true) + IntToString(lineno);
    calc {
      Plain(CodeLine(src, filename, lineno, true));
      { AppendAssoc(Arrow(lineno, true), " ", text); }
      Plain(Arrow(lineno, true) + (" " + text));
      { ArrowShows(lineno, true, " " + text); }
      gutter + Plain(" " + text);
      { PlainNoEsc(" " + text, ""); assert " " + text + "" == " " + text; }
      gutter + (" " + text);
    }
  }

  /** The caret line shows a gutter as wide as the failing line's, a space, the indent and `^^`. */
  lemma CaretLineShows(lineno: int, offset: Option<int>)
    ensures var c, col := Plain(CaretLine(lineno, offset)), GutterWidth(lineno) + 1 + CaretIndent(offset);
      && |c| == col + 2
      && c[col..] == "^^"
      && forall i :: GutterWidth(lineno) <= i < col ==> c[i] == ' '
  {
    var gutter := ArrowPad(lineno, false) + IntToString(lineno);
    var lead := " " + Repeat(' ', CaretIndent(offset));
    var mark := Bold(Red("^^"));
    assert Esc !in lead by {
      forall i | 0 <= i < |lead| ensures lead[i] != Esc {
      }
    }
    calc {
      Plain(CaretLine(lineno, offset));
      { AppendAssoc(Arrow(lineno, false), " ", Repeat(' ', CaretIndent(offset)) + mark);
        AppendAssoc(" ", Repeat(' ', CaretIndent(offset)), mark); }
      Plain(Arrow(lineno, false) + (lead + mark));
      { ArrowShows(lineno, false, lead + mark); }
      gutter + Plain(lead + mark);
      { PlainNoEsc(lead, mark); }
      gutter + (lead + Plain(mark));
      { BoldRedShowsText("^^", ""); assert mark + "" == mark; }
      gutter + (lead + "^^");
    }
    var c := gutter + (lead + "^^");
    forall i | GutterWidth(lineno) <= i < GutterWidth(lineno) + 1 + CaretIndent(offset) ensures c[i] == ' ' {
      assert c[i] == lead[i - |gutter|];
    }
  }

  /**
   * The caret stands under the character the offset points at: the caret line's gutter is as
   * wide as the failing line's, and after it and a space come `offset - 1` spaces and `^^`.
   */
  lemma CaretUnderOffset(src: Sources, filename: string, lineno: int, offset: Option<int>)
    requires Esc !in GetLine(src, filename, lineno)
    ensures var text, g := GetLine(src, filename, lineno), GutterWidth(lineno);
      var marked, caret := Plain(CodeLine(src, filename, lineno, true)), Plain(CaretLine(lineno, offset));
      var col := g + 1 + CaretIndent(offset);
      && |caret| == col + 2
      && caret[col..] == "^^"
      && (forall i :: g <= i < col ==> caret[i] == ' ')
      && |marked| == g + 1 + |text|
      && marked[g + 1..] == text
      && (offset.Some? && 1 <= offset.value <= |text| ==> marked[col] == text[offset.value - 1])
  {
    CaretLineShows(lineno, offset);
    MarkedLineColumns(src, filename, lineno);
    var text, g := GetLine(src, filename, lineno), GutterWidth(lineno);
    if offset.Some? && 1 <= offset.value <= |text| {
      var marked := Plain(CodeLine(src, filename, lineno, true));
      assert marked[g + 1 + CaretIndent(offset)] == marked[g + 1..][offset.value - 1];
    }
  }

  /** The text of the failing line starts one column after its gutter. */
  lemma MarkedLineColumns(src: Sources, filename: string, lineno: int)
    requires Esc !in GetLine(src, filename, lineno)
    ensures var text, marked := GetLine(src, filename, lineno), Plain(CodeLine(src, filename, lineno, true));
      && |marked| == GutterWidth(lineno) + 1 + |text|
      && marked[GutterWidth(lineno) + 1..] == text
  {
    MarkedLineText(src, filename, lineno);
    var text, gutter := GetLine(src, filename, lineno), ArrowPad(lineno, true) + IntToString(lineno);
    assert Plain(CodeLine(src, filename, lineno, true)) == gutter + (" " + text);
  }

  /**
   * The syntax report: a header for the line, the lines before the failing one and the failing
   * line as the general window shows them, then the caret line right under it, then the verdict.
   */
  lemma SyntaxReportShape(env: Env, info: SyntaxInfo)
    ensures var r, w := SyntaxReport(env, info), LineCode(env.src, info.filename, info.lineno);
      && |r| == |w| + 1
      && r[0] == FuncHeader(info.filename, LinenoLabel(info.lineno), "")
      && r[1..|r| - 2] == w[..|w| - 2]
      && r[|r| - 3] == CodeLine(env.src, info.filename, info.lineno, true)
      && r[|r| - 2] == CaretLine(info.lineno, info.offset)
      && r[|r| - 1] == FinalLine(info.className, info.msg)
  {
    SyntaxWindowIsPrefix(env.src, info.filename, info.lineno);
    var sw := SyntaxWindow(env.src, info.filename, info.lineno);
    var r := SyntaxReport(env, info);
    assert Entries(env.reg, []) == [];
    assert r[1..|r| - 2] == sw;
    assert r[|r| - 3] == sw[|sw| - 1];
  }

  // ---------------------------------------------------------------------------------------
  // `print_syntax_error` as the source writes it.

  /** What `print_syntax_error` receives as `code`: a string or, as `kogi_print_exc` passes it, a list of lines. */
  datatype CodeArg = CodeText(text: string) | LineList(lines: seq<string>)

  /** What it receives as `slots`: the default empty string, or a dictionary. */
  datatype SlotsArg = DefaultSlots | SlotsDict(slots: Slots)

  /** The Python errors the written code raises. */
  datatype PyError = AttributeError | TypeError | UnboundLocalError

  /**
   * How the written function ends: what it printed, the `slots` argument as the caller sees it
   * afterwards (a dictionary is updated in place), and the error it raised.
   */
  datatype Raised = Raised(printed: seq<string>, slots: SlotsArg, error: PyError)

  /**
   * `print_syntax_error` as written. A list has no `splitlines`, so the call from
   * `kogi_print_exc` fails before printing; a string with the default slots fails at the first
   * item assignment; with a dictionary it stores the position into the caller's dictionary,
   * prints the header and the window, then fails reading `offset` before anything assigned it.
   */
  function SyntaxErrorAsWritten(reg: Renderers, cachedLine: (string, int) -> string, code: CodeArg, info: SyntaxInfo, slots: SlotsArg)
    : (r: Raised)
    ensures r.error == AttributeError <==> code.LineList?
    ensures r.error == UnboundLocalError <==> code.CodeText? && slots.SlotsDict?
    ensures r.printed != [] <==> r.error == UnboundLocalError
    ensures r.error == UnboundLocalError ==> r.slots == SlotsDict(SyntaxSlots(slots.slots, info))
    ensures r.error != UnboundLocalError ==> r.slots == slots
  {
    match code
    case LineList(_) => Raised([], slots, AttributeError)
    case CodeText(text) =>
      match slots
      case DefaultSlots => Raised([], slots, TypeError)
      case SlotsDict(d) =>
        var src := Sources(SplitLines(text), cachedLine);
        Raised([FuncHeader(info.filename, LinenoLabel(info.lineno), VarsText(reg, []))]
          + SyntaxWindow(src, info.filename, info.lineno), SlotsDict(SyntaxSlots(d, info)), UnboundLocalError)
  }

  /**
   * Every syntax error `kogi_print_exc` hands on fails as written: it passes the list of lines,
   * so nothing is printed, the slots are left as they were, and `AttributeError` escapes instead
   * of the slots being returned.
   */
  lemma SyntaxDispatchFails(reg: Renderers, cachedLine: (string, int) -> string, code: string, exc: ExcInfo, given: Given)
    requires SyntaxToReport(exc, given).Some?
    ensures var slots := Slots(code, ErrorMessage(exc.typeText, exc.message), None);
      SyntaxErrorAsWritten(reg, cachedLine, LineList(SplitLines(code)), SyntaxToReport(exc, given).value, SlotsDict(slots))
        == Raised([], SlotsDict(slots), AttributeError)
  {
  }

  /**
   * Called directly with the code as a string and a dictionary, the written function prints
   * exactly the corrected report without its caret line and verdict, then fails; the caller's
   * dictionary already holds the position, as the corrected slots do.
   */
  lemma AsWrittenStopsBeforeCaret(reg: Renderers, cachedLine: (string, int) -> string, code: string, info: SyntaxInfo, slots: Slots)
    ensures var env := ReportEnv(reg, cachedLine, code);
      var r, fixed := SyntaxErrorAsWritten(reg, cachedLine, CodeText(code), info, SlotsDict(slots)), SyntaxReport(env, info);
      && r.error == UnboundLocalError
      && r.printed == fixed[..|fixed| - 2]
      && r.slots == SlotsDict(SyntaxSlots(slots, info))
  {
    var env := ReportEnv(reg, cachedLine, code);
    var fixed := SyntaxReport(env, info);
    var head := [FuncHeader(info.filename, LinenoLabel(info.lineno), VarsText(reg, []))]
      + SyntaxWindow(env.src, info.filename, info.lineno);
    assert fixed == head + [CaretLine(info.lineno, info.offset), FinalLine(info.className, info.msg)];
    assert fixed[..|fixed| - 2] == head;
  }
}
