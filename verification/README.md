# kogi traceback printer, modelled in Dafny

This project models `kogi/liberr/print_tb.py`, the part of kogi that prints a coloured
traceback for a failing Python cell. When an exception is reported:

- A red rule and a banner come first. The banner is the exception type's name, padded to 46
  columns, then ` Traceback(most recent call last)`.
- The frames are walked from the outermost one. Each new frame gets:
  - a header line: the file, the function and the frame's public variables, each shown
    through the repr registry;
  - a window of source: two lines before the failing line and two after it, with a line-number
    gutter that marks the failing line.
- A frame that repeats the previous one is handled differently:
  - "Repeats" means the same file, function and line, as in deep recursion.
  - Only its header is printed, and only for the first ten repeats.
  - Once a different frame follows a run of more than ten repeats, a line
    `... repeated n times ...` is printed.
- The report ends with the verdict line `TypeName: message`.
- `kogi_print_exc` returns the "slots" dictionary: the code and the error message, stripped.
- A syntax error takes a separate path, `print_syntax_error`. It is meant to print a header
  naming the line, the lines up to the failing one, a caret line under the failing column, and
  a verdict. As written it raises instead (see "## Findings"): called from `kogi_print_exc` it
  fails before printing anything, and called directly it fails at line 125 or at line 134.

The modules follow the file's structure:

| module | file | covers |
|---|---|---|
| `Wrappers`, `Seqs`, `Strings` | `wrappers.dfy`, `seqs.dfy`, `strings.dfy` | the Python built-ins the file relies on: `startswith`, `in` on strings, `split`/`join`, `strip`/`rstrip`, `ljust`, `splitlines`, `str(int)` |
| `Palette` | `palette.dfy` | `bold` … `cyan`, `dots`. `Plain` is the text a terminal shows, with the escape codes removed |
| `Values` | `values.dfy` | `REPR_VALUE`, `kogi_register_repr` (a `Registry` class whose map field is updated in place) and `repr_value` |
| `FrameReport` | `frame_report.dfy` | `repr_vars` and `filter_globals` (methods with loops, each proved against a function), `print_func` |
| `SourceLines` | `source_lines.dfy` | `getline`, `arrow`, `print_linecode` and the syntax-error window |
| `Unwind` | `unwind.dfy` | the `while tb` loop of `kogi_print_exc`: the method `Walk`, its step-by-step specification `WalkFrom`, and a second, independent description based on runs of equal frames |
| `Report` | `report.dfy` | `print_header`, the verdict line, the slots, the dispatch of `kogi_print_exc`, and `print_syntax_error`, both as written and corrected |

How output is modelled:

- What is printed is a `seq<string>`, with one element per `print` call. A `print(a, b)` call
  joins its arguments with a space.
- The walk's specification first produces abstract items (a frame's header, a frame's window, a
  summary), and `RenderAll` turns them into lines.
- The model follows the code's collapse of repeated frames exactly:
  - Fifteen identical frames print eleven headers: the first frame and ten repeats.
  - No summary is printed when the run ends the traceback. When a different frame follows, the
    summary reports 14.
  - Only lines read from files are right-stripped. Lines of the inline code (`<string>`) are
    returned as they are.

## Model

| member | source | states |
|---|---|---|
| `Palette.Bold` | kogi/liberr/print_tb.py:7-8 | `bold`: the text wrapped in `ESC[01m` and the reset `ESC[0m`. What it shows is stated by `Palette.PaletteShowsText` and `Palette.StyleShowsText`. |
| `Palette.Glay` | kogi/liberr/print_tb.py:11-12 | `glay`: the text wrapped in `ESC[07m` and the reset `ESC[0m`. What it shows is stated by `Palette.PaletteShowsText` and `Palette.StyleShowsText`. |
| `Palette.Red` | kogi/liberr/print_tb.py:15-16 | `red`: the text wrapped in `ESC[31m` and the reset `ESC[0m`. What it shows is stated by `Palette.PaletteShowsText` and `Palette.StyleShowsText`. |
| `Palette.Green` | kogi/liberr/print_tb.py:19-20 | `green`: the text wrapped in `ESC[32m` and the reset `ESC[0m`. What it shows is stated by `Palette.PaletteShowsText` and `Palette.StyleShowsText`. `Dots`, the constant `dots` of line 35, is `Green("...")`. |
| `Palette.Yellow` | kogi/liberr/print_tb.py:23-24 | `yellow`: the text wrapped in `ESC[33m` and the reset `ESC[0m`. What it shows is stated by `Palette.PaletteShowsText` and `Palette.StyleShowsText`. |
| `Palette.Blue` | kogi/liberr/print_tb.py:27-28 | `blue`: the text wrapped in `ESC[34m` and the reset `ESC[0m`. What it shows is stated by `Palette.PaletteShowsText` and `Palette.StyleShowsText`. |
| `Palette.Cyan` | kogi/liberr/print_tb.py:31-32 | `cyan`: the text wrapped in `ESC[36m` and the reset `ESC[0m`. What it shows is stated by `Palette.PaletteShowsText` and `Palette.StyleShowsText`. |
| `Palette.PaletteShowsText` | kogi/liberr/print_tb.py:7-32 | each of the seven styles shows exactly its text: the escapes change how the text looks, never what it says |
| `Palette.StyleShowsText` | kogi/liberr/print_tb.py:7-32 | a styled text followed by anything shows the text, then what the rest shows |
| `Palette.BoldRedShowsText` | kogi/liberr/print_tb.py:119 | bold red nested around a text shows just that text, whatever follows |
| `Palette.SgrInvisible` | kogi/liberr/print_tb.py:7-8 | an `ESC[…m` escape is recognised with its exact length and shows nothing |
| `Values.Registry.constructor` | kogi/liberr/print_tb.py:37-39 | the registry starts empty |
| `Values.Registry.Register` | kogi/liberr/print_tb.py:42-43 | registering replaces the entry for that type name. Every value of that type is then shown by the new renderer, and every other value is shown as before |
| `Values.ReprValue` | kogi/liberr/print_tb.py:46-56 | `repr_value`, total on every value: a renderer registered for the type name first, then `__name__`, a list of two or more items, a string, and plain `repr`. Each case is stated by the lemma rows `Values.RegisteredRendererWins` to `Values.OtherShowsRepr` below |
| `Values.RegisteredRendererWins` | kogi/liberr/print_tb.py:47-49 | a renderer registered for a value's type name decides its text, before any generic rule |
| `Values.RegisterIsLocal` | kogi/liberr/print_tb.py:42-49 | registering for one type name never changes how values of another type are shown |
| `Values.LastRegistrationWins` | kogi/liberr/print_tb.py:42-43 | after two registrations for the same name, every value shows as after the second alone, and a value of that type shows as the second renderer renders it |
| `Values.NamedShowsName` | kogi/liberr/print_tb.py:50-51 | an unregistered object with a `__name__` shows `(type)` and its name |
| `Values.LongListShowsFirstItem` | kogi/liberr/print_tb.py:52-53 | an unregistered list of two or more items shows `[first, ...]`. Its text depends only on the type and the first item, not on the length |
| `Values.ShortListShowsRepr` | kogi/liberr/print_tb.py:52-56 | an unregistered list of at most one item shows its `repr`: `[]` or `[repr(item)]` |
| `Values.StringShowsQuoted` | kogi/liberr/print_tb.py:54-55 | an unregistered string shows its `repr` in red |
| `Values.OtherShowsRepr` | kogi/liberr/print_tb.py:56 | any other unregistered value shows its plain `repr` |
| `FrameReport.ReprVars` | kogi/liberr/print_tb.py:59-65 | the loop's result equals `VarsText`: the entries of the public variables, in insertion order, joined by single spaces |
| `FrameReport.EntriesSnoc` | kogi/liberr/print_tb.py:60-64 | one more variable adds its entry at the end exactly when its name does not start with `_` |
| `FrameReport.EntriesArePublic` | kogi/liberr/print_tb.py:60-64 | every public variable has an entry, and every entry belongs to a public variable |
| `FrameReport.OnlyPrivateShowsNothing` | kogi/liberr/print_tb.py:59-65 | with only `_`-prefixed names, the variables part is empty |
| `FrameReport.VarsTextSnoc` | kogi/liberr/print_tb.py:64-65 | a public variable after a shown one is appended after exactly one space |
| `FrameReport.FilterGlobals` | kogi/liberr/print_tb.py:85-92 | the loop's result equals `GlobalsFiltered`: for a shell namespace, the variables whose name occurs in the code; otherwise the mapping unchanged |
| `FrameReport.GlobalsFilteredKeepsMentioned` | kogi/liberr/print_tb.py:85-92 | both directions: in a shell namespace a variable survives if and only if its name is a substring of the code. Without the `get_ipython` key, nothing is dropped |
| `FrameReport.GlobalsFilteredKeepsOrder` | kogi/liberr/print_tb.py:87-90 | the filtered mapping keeps the original order |
| `FrameReport.FilterKeepsDistinct` | kogi/liberr/print_tb.py:87-91 | the filtered result is again a mapping: no name occurs twice |
| `FrameReport.FuncHeader` | kogi/liberr/print_tb.py:95-103 | `print_func`: the shown file name, then the header line with or without it. Stated by `FrameReport.CellFrameShowsCellNumber` and `FrameReport.FuncHeaderShows` |
| `FrameReport.CellFrameShowsCellNumber` | kogi/liberr/print_tb.py:96-99 | a name with the `<ipython-input-` prefix always splits into more than two pieces. The shown file is `[` + the cell number + `]` |
| `FrameReport.FuncHeaderShows` | kogi/liberr/print_tb.py:95-103 | a header shows the quoted file name (left out for a kernel file), then the function name, a space and the variables |
| `SourceLines.GetLine` | kogi/liberr/print_tb.py:68-73 | `getline`, total on every line number. Stated by `SourceLines.GetLineInline` and `SourceLines.GetLineFileTrimmed` |
| `SourceLines.GetLineInline` | kogi/liberr/print_tb.py:69-72 | inline code gives line `n` for 1 ≤ n ≤ number of lines, and the empty string otherwise, never failing |
| `SourceLines.GetLineFileTrimmed` | kogi/liberr/print_tb.py:73 | a file line is the cached line with exactly its trailing whitespace removed: a prefix that does not end in whitespace, followed only by whitespace |
| `SourceLines.Arrow` | kogi/liberr/print_tb.py:76-82 | `arrow`: red padding and the green number. Stated by `SourceLines.ArrowShows`, `SourceLines.ArrowWidthIgnoresMark` and `SourceLines.MarkedArrowDiffers` |
| `SourceLines.ArrowShows` | kogi/liberr/print_tb.py:76-82 | the gutter shows dashes ending in `> ` for the failing line, or spaces ending in two spaces, and then the number. Its width is max(5, digits) + 2 |
| `SourceLines.ArrowWidthIgnoresMark` | kogi/liberr/print_tb.py:78-81 | the marked and unmarked gutters of a line are equally wide |
| `SourceLines.MarkedArrowDiffers` | kogi/liberr/print_tb.py:78-81 | the marked gutter is distinguishable from the plain one |
| `SourceLines.LineCode` | kogi/liberr/print_tb.py:106-113 | `print_linecode`: one gutter and line per window number. Stated by `SourceLines.WindowNumbersCases`, `SourceLines.LineCodeFollowsWindow`, `SourceLines.WindowShape` and `SourceLines.WindowAtFirstLine` |
| `SourceLines.WindowNumbersCases` | kogi/liberr/print_tb.py:107-113 | the window numbers are `lineno-2` and `lineno-1` when positive, then `lineno` to `lineno+2` |
| `SourceLines.LineCodeFollowsWindow` | kogi/liberr/print_tb.py:106-113 | `print_linecode` prints one line per window number, in order, and marks only the failing line |
| `SourceLines.WindowShape` | kogi/liberr/print_tb.py:106-113 | for line ≥ 1 the window has 3 + min(2, lineno-1) consecutive positive numbers. It ends two after the failing line, which appears exactly once |
| `SourceLines.WindowAtFirstLine` | kogi/liberr/print_tb.py:107-110 | at line 1 nothing before it is shown: the window is lines 1 to 3 |
| `SourceLines.SyntaxWindowIsPrefix` | kogi/liberr/print_tb.py:129-133 | the syntax-error window is the general window without its two trailing lines, and it ends at the marked failing line |
| `Strings.SplitLinesRoundTrip` | kogi/liberr/print_tb.py:149 | for text whose only line break is `\n`, `splitlines` followed by re-joining with `\n` gives the text back, up to a final newline |
| `Strings.SplitLinesHaveNoBreaks` | kogi/liberr/print_tb.py:149 | no line that `splitlines` returns contains a line break |
| `Strings.SplitLinesLine` | kogi/liberr/print_tb.py:149 | a break-free line and its `\n` come out as that line, followed by the lines of the rest |
| `Strings.StripTrims` | kogi/liberr/print_tb.py:147 | `strip` removes exactly the whitespace at both ends: the result sits between two all-whitespace pieces and does not start or end with whitespace |
| `Strings.StripIdempotent` | kogi/liberr/print_tb.py:147 | stripping twice strips nothing more |
| `Strings.IntToStringRoundTrip` | kogi/liberr/print_tb.py:77 | `str(n)` parses back to `n` and uses only digits and a leading minus |
| `Strings.JoinSplit` | kogi/liberr/print_tb.py:97 | joining the pieces of `split('-')` with `-` gives the name back |
| `Strings.ContainsIffOccurs` | kogi/liberr/print_tb.py:89 | `key in code` holds exactly when the key occurs at some position of the code |
| `Unwind.Walk` | kogi/liberr/print_tb.py:162-181 | the loop prints what the step-by-step specification `WalkFrom` prints, and also what the run-based reference `RefOutput(Runs(frames))` prints |
| `Unwind.PrintFrame` | kogi/liberr/print_tb.py:165-180 | one iteration prints what one step of the specification prints, and leaves `prev` and `repeated` as that step does |
| `Unwind.SummaryLine` | kogi/liberr/print_tb.py:172 | the `... repeated n times ...` line. Stated by `Unwind.SummaryLineShows` |
| `Unwind.SummaryLineShows` | kogi/liberr/print_tb.py:172 | the summary line shows the number of repeats in decimal between `... repeated ` and ` times ...` |
| `Unwind.Runs` | kogi/liberr/print_tb.py:169-170 | the frames cut into runs: every run is nonempty, and the first run is the longest prefix of frames equal to the first frame |
| `Unwind.RunLen` | kogi/liberr/print_tb.py:169-170 | the first run's length: all frames in it are equal to the first, and the next frame differs |
| `Unwind.RunsFlatten` | kogi/liberr/print_tb.py:164-181 | concatenating the runs gives back the frames: nothing is lost or reordered |
| `Unwind.RunsMaximal` | kogi/liberr/print_tb.py:169-170 | every run is uniform, and consecutive runs differ, so the runs are maximal |
| `Unwind.RepeatsWalk` | kogi/liberr/print_tb.py:176-179 | walking repeats of the previous frame prints only their function lines and adds their number to the counter |
| `Unwind.RepeatLinesAreFirstRepeats` | kogi/liberr/print_tb.py:177-178 | the repeats print the headers of the first `10 - repeated` of them, and no more |
| `Unwind.WalkFollowsRuns` | kogi/liberr/print_tb.py:164-181 | from any state whose previous frame differs from the next one, the walk prints the owed summary, then the reference output of the runs |
| `Unwind.WalkMatchesRuns` | kogi/liberr/print_tb.py:162-181 | the walk from the start equals the run-based reference: each run prints its first frame in full and up to ten repeat headers. A summary follows a run of more than ten repeats only when another run comes after it |
| `Unwind.UniformIsOneRun` | kogi/liberr/print_tb.py:169-170 | frames that are all equal form a single run |
| `Unwind.RunAtEndHasNoSummary` | kogi/liberr/print_tb.py:164-181 | a run that ends the traceback prints 1 + min(length, 11) items and never a summary |
| `Unwind.RunThenOther` | kogi/liberr/print_tb.py:170-175 | a run followed by a different frame prints a summary exactly when it has more than ten repeats, reporting their exact number |
| `Unwind.FifteenIdenticalFrames` | kogi/liberr/print_tb.py:162-181 | 15 identical frames print the first frame in full and ten more headers. A following different frame adds `repeated 14 times`, then that frame in full |
| `Report.PrintHeader` | kogi/liberr/print_tb.py:116-119 | `print_header`: the red rule, then the padded name and the title in bold red. Stated by `Report.HeaderShows` |
| `Report.HeaderShows` | kogi/liberr/print_tb.py:116-119 | the banner shows 79 dashes, then the name padded to 46 columns, then the title. The title starts at column 46 whenever the name fits |
| `Report.FinalLine` | kogi/liberr/print_tb.py:183 | the verdict line, with the type name in bold red and the message in bold. Stated by `Report.FinalLineShows` |
| `Report.FinalLineShows` | kogi/liberr/print_tb.py:183 | the verdict line reads `TypeName: message` |
| `Report.ErrorMessage` | kogi/liberr/print_tb.py:147 | the `emsg` slot, `str(etype): str(evalue)` stripped. Stated by `Strings.StripTrims`, `Report.ErrorMessageCases` and `Report.ZeroDivisionMessage` |
| `Report.ErrorMessageCases` | kogi/liberr/print_tb.py:145-148 | the slots' message is `str(etype): str(evalue)` unchanged when the outer ends are not whitespace. An empty message leaves a bare colon |
| `Report.ZeroDivisionMessage` | kogi/liberr/print_tb.py:147 | for a division by zero the message is `<class 'ZeroDivisionError'>: division by zero` |
| `Report.SyntaxToReport` | kogi/liberr/print_tb.py:151-158 | a syntax error is reported when one is given as `exception`, or when none is given and the exception's type is a `SyntaxError`. A given one is reported as given; with none given, the exception's own syntax error is reported. Any other given exception takes the runtime path |
| `Report.PrintExc` | kogi/liberr/print_tb.py:140-184 | the slots hold the code and the stripped message. A runtime error prints the banner, the run-based reference output of the frames, and the verdict. A syntax error prints the corrected syntax report and records its position in the slots |
| `Report.RuntimeReportShape` | kogi/liberr/print_tb.py:160-184 | the report opens with the banner and closes with the verdict. With no frames it is exactly those three lines. With one frame, its header and window sit between them |
| `Report.TwoFrameReport` | kogi/liberr/print_tb.py:160-184 | two different frames print in order, each with its header and its window |
| `Report.WindowAtLineTwo` | kogi/liberr/print_tb.py:107-113 | the window around line 2 is lines 1 to 4, with line 2 marked |
| `Report.CaretIndent` | kogi/liberr/print_tb.py:134 | the caret indent is `offset - 1` for an offset of at least 1, and 0 otherwise (including a missing offset) |
| `Report.CaretLineShows` | kogi/liberr/print_tb.py:134-135 | the caret line shows a gutter as wide as the failing line's, a space, the indent, and `^^` |
| `Report.CaretUnderOffset` | kogi/liberr/print_tb.py:133-135 | the caret stands in the column of the character the offset points at, in the failing line shown just above it |
| `Report.SyntaxSlots` | kogi/liberr/print_tb.py:125-127 | the slots gain the error's line, text and offset, and keep the code and message |
| `Report.SyntaxReport` | kogi/liberr/print_tb.py:122-137 | what `print_syntax_error` is meant to print (see "## Findings"). Stated by `Report.SyntaxReportShape`, `Report.CaretLineShows` and `Report.CaretUnderOffset` |
| `Report.SyntaxReportShape` | kogi/liberr/print_tb.py:128-136 | the corrected syntax report contains, in order: a header `[lineno: n]` with no variables; the window up to the failing line, as the general window shows those lines; the caret line right under the failing line; and the verdict |
| `Report.SyntaxErrorAsWritten` | kogi/liberr/print_tb.py:122-137 | as written the function always raises. A list as `code` raises `AttributeError`, with nothing printed. A string with the default slots raises `TypeError`. A string with a dict raises `UnboundLocalError` after printing, and the caller's dict already holds `lineno`, `line` and `offset`. Otherwise the `slots` argument is left as it was |
| `Report.SyntaxDispatchFails` | kogi/liberr/print_tb.py:149-158 | every syntax error that `kogi_print_exc` passes on raises `AttributeError` as written, with nothing printed |
| `Report.AsWrittenStopsBeforeCaret` | kogi/liberr/print_tb.py:128-134 | called directly with a string and a dict, the written code prints the corrected report without its caret line and verdict, then fails, leaving in the caller's dict the same position the corrected slots get |

## Left out

- Capturing the exception (`sys.exc_info()`, lines 141-144) is left out. The bare `raise` that
  recovers the `SyntaxError` (lines 154-157) is too. The exception's type name, its `str` text,
  its message, the syntax error's attributes and the traceback's frames are inputs
  (`Report.ExcInfo`, `Report.SyntaxInfo`). A bare `raise` with no exception being handled is
  not modelled.
- The traceback's linked `tb_next` chain and its frame objects become a sequence of `Frame`
  values, outermost first, with file, function, line and locals as plain fields.
- `linecache.getline` is the `cachedLine` parameter of `Sources`: a function from file name and
  line number to text, where `""` means a missing file or line. The disk reads are not modelled.
- Python's `repr`/`str` of arbitrary objects and the bodies of user-supplied renderers are not
  computed. Values carry the texts the host would produce, and a registered renderer is an
  arbitrary function. `hasattr(value, '__name__')` is the `Named` variant.
- `print` writes to standard output. Here each call appends one element to a sequence, and
  embedded newlines are not split. How a terminal interprets the escape codes is modelled only
  as far as `Palette.Plain` (which escapes are invisible).
- A `SyntaxError` whose `lineno` is `None` is not modelled. The line number is an integer.
- The unused imports `isclass` and `print_exception` have no counterpart.

## Findings

| source | as written | input that shows it | evidently intended | confidence | as-written member | corrected member |
|---|---|---|---|---|---|---|
| kogi/liberr/print_tb.py:152 | `kogi_print_exc` passes the list `lines`, and `print_syntax_error` calls `.splitlines()` on it at line 123 | any syntax error, e.g. `kogi_print_exc("x = = 1", exception=SyntaxError(...))`: `AttributeError`, nothing printed | pass `code` | high, not executed | `Report.SyntaxDispatchFails` | `Report.PrintExc` |
| kogi/liberr/print_tb.py:122 | the default `slots=''` is a string, so `slots['lineno'] = …` at line 125 fails | `print_syntax_error("x = = 1", e)`: `TypeError` | a fresh dictionary by default | high, not executed | `Report.SyntaxErrorAsWritten` | `Report.SyntaxSlots` |
| kogi/liberr/print_tb.py:134 | `offset` is read before it is assigned | `print_syntax_error("x = = 1", e, {})`: header and window printed, then `UnboundLocalError` | `max(0, exception.offset - 1)`, with a missing offset as 0 | high, not executed | `Report.AsWrittenStopsBeforeCaret` | `Report.CaretUnderOffset` |
