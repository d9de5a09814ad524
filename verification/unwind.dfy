// The frame walk of `kogi_print_exc`: every frame of the traceback gets a header line and a
// window of source, except that a frame repeating the previous one (same file, function and
// line, as in deep recursion) only gets its header, and only for the first ten repeats; once a
// different frame follows a long run, a summary line reports how many repeats there were.

module Unwind {
  import opened Wrappers
  import opened Seqs
  import opened Strings
  import opened Palette
  import opened Values
  import opened FrameReport
  import opened SourceLines

  /** What makes two frames "the same" for the walk: file, function and line. */
  type Id = (string, string, int)

  function IdOf(f: Frame): Id {
    (f.filename, f.funcname, f.lineno)
  }

  /** What the walk reads besides the frames: the registered renderers, the cell's code and the sources. */
  datatype Env = Env(reg: Renderers, code: string, src: Sources)

  /** Repeats of one frame beyond this many print nothing. */
  const RepeatLimit: nat := 10

  /** The header line of a frame: its function and its visible variables. */
  function Header(env: Env, f: Frame): string {
    FuncHeader(f.filename, f.funcname, VarsText(env.reg, GlobalsFiltered(f.locals, env.code)))
  }

  /** The source window of a frame. */
  function Window(env: Env, f: Frame): seq<string> {
    LineCode(env.src, f.filename, f.lineno)
  }

  /** The line that reports how many repeats a run had, the count in red. */
  function SummaryLine(n: int): string {
    "... repeated " + Red(IntToString(n)) + " times ..."
  }

  /** The summary line shows the count in decimal between the fixed words. */
  lemma SummaryLineShows(n: int)
    ensures Plain(SummaryLine(n)) == "... repeated " + IntToString(n) + " times ..."
  {
    var a, d, b := "... repeated ", IntToString(n), " times ...";
    NumberHasNoEsc(n);
    calc {
      Plain(SummaryLine(n));
      { AppendAssoc(a, Red(d), b); }
      Plain(a + (Red(d) + b));
      { PlainNoEsc(a, Red(d) + b); }
      a + Plain(Red(d) + b);
      { StyleShowsText("31", d, b); }
      a + (d + Plain(b));
      { PlainNoEsc(b, ""); assert b + "" == b; }
      a + (d + b);
      { AppendAssoc(a, d, b); }
      a + d + b;
    }
  }

  /** What the walk prints, item by item, before it is turned into text. */
  datatype Printed =
    | FuncLine(frame: Frame)      // `print_func` for the frame
    | CodeWindow(frame: Frame)    // `print_linecode` for the frame
    | Summary(repeated: nat)      // the "... repeated n times ..." line

  /** The text lines of one printed item. */
  function Render(env: Env, p: Printed): seq<string> {
    match p
    case FuncLine(f) => [Header(env, f)]
    case CodeWindow(f) => Window(env, f)
    case Summary(n) => [SummaryLine(n)]
  }

  /** The text lines of the printed items, in order. */
  function RenderAll(env: Env, ps: seq<Printed>): seq<string> {
    if ps == [] then [] else Render(env, ps[0]) + RenderAll(env, ps[1..])
  }

  /** The summary owed for a run whose repeat counter stands at `repeated`, printed once a different frame comes. */
  function Pending(repeated: nat): seq<Printed> {
    if repeated > RepeatLimit then [Summary(repeated)] else []
  }

  /** The walk's two variables between frames: the previous frame's identity and the repeat counter. */
  datatype Walker = Walker(prev: Option<Id>, repeated: nat)

  const Start: Walker := Walker(None, 0)

  /** What one frame prints, given the walker state before it. */
  function StepOut(w: Walker, f: Frame): seq<Printed> {
    if w.prev != Some(IdOf(f)) then Pending(w.repeated) + [FuncLine(f), CodeWindow(f)]
    else if w.repeated < RepeatLimit then [FuncLine(f)]
    else []
  }

  /** The walker state after one frame. */
  function StepState(w: Walker, f: Frame): Walker {
    if w.prev != Some(IdOf(f)) then Walker(Some(IdOf(f)), 0)
    else Walker(w.prev, w.repeated + 1)
  }

  /** Everything the walk prints for `frames`, starting from state `w`. */
  function WalkFrom(w: Walker, frames: seq<Frame>): seq<Printed>
    decreases |frames|
  {
    if frames == [] then []
    else StepOut(w, frames[0]) + WalkFrom(StepState(w, frames[0]), frames[1..])
  }

  /** The frame loop of `kogi_print_exc`, from the outermost call inwards along the traceback. */
  method Walk(env: Env, frames: seq<Frame>) returns (out: seq<string>)
    ensures out == RenderAll(env, WalkFrom(Start, frames))
    ensures out == RenderAll(env, RefOutput(Runs(frames)))
  {
    out := [];
    var prev: Option<Id> := None;
    var repeated: nat := 0;
    var i := 0;
    while i < |frames|
      invariant 0 <= i <= |frames|
      invariant out + RenderAll(env, WalkFrom(Walker(prev, repeated), frames[i..]))
        == RenderAll(env, WalkFrom(Start, frames))
    {
      ghost var w := Walker(prev, repeated);
      var step;
      step, prev, repeated := PrintFrame(env, prev, repeated, frames[i]);
      WalkAdvances(env, out, step, w, frames, i);
      out := out + step;
      i := i + 1;
    }
    assert frames[i..] == [];
    WalkMatchesRuns(frames);
  }

  /**
   * The body of the frame loop: what one frame prints, and the new previous frame and repeat
   * counter.
   */
  method PrintFrame(env: Env, prev: Option<Id>, repeated: nat, f: Frame)
    returns (step: seq<string>, prev': Option<Id>, repeated': nat)
    ensures step == RenderAll(env, StepOut(Walker(prev, repeated), f))
    ensures Walker(prev', repeated') == StepState(Walker(prev, repeated), f)
  {
    var localVars := FilterGlobals(f.locals, env.code);
    var cur := IdOf(f);
    step := [];
    if prev != Some(cur) {
      if repeated > RepeatLimit {
        step := [SummaryLine(repeated)];
      }
      var varsText := ReprVars(env.reg, localVars);
      step := step + [FuncHeader(f.filename, f.funcname, varsText)] + LineCode(env.src, f.filename, f.lineno);
      repeated' := 0;
    } else {
      if repeated < RepeatLimit {
        var varsText := ReprVars(env.reg, localVars);
        step := [FuncHeader(f.filename, f.funcname, varsText)];
      }
      repeated' := repeated + 1;
    }
    prev' := Some(cur);
    StepRenders(env, Walker(prev, repeated), f);
  }

  /** Printing frame `i`'s text keeps what is printed plus what remains to be printed unchanged. */
  lemma WalkAdvances(env: Env, out: seq<string>, step: seq<string>, w: Walker, frames: seq<Frame>, i: int)
    requires 0 <= i < |frames| && step == RenderAll(env, StepOut(w, frames[i]))
    ensures (out + step) + RenderAll(env, WalkFrom(StepState(w, frames[i]), frames[i + 1..]))
      == out + RenderAll(env, WalkFrom(w, frames[i..]))
  {
    var later := WalkFrom(StepState(w, frames[i]), frames[i + 1..]);
    WalkFromUnfold(w, frames, i);
    RenderAllAppend(env, StepOut(w, frames[i]), later);
    AppendAssoc(out, step, RenderAll(env, later));
  }

  /** Unfolding the walk at position `i`: what frame `i` prints, then the walk of the frames after it. */
  lemma WalkFromUnfold(w: Walker, frames: seq<Frame>, i: int)
    requires 0 <= i < |frames|
    ensures WalkFrom(w, frames[i..]) == StepOut(w, frames[i]) + WalkFrom(StepState(w, frames[i]), frames[i + 1..])
  {
    assert frames[i..][1..] == frames[i + 1..];
  }

  /** Rendering distributes over concatenation. */
  lemma {:induction false} RenderAllAppend(env: Env, a: seq<Printed>, b: seq<Printed>)
    ensures RenderAll(env, a + b) == RenderAll(env, a) + RenderAll(env, b)
    decreases |a|
  {
    if a == [] {
      assert a + b == b;
    } else {
      assert (a + b)[0] == a[0];
      assert (a + b)[1..] == a[1..] + b;
      RenderAllAppend(env, a[1..], b);
      AppendAssoc(Render(env, a[0]), RenderAll(env, a[1..]), RenderAll(env, b));
    }
  }

  lemma RenderAllSingle(env: Env, p: Printed)
    ensures RenderAll(env, [p]) == Render(env, p)
  {
    assert [p][1..] == [];
  }

  /** The text of one step, item by item. */
  lemma StepRenders(env: Env, w: Walker, f: Frame)
    ensures RenderAll(env, StepOut(w, f)) ==
      if w.prev != Some(IdOf(f)) then
        (if w.repeated > RepeatLimit then Render(env, Summary(w.repeated)) else [])
        + Render(env, FuncLine(f)) + Render(env, CodeWindow(f))
      else if w.repeated < RepeatLimit then Render(env, FuncLine(f))
      else []
  {
    var fl, cw := FuncLine(f), CodeWindow(f);
    RenderAllSingle(env, fl);
    RenderAllSingle(env, cw);
    assert [fl, cw] == [fl] + [cw];
    RenderAllAppend(env, [fl], [cw]);
    if w.prev != Some(IdOf(f)) {
      RenderAllAppend(env, Pending(w.repeated), [fl, cw]);
      if w.repeated > RepeatLimit {
        RenderAllSingle(env, Summary(w.repeated));
      }
    }
  }

  // A reference rendering, built from runs of identical frames rather than from the walker's two variables.

  /** The function lines of the given frames, one each, in order. */
  function FuncLines(fs: seq<Frame>): (r: seq<Printed>)
    ensures |r| == |fs|
  {
    seq(|fs|, i requires 0 <= i < |fs| => FuncLine(fs[i]))
  }

  /** Frames that all stop at place `id`. */
  predicate AllAt(fs: seq<Frame>, id: Id) {
    forall i :: 0 <= i < |fs| ==> IdOf(fs[i]) == id
  }

  lemma AllAtTail(fs: seq<Frame>, id: Id)
    requires fs != [] && AllAt(fs, id)
    ensures IdOf(fs[0]) == id && AllAt(fs[1..], id)
  {
  }

  /** The length of the run of frames identical to the first one. */
  function RunLen(frames: seq<Frame>): (n: nat)
    requires frames != []
    ensures 1 <= n <= |frames|
    ensures AllAt(frames[..n], IdOf(frames[0]))
    ensures n < |frames| ==> IdOf(frames[n]) != IdOf(frames[0])
    decreases |frames|
  {
    if |frames| == 1 || IdOf(frames[1]) != IdOf(frames[0]) then 1
    else 1 + RunLen(frames[1..])
  }

  function Flatten(runs: seq<seq<Frame>>): seq<Frame> {
    if runs == [] then [] else runs[0] + Flatten(runs[1..])
  }

  /** Maximal runs: each one non-empty and at one place, and neighbouring runs at different places. */
  predicate MaximalRuns(runs: seq<seq<Frame>>) {
    && (forall k :: 0 <= k < |runs| ==> runs[k] != [] && AllAt(runs[k], IdOf(runs[k][0])))
    && (forall k :: 0 < k < |runs| ==> IdOf(runs[k - 1][0]) != IdOf(runs[k][0]))
  }

  /** The traceback cut into runs of identical frames. */
  function Runs(frames: seq<Frame>): (runs: seq<seq<Frame>>)
    ensures forall k :: 0 <= k < |runs| ==> runs[k] != []
    ensures frames != [] ==> runs != [] && runs[0] == frames[..RunLen(frames)]
    decreases |frames|
  {
    if frames == [] then []
    else
      var n := RunLen(frames);
      [frames[..n]] + Runs(frames[n..])
  }

  /** The runs put back together give the traceback. */
  lemma {:induction false} RunsFlatten(frames: seq<Frame>)
    ensures Flatten(Runs(frames)) == frames
    decreases |frames|
  {
    if frames != [] {
      var n := RunLen(frames);
      var rest := frames[n..];
      var runs := Runs(frames);
      calc {
        Flatten(runs);
        runs[0] + Flatten(runs[1..]);
        { assert runs[1..] == Runs(rest); }
        frames[..n] + Flatten(Runs(rest));
        { RunsFlatten(rest); }
        frames[..n] + rest;
        { TakeDrop(frames, n); }
        frames;
      }
    }
  }

  /** The runs are maximal: each at one place, and neighbouring runs at different places. */
  lemma {:induction false} RunsMaximal(frames: seq<Frame>)
    ensures MaximalRuns(Runs(frames))
    decreases |frames|
  {
    if frames != [] {
      var n := RunLen(frames);
      var rest := frames[n..];
      var runs, tail := Runs(frames), Runs(rest);
      RunsMaximal(rest);
      assert runs == [frames[..n]] + tail;
      forall k | 0 < k < |runs|
        ensures runs[k] == tail[k - 1]
      {
      }
      forall k | 0 <= k < |runs|
        ensures runs[k] != [] && AllAt(runs[k], IdOf(runs[k][0]))
      {
        if k == 0 {
          assert runs[0] == frames[..n];
        }
      }
      forall k | 0 < k < |runs|
        ensures IdOf(runs[k - 1][0]) != IdOf(runs[k][0])
      {
        if k == 1 {
          assert runs[0][0] == frames[0] && runs[1][0] == frames[n];
        }
      }
    }
  }

  /**
   * What one run prints: the function line and window of its first frame, then the function
   * lines of up to ten repeats.
   */
  function RunBlock(run: seq<Frame>): seq<Printed>
    requires run != []
  {
    [FuncLine(run[0]), CodeWindow(run[0])] + FuncLines(run[1..Min(|run|, RepeatLimit + 1)])
  }

  /** The runs in order, each followed by its summary when another run comes after it. */
  function RefOutput(runs: seq<seq<Frame>>): seq<Printed>
    requires forall k :: 0 <= k < |runs| ==> runs[k] != []
  {
    if runs == [] then []
    else RunBlock(runs[0]) + (if |runs| > 1 then Pending(|runs[0]| - 1) else []) + RefOutput(runs[1..])
  }

  /** The function lines that repeats print, one per repeat while the counter is below the limit. */
  function RepeatLines(rep: nat, s: seq<Frame>): seq<Printed>
    decreases |s|
  {
    if s == [] then []
    else (if rep < RepeatLimit then [FuncLine(s[0])] else []) + RepeatLines(rep + 1, s[1..])
  }

  /** Frames repeating the previous one print their repeat lines; the counter grows by one per frame. */
  lemma {:induction false} RepeatsWalk(id: Id, rep: nat, s: seq<Frame>, rest: seq<Frame>)
    requires AllAt(s, id)
    ensures WalkFrom(Walker(Some(id), rep), s + rest)
      == RepeatLines(rep, s) + WalkFrom(Walker(Some(id), rep + |s|), rest)
    decreases |s|
  {
    if s == [] {
      assert s + rest == rest;
    } else {
      var x, t := s[0], s[1..];
      var first := if rep < RepeatLimit then [FuncLine(x)] else [];
      var later := WalkFrom(Walker(Some(id), rep + |s|), rest);
      ConsAppend(s, rest);
      assert Walker(Some(id), (rep + 1) + |t|) == Walker(Some(id), rep + |s|);
      AllAtTail(s, id);
      calc {
        WalkFrom(Walker(Some(id), rep), s + rest);
        { RepeatStep(id, rep, x, t + rest); }
        first + WalkFrom(Walker(Some(id), rep + 1), t + rest);
        { RepeatsWalk(id, rep + 1, t, rest); }
        first + (RepeatLines(rep + 1, t) + later);
        { AppendAssoc(first, RepeatLines(rep + 1, t), later); }
        RepeatLines(rep, s) + later;
      }
    }
  }

  /** One repeat of the previous frame: its function line while below the limit, and the counter grows. */
  lemma RepeatStep(id: Id, rep: nat, x: Frame, t: seq<Frame>)
    requires IdOf(x) == id
    ensures WalkFrom(Walker(Some(id), rep), [x] + t)
      == (if rep < RepeatLimit then [FuncLine(x)] else []) + WalkFrom(Walker(Some(id), rep + 1), t)
  {
    assert ([x] + t)[0] == x && ([x] + t)[1..] == t;
  }

  /** Repeats print the function lines of those still below the limit: at most `10 - rep` of them. */
  lemma {:induction false} RepeatLinesAreFirstRepeats(rep: nat, s: seq<Frame>)
    ensures RepeatLines(rep, s) == FuncLines(s[..Min(|s|, Max(0, RepeatLimit - rep))])
    decreases |s|
  {
    if s != [] {
      RepeatLinesAreFirstRepeats(rep + 1, s[1..]);
      FuncLinesTake(s, rep);
    }
  }

  /** The function lines of the repeats still below the limit, split after the first. */
  lemma FuncLinesTake(s: seq<Frame>, rep: nat)
    requires s != []
    ensures FuncLines(s[..Min(|s|, Max(0, RepeatLimit - rep))])
      == (if rep < RepeatLimit then [FuncLine(s[0])] else [])
        + FuncLines(s[1..][..Min(|s| - 1, Max(0, RepeatLimit - (rep + 1)))])
  {
    var m := Min(|s|, Max(0, RepeatLimit - rep));
    var m1 := Min(|s| - 1, Max(0, RepeatLimit - (rep + 1)));
    if rep < RepeatLimit {
      assert m == m1 + 1;
      TakeCons(s, m);
    } else {
      assert m == 0 && m1 == 0;
    }
  }

  /**
   * From a state whose previous frame differs from the first one, the walk prints the summary
   * owed by the counter, the block of the first run, and then walks the rest with the counter
   * standing at the run's repeats.
   */
  lemma FirstRunPrints(w: Walker, frames: seq<Frame>)
    requires frames != [] && w.prev != Some(IdOf(frames[0]))
    ensures var n := RunLen(frames);
      WalkFrom(w, frames) == Pending(w.repeated)
        + (RunBlock(frames[..n]) + WalkFrom(Walker(Some(IdOf(frames[0])), n - 1), frames[n..]))
  {
    var f := frames[0];
    var id := IdOf(f);
    var n := RunLen(frames);
    var run, rest := frames[..n], frames[n..];
    var first := [FuncLine(f), CodeWindow(f)];
    var hd := FuncLines(run[1..Min(n, RepeatLimit + 1)]);
    var later := WalkFrom(Walker(Some(id), n - 1), rest);
    TailSplit(frames, n);
    AllAtTail(run, id);
    TailTake(run, Min(n - 1, RepeatLimit));
    calc {
      WalkFrom(w, frames);
      { NewFrameStep(w, frames); }
      (Pending(w.repeated) + first) + WalkFrom(Walker(Some(id), 0), run[1..] + rest);
      { RepeatsWalk(id, 0, run[1..], rest); RepeatLinesAreFirstRepeats(0, run[1..]); }
      (Pending(w.repeated) + first) + (hd + later);
      { AppendAssoc(Pending(w.repeated), first, hd + later); }
      Pending(w.repeated) + (first + (hd + later));
      { AppendAssoc(first, hd, later); }
      Pending(w.repeated) + (RunBlock(run) + later);
    }
  }

  /** A frame unlike the previous one prints the summary owed, its function line and its window, and resets the counter. */
  lemma NewFrameStep(w: Walker, frames: seq<Frame>)
    requires frames != [] && w.prev != Some(IdOf(frames[0]))
    ensures WalkFrom(w, frames)
      == (Pending(w.repeated) + [FuncLine(frames[0]), CodeWindow(frames[0])])
        + WalkFrom(Walker(Some(IdOf(frames[0])), 0), frames[1..])
  {
  }

  /** The reference rendering of runs, unfolded once. */
  lemma RefOutputCons(runs: seq<seq<Frame>>)
    requires runs != [] && forall k :: 0 <= k < |runs| ==> runs[k] != []
    ensures RefOutput(runs)
      == RunBlock(runs[0]) + ((if |runs| > 1 then Pending(|runs[0]| - 1) else []) + RefOutput(runs[1..]))
  {
    AppendAssoc(RunBlock(runs[0]), if |runs| > 1 then Pending(|runs[0]| - 1) else [], RefOutput(runs[1..]));
  }

  /**
   * From a state whose previous frame differs from the first one, the walk prints the summary
   * owed by the counter, then the reference rendering of the frames' runs.
   */
  lemma {:induction false} WalkFollowsRuns(w: Walker, frames: seq<Frame>)
    requires frames != [] && w.prev != Some(IdOf(frames[0]))
    ensures WalkFrom(w, frames) == Pending(w.repeated) + RefOutput(Runs(frames))
    decreases |frames|
  {
    var n := RunLen(frames);
    var run, rest := frames[..n], frames[n..];
    var runs := Runs(frames);
    FirstRunPrints(w, frames);
    assert runs[0] == run && runs[1..] == Runs(rest);
    RefOutputCons(runs);
    if rest == [] {
      assert RefOutput(runs[1..]) == [];
    } else {
      WalkFollowsRuns(Walker(Some(IdOf(frames[0])), n - 1), rest);
    }
  }

  /** The walk prints exactly the reference rendering of the traceback's runs. */
  lemma WalkMatchesRuns(frames: seq<Frame>)
    ensures WalkFrom(Start, frames) == RefOutput(Runs(frames))
  {
    if frames != [] {
      WalkFollowsRuns(Start, frames);
    }
  }

  /** Frames all at one place form a single run. */
  lemma {:induction false} UniformIsOneRun(fs: seq<Frame>)
    requires fs != [] && AllAt(fs, IdOf(fs[0]))
    ensures Runs(fs) == [fs]
  {
    var n := RunLen(fs);
    if n < |fs| {
      assert false;
    }
    assert fs[..n] == fs;
    assert fs[n..] == [];
  }

  /**
   * A run that ends the traceback prints its first frame in full and the function lines of up
   * to ten repeats, and no summary however long it is.
   */
  lemma {:induction false} RunAtEndHasNoSummary(fs: seq<Frame>)
    requires fs != [] && AllAt(fs, IdOf(fs[0]))
    ensures WalkFrom(Start, fs) == RunBlock(fs)
    ensures |RunBlock(fs)| == 1 + Min(|fs|, RepeatLimit + 1)
  {
    WalkMatchesRuns(fs);
    UniformIsOneRun(fs);
    assert RefOutput([fs]) == RunBlock(fs) + [] + RefOutput([]);
  }

  /**
   * A run followed by a different frame: the run's block, then a summary exactly when it has
   * more than ten repeats, reporting their number, then the new frame in full.
   */
  lemma {:induction false} RunThenOther(fs: seq<Frame>, g: Frame)
    requires fs != [] && AllAt(fs, IdOf(fs[0])) && IdOf(g) != IdOf(fs[0])
    ensures WalkFrom(Start, fs + [g]) == RunBlock(fs) + Pending(|fs| - 1) + [FuncLine(g), CodeWindow(g)]
    ensures Pending(|fs| - 1) == (if |fs| > RepeatLimit + 1 then [Summary(|fs| - 1)] else [])
  {
    var frames := fs + [g];
    assert frames[0] == fs[0];
    var n := RunLen(frames);
    if n < |fs| {
      assert false;
    }
    assert frames[|fs|] == g && frames[..|frames|] == frames;
    if n > |fs| {
      assert false;
    }
    assert frames[..n] == fs && frames[n..] == [g];
    WalkMatchesRuns(frames);
    UniformIsOneRun([g]);
    var runs := Runs(frames);
    assert runs == [fs] + Runs([g]) == [fs, [g]];
    assert runs[1..] == [[g]];
    assert RefOutput([[g]]) == RunBlock([g]) + [] + RefOutput([]);
    assert RunBlock([g]) == [FuncLine(g), CodeWindow(g)];
  }

  /**
   * Fifteen calls stopped at one place: the first prints in full, ten repeats print their
   * function lines, the last four print nothing; a summary of 14 repeats appears only when
   * a different frame follows.
   */
  lemma FifteenIdenticalFrames(fs: seq<Frame>, g: Frame)
    requires |fs| == 15 && AllAt(fs, IdOf(fs[0]))
    ensures WalkFrom(Start, fs) == [FuncLine(fs[0]), CodeWindow(fs[0])] + FuncLines(fs[1..11])
    ensures IdOf(g) != IdOf(fs[0]) ==>
      WalkFrom(Start, fs + [g]) == WalkFrom(Start, fs) + [Summary(14), FuncLine(g), CodeWindow(g)]
  {
    RunAtEndHasNoSummary(fs);
    if IdOf(g) != IdOf(fs[0]) {
      RunThenOther(fs, g);
    }
  }
}
