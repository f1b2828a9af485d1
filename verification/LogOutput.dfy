/** The log collector from the polls to the file: the pipeline with its generation store. */
module LogOutput {
  import opened LogLines
  import opened Outcomes
  import opened LogWindows
  import opened LogGenerations
  import opened LogPipeline
  import Streaming = LogStreaming

  /** No slice is of a generation below the oldest one stored when it is added. */
  ghost predicate NoneTooOld(run: seq<State>) {
    forall i :: 0 <= i < |run| - 1 ==> AddedInTime(run[i], run[i + 1])
  }

  ghost predicate AddedInTime(s: State, s': State) {
    AddSlice(s, s') && s.added != [] ==> s.slices[0].generation >= s.gens.oldest
  }

  /** The windows in the order in which the polls push them, the first of generation 0. */
  ghost predicate AreArrivals(log: seq<Line>, arrivals: seq<Window>) {
    && AllValid(log, arrivals)
    && Streaming.Disciplined(AsSet(arrivals))
    && (arrivals != [] ==> arrivals[0].generation == 0)
  }

  ghost function StreamOf(s: State, arrivals: seq<Window>): Streaming.State
    requires |s.added| <= |arrivals|
  {
    Streaming.State(s.gens, AsSet(arrivals[..|s.added|]), s.emitted)
  }

  ghost predicate AllFlushed(p: Processor) {
    HasQuit(p) && !p.Clearing?
  }

  ghost predicate PushedFrom(log: seq<Line>, pushed: seq<LineSlice>, arrivals: seq<Window>) {
    && AllValid(log, arrivals)
    && |pushed| <= |arrivals|
    && pushed == SlicesOf(log, arrivals)[..|pushed|]
  }

  /** What was pushed is the windows so far, and what was emitted is what they cover: before the
      last flush as the streaming store keeps it, after it completely. */
  ghost predicate OutputInv(log: seq<Line>, s: State, arrivals: seq<Window>) {
    && PushedFrom(log, s.pushed, arrivals)
    && |s.added| <= |s.pushed|
    && (if AllFlushed(s.processor) then s.emitted == Pick(log, AsSet(arrivals[..|s.added|]), 0, |log|)
        else Streaming.Inv(log, StreamOf(s, arrivals)))
  }

  /** The step touches neither the store nor what it was given and gave back. */
  ghost predicate LeavesStore(s: State, s': State) {
    && s'.gens == s.gens && s'.added == s.added && s'.emitted == s.emitted
    && AllFlushed(s'.processor) == AllFlushed(s.processor)
  }

  lemma {:induction false} StepKinds(s: State, s': State)
    requires Next(s, s')
    ensures AddSlice(s, s') || FlushDue(s, s') || FlushRemaining(s, s') || LeavesStore(s, s')
  {
  }

  lemma {:induction false} PushedGrows(s: State, s': State)
    requires Next(s, s')
    ensures s.pushed <= s'.pushed
  {
  }

  lemma {:induction false} PushedIsPrefix(run: seq<State>, n: nat)
    requires IsRun(run) && n < |run|
    ensures run[n].pushed <= run[|run| - 1].pushed
    decreases |run| - n
  {
    if n < |run| - 1 {
      assert Next(run[n], run[n + 1]);
      PushedGrows(run[n], run[n + 1]);
      PushedIsPrefix(run, n + 1);
    }
  }

  lemma {:induction false} NextArrival(log: seq<Line>, s: State, arrivals: seq<Window>)
    requires LogPipeline.Inv(s) && PushedFrom(log, s.pushed, arrivals) && s.slices != []
    ensures |s.added| < |arrivals| && s.slices[0] == SliceOf(log, arrivals[|s.added|])
  {
    var n := |s.added|;
    assert s.pushed[n] == s.slices[0];
    assert SlicesOf(log, arrivals)[n] == SliceOf(log, arrivals[n]);
  }

  lemma {:induction false} ArrivedSoFar(log: seq<Line>, arrivals: seq<Window>, n: nat)
    requires AreArrivals(log, arrivals) && n < |arrivals|
    ensures AsSet(arrivals[..n + 1]) == AsSet(arrivals[..n]) + {arrivals[n]}
    ensures Streaming.Disciplined(AsSet(arrivals[..n + 1]))
    ensures n > 0 ==> AsSet(arrivals[..n]) != {}
    ensures n == 0 ==> AsSet(arrivals[..n]) == {} && arrivals[n].generation == 0
  {
    assert arrivals[..n + 1] == arrivals[..n] + [arrivals[n]];
    AsSetWith(arrivals[..n], arrivals[n]);
    SubsetIsDisciplined(AsSet(arrivals), AsSet(arrivals[..n + 1]));
    if n > 0 {
      assert arrivals[..n][0] in AsSet(arrivals[..n]);
    }
  }

  lemma {:induction false} ArrivalStep(log: seq<Line>, s: State, s': State, arrivals: seq<Window>)
    requires AreArrivals(log, arrivals)
    requires LogPipeline.Inv(s) && PushedFrom(log, s.pushed, arrivals) && AddSlice(s, s') && AddedInTime(s, s')
    ensures |s'.added| <= |arrivals|
    ensures Streaming.AddStep(log, StreamOf(s, arrivals), StreamOf(s', arrivals), arrivals[|s.added|])
  {
    NextArrival(log, s, arrivals);
    ArrivedSoFar(log, arrivals, |s.added|);
  }

  lemma {:induction false} AsSetWith(ws: seq<Window>, w: Window)
    ensures AsSet(ws + [w]) == AsSet(ws) + {w}
  {
  }

  lemma {:induction false} SubsetIsDisciplined(ws: set<Window>, vs: set<Window>)
    requires Streaming.Disciplined(ws) && vs <= ws
    ensures Streaming.Disciplined(vs)
  {
  }

  lemma {:induction false} OutputAdd(log: seq<Line>, s: State, s': State, arrivals: seq<Window>)
    requires IsLog(log) && AreArrivals(log, arrivals)
    requires LogPipeline.Inv(s) && OutputInv(log, s, arrivals) && AddSlice(s, s') && AddedInTime(s, s')
    ensures OutputInv(log, s', arrivals)
  {
    ArrivalStep(log, s, s', arrivals);
    Streaming.InvAdd(log, StreamOf(s, arrivals), StreamOf(s', arrivals), arrivals[|s.added|]);
    assert |s.added| < |s.pushed|;
  }

  lemma {:induction false} StreamEmits(log: seq<Line>, g: Gens, g': Gens, added: set<Window>, emitted: seq<Line>,
      r: Outcome<LineSlice>)
    requires Streaming.Inv(log, Streaming.State(g, added, emitted))
    requires g.ShouldFlush() && FlushStep(g, g', r) && r.Done?
    ensures Streaming.Inv(log, Streaming.State(g', added, emitted + r.value.lines))
  {
    var (t, t') := (Streaming.State(g, added, emitted), Streaming.State(g', added, emitted + r.value.lines));
    assert Streaming.EmitStep(t, t');
    Streaming.InvEmit(log, t, t');
  }

  lemma {:induction false} StreamFlush(log: seq<Line>, s: State, s': State, arrivals: seq<Window>, r: Outcome<LineSlice>)
    requires |s.added| <= |arrivals| && Streaming.Inv(log, StreamOf(s, arrivals))
    requires s.gens.ShouldFlush() && FlushGives(s, s', r)
    ensures s'.added == s.added && s'.pushed == s.pushed && !AllFlushed(s'.processor)
    ensures Streaming.Inv(log, StreamOf(s', arrivals))
  {
    var added := AsSet(arrivals[..|s.added|]);
    assert StreamOf(s, arrivals) == Streaming.State(s.gens, added, s.emitted);
    assert StreamOf(s', arrivals) == Streaming.State(s'.gens, added, s.emitted + r.value.lines);
    StreamEmits(log, s.gens, s'.gens, added, s.emitted, r);
  }

  lemma {:induction false} OutputFlushAll(log: seq<Line>, s: State, s': State, arrivals: seq<Window>, r: Outcome<LineSlice>)
    requires IsLog(log) && OutputInv(log, s, arrivals) && !AllFlushed(s.processor) && FlushAllGives(s, s', r)
    ensures OutputInv(log, s', arrivals)
  {
    Streaming.FlushAllCompletes(log, StreamOf(s, arrivals), r);
  }

  lemma {:induction false} OutputOther(log: seq<Line>, s: State, s': State, arrivals: seq<Window>)
    requires OutputInv(log, s, arrivals)
    requires PushedFrom(log, s'.pushed, arrivals) && s.pushed <= s'.pushed
    requires LeavesStore(s, s')
    ensures OutputInv(log, s', arrivals)
  {
  }

  lemma {:induction false} OutputNext(log: seq<Line>, s: State, s': State, arrivals: seq<Window>)
    requires IsLog(log) && AreArrivals(log, arrivals)
    requires LogPipeline.Inv(s) && OutputInv(log, s, arrivals) && Next(s, s') && AddedInTime(s, s')
    requires PushedFrom(log, s'.pushed, arrivals)
    ensures OutputInv(log, s', arrivals)
  {
    PushedGrows(s, s');
    StepKinds(s, s');
    if AddSlice(s, s') {
      OutputAdd(log, s, s', arrivals);
    } else if FlushDue(s, s') {
      var r :| FlushGives(s, s', r);
      StreamFlush(log, s, s', arrivals, r);
    } else if FlushRemaining(s, s') {
      var r :| FlushAllGives(s, s', r);
      OutputFlushAll(log, s, s', arrivals, r);
    } else {
      OutputOther(log, s, s', arrivals);
    }
  }

  lemma {:induction false} OutputRun(log: seq<Line>, run: seq<State>, arrivals: seq<Window>, n: nat)
    requires IsLog(log) && AreArrivals(log, arrivals) && IsRun(run) && NoneTooOld(run) && n < |run|
    requires run[|run| - 1].pushed == SlicesOf(log, arrivals)
    ensures OutputInv(log, run[n], arrivals)
    decreases n
  {
    if n == 0 {
      Streaming.InvInit(log, StreamOf(run[0], arrivals));
    } else {
      OutputRun(log, run, arrivals, n - 1);
      LogPipeline.InvRun(run, n - 1);
      PushedIsPrefix(run, n);
      assert Next(run[n - 1], run[n - 1 + 1]) && AddedInTime(run[n - 1], run[n - 1 + 1]);
      OutputNext(log, run[n - 1], run[n], arrivals);
    }
  }

  /** In no reachable state does a flush panic: neither one that is due, nor the last one. */
  lemma {:induction false} NoFlushPanics(log: seq<Line>, run: seq<State>, arrivals: seq<Window>, n: nat, g': Gens,
      r: Outcome<LineSlice>)
    requires IsLog(log) && AreArrivals(log, arrivals) && IsRun(run) && NoneTooOld(run) && n < |run|
    requires run[|run| - 1].pushed == SlicesOf(log, arrivals)
    ensures run[n].processor == Selecting && run[n].gens.ShouldFlush() && FlushStep(run[n].gens, g', r) ==> r.Done?
    ensures run[n].processor == Clearing && FlushAllResult(run[n].gens, r) ==> r.Done?
  {
    var s := run[n];
    OutputRun(log, run, arrivals, n);
    if s.processor == Selecting && s.gens.ShouldFlush() && FlushStep(s.gens, g', r) {
      Streaming.DueFlushSucceeds(log, StreamOf(s, arrivals), g', r);
    }
    if s.processor == Clearing && FlushAllResult(s.gens, r) {
      Streaming.FlushAllCompletes(log, StreamOf(s, arrivals), r);
    }
  }

  /** The output file. In every interleaving, once CleanUp has returned, the file holds every
      line of the log that any pushed window covered, once, in log order. */
  lemma {:induction false} FileIsTheCoveredLog(log: seq<Line>, run: seq<State>, arrivals: seq<Window>)
    requires IsLog(log) && AreArrivals(log, arrivals) && IsRun(run) && NoneTooOld(run)
    requires run[|run| - 1].pushed == SlicesOf(log, arrivals)
    requires run[|run| - 1].cleaner == CleanedUp
    ensures run[|run| - 1].written == Pick(log, AsSet(arrivals), 0, |log|)
  {
    var s := run[|run| - 1];
    LogPipeline.InvRun(run, |run| - 1);
    OutputRun(log, run, arrivals, |run| - 1);
    LosslessShutdown(run);
    assert arrivals[..|arrivals|] == arrivals;
  }
}
