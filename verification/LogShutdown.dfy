/** That the log collector can be shut down from every state, with everything in the file
    (collection_tools/pkg/collectors/log_follower.go). */
module LogShutdown {
  import opened LogLines
  import opened Outcomes
  import opened LogWindows
  import opened LogGenerations
  import opened LogFlushes
  import opened LogPipeline
  import opened LogOutput
  import Streaming = LogStreaming

  // ---- The last flush succeeds

  /** The store holds slices of windows among `all`. */
  ghost predicate StoresWindows(log: seq<Line>, g: Gens, all: set<Window>) {
    exists held :: Streaming.Holds(log, g.store, held) && Streaming.HeldFrom(held, all)
  }

  lemma {:induction false} LastFlushSucceeds(log: seq<Line>, g: Gens, all: set<Window>) returns (r: Outcome<LineSlice>)
    requires IsLog(log) && Streaming.Disciplined(all) && StoresWindows(log, g, all)
    ensures FlushAllResult(g, r) && r.Done?
  {
    r := FlushAllExists(g);
    if g.store != map[] {
      var held :| Streaming.Holds(log, g.store, held) && Streaming.HeldFrom(held, all);
      var some :| some in g.store;
      var flushed :| StoreFlushedTo(g.store, TWO_TO_THE_32, flushed) && r == DedupSlices.Joined(flushed);
      var keys, ls, m := Streaming.FlushOfWindows(log, g.store, held, all, TWO_TO_THE_32, flushed, some);
      Streaming.JoinedLines(flushed, r);
    }
  }

  lemma {:induction false} StoresOneMore(log: seq<Line>, g: Gens, all: set<Window>, w: Window)
    requires StoresWindows(log, g, all) && ValidWindow(log, w) && w in all
    ensures StoresWindows(log, g.Added(SliceOf(log, w)), all)
  {
    var held :| Streaming.Holds(log, g.store, held) && Streaming.HeldFrom(held, all);
    Streaming.HoldsWith(log, g, held, w);
    HeldFromWith(held, all, w);
  }

  lemma {:induction false} HeldFromWith(held: map<uint32, seq<Window>>, all: set<Window>, w: Window)
    requires Streaming.HeldFrom(held, all) && w in all
    ensures Streaming.HeldFrom(Streaming.HeldWith(held, w), all)
  {
    var held' := Streaming.HeldWith(held, w);
    forall k | k in held'
      ensures Streaming.AllFrom(held'[k], k, all)
    {
      assert k in held ==> Streaming.AllFrom(held[k], k, all);
    }
  }

  // ---- One step on the way

  ghost function Stage(p: Processor): nat {
    match p
    case Sending(_) => 8
    case Starting => 7
    case Selecting => 6
    case Clearing => 5
    case SendingLast(_) => 4
    case Signalling => 3
    case Returning => 2
    case Returned => 1
  }

  ghost function WriterStage(w: Writer): nat {
    match w
    case WriterStarting => 4
    case WriterSelecting => 3
    case WriterDraining => 2
    case WriterReturning => 1
    case WriterReturned => 0
  }

  ghost function CleanerStage(c: Cleaner): nat {
    match c
    case NotCalled => 3
    case Quitting => 2
    case Waiting => 1
    case CleanedUp => 0
  }

  /** Less is left to do: polls, the processor's work, lines to be sent and written, goroutines. */
  ghost predicate CloserToEnd(s': State, s: State) {
    || s'.polls < s.polls
    || (s'.polls == s.polls &&
        (|| Stage(s'.processor) < Stage(s.processor)
         || (s'.processor == s.processor && |s'.slices| < |s.slices|)
         || (Stage(s'.processor) == Stage(s.processor) && s'.slices == s.slices && LessToWrite(s', s))))
  }

  ghost predicate LessToWrite(s': State, s: State) {
    || |ToSend(s'.processor)| < |ToSend(s.processor)|
    || (s'.processor == s.processor &&
        (|| |s'.lines| < |s.lines|
         || (s'.lines == s.lines && WriterStage(s'.writer) + CleanerStage(s'.cleaner) < WriterStage(s.writer) + CleanerStage(s.cleaner))))
  }

  ghost predicate QueuedInTime(s: State) {
    forall i :: 0 <= i < |s.slices| ==> s.slices[i].generation >= s.gens.oldest
  }

  ghost predicate CanClose(log: seq<Line>, s: State, arrivals: seq<Window>) {
    && LogPipeline.Inv(s) && PushedFrom(log, s.pushed, arrivals)
    && (!AllFlushed(s.processor) ==> StoresWindows(log, s.gens, AsSet(arrivals)))
  }

  /** A step that brings the end closer, and pushes nothing. */
  ghost predicate ClosingStep(log: seq<Line>, s: State, s': State, arrivals: seq<Window>) {
    && Next(s, s') && CanClose(log, s', arrivals) && CloserToEnd(s', s) && s'.pushed == s.pushed
    && (QueuedInTime(s) ==> QueuedInTime(s') && AddedInTime(s, s'))
  }

  lemma {:induction false} ByStep(log: seq<Line>, s: State, s': State, arrivals: seq<Window>)
    requires CanClose(log, s, arrivals) && Next(s, s') && CloserToEnd(s', s)
    requires s'.pushed == s.pushed && s'.slices == s.slices && s'.gens == s.gens && s'.added == s.added
    requires AllFlushed(s.processor) ==> AllFlushed(s'.processor)
    ensures ClosingStep(log, s, s', arrivals)
  {
    LogPipeline.InvNext(s, s');
  }

  lemma {:induction false} TakeSlice(log: seq<Line>, s: State, arrivals: seq<Window>) returns (s': State)
    requires CanClose(log, s, arrivals) && s.processor == Clearing && s.slices != []
    ensures ClosingStep(log, s, s', arrivals)
    ensures s' == s.(slices := s.slices[1..], gens := s'.gens, added := s'.added)
  {
    s' := s.(slices := s.slices[1..], gens := s.gens.Added(s.slices[0]), added := s.added + [s.slices[0]]);
    assert AddSlice(s, s');
    LogPipeline.InvNext(s, s');
    TakenIsStored(log, s, arrivals);
    if QueuedInTime(s) {
      TakenInTime(s, s');
    }
  }

  lemma {:induction false} TakenIsStored(log: seq<Line>, s: State, arrivals: seq<Window>)
    requires CanClose(log, s, arrivals) && s.slices != [] && !AllFlushed(s.processor)
    ensures StoresWindows(log, s.gens.Added(s.slices[0]), AsSet(arrivals))
  {
    NextArrival(log, s, arrivals);
    var w := arrivals[|s.added|];
    assert w in AsSet(arrivals) && ValidWindow(log, w);
    StoresOneMore(log, s.gens, AsSet(arrivals), w);
  }

  lemma {:induction false} TakenInTime(s: State, s': State)
    requires AddSlice(s, s') && QueuedInTime(s)
    ensures QueuedInTime(s') && AddedInTime(s, s')
  {
    assert forall i :: 0 <= i < |s'.slices| ==> s'.slices[i] == s.slices[i + 1];
  }

  lemma {:induction false} FlushLast(log: seq<Line>, s: State, arrivals: seq<Window>) returns (s': State)
    requires IsLog(log) && Streaming.Disciplined(AsSet(arrivals))
    requires CanClose(log, s, arrivals) && s.processor == Clearing && s.slices == []
    ensures ClosingStep(log, s, s', arrivals)
  {
    s' := FlushRest(log, s, AsSet(arrivals));
    ByStep(log, s, s', arrivals);
  }

  lemma {:induction false} FlushRest(log: seq<Line>, s: State, all: set<Window>) returns (s': State)
    requires IsLog(log) && Streaming.Disciplined(all) && StoresWindows(log, s.gens, all)
    requires s.processor == Clearing && s.slices == []
    ensures Next(s, s') && s'.processor.SendingLast? && s' == s.(processor := s'.processor, emitted := s'.emitted)
  {
    var r := LastFlushSucceeds(log, s.gens, all);
    var lines := r.value.lines;
    s' := s.(processor := SendingLast(lines), emitted := s.emitted + lines);
    RemainingFlushed(s, s', r);
  }

  lemma {:induction false} RemainingFlushed(s: State, s': State, r: Outcome<LineSlice>)
    requires s.processor == Clearing && s.slices == [] && FlushAllResult(s.gens, r) && r.Done?
    requires s' == s.(processor := SendingLast(r.value.lines), emitted := s.emitted + r.value.lines)
    ensures Next(s, s')
  {
    assert FlushAllGives(s, s', r);
    assert FlushRemaining(s, s');
  }

  /** Lines are written before more are sent. */
  lemma {:induction false} MoveLine(log: seq<Line>, s: State, arrivals: seq<Window>) returns (s': State)
    requires CanClose(log, s, arrivals) && s.writer in {WriterSelecting, WriterDraining}
    requires s.lines != [] || ToSend(s.processor) != []
    ensures ClosingStep(log, s, s', arrivals)
  {
    if s.lines != [] {
      s' := s.(lines := s.lines[1..], written := s.written + [s.lines[0]]);
      assert WriteLine(s, s');
    } else {
      s' := s.(lines := s.lines + [s.processor.rest[0]], processor := s.processor.(rest := s.processor.rest[1..]));
      assert SendLine(s, s');
    }
    ByStep(log, s, s', arrivals);
  }

  lemma {:induction false} StopPolls(log: seq<Line>, s: State, arrivals: seq<Window>) returns (s': State)
    requires CanClose(log, s, arrivals) && s.cleaner == NotCalled
    ensures ClosingStep(log, s, s', arrivals)
  {
    if s.polls > 0 {
      s' := s.(polls := s.polls - 1);
      assert EndPollWithoutLines(s, s');
    } else {
      s' := s.(cleaner := Quitting);
      assert CallCleanUp(s, s');
    }
    ByStep(log, s, s', arrivals);
  }

  lemma {:induction false} MoveProcessor(log: seq<Line>, s: State, arrivals: seq<Window>) returns (s': State)
    requires IsLog(log) && Streaming.Disciplined(AsSet(arrivals))
    requires CanClose(log, s, arrivals) && s.cleaner != NotCalled && s.lines == [] && ToSend(s.processor) == []
    requires s.processor != Returned && !s.writer.WriterStarting?
    ensures ClosingStep(log, s, s', arrivals)
  {
    match s.processor {
      case Clearing =>
        if s.slices != [] {
          s' := TakeSlice(log, s, arrivals);
        } else {
          s' := FlushLast(log, s, arrivals);
        }
      case _ =>
        s' := HandOver(log, s, arrivals);
    }
  }

  lemma {:induction false} HandOver(log: seq<Line>, s: State, arrivals: seq<Window>) returns (s': State)
    requires CanClose(log, s, arrivals) && s.cleaner != NotCalled && ToSend(s.processor) == []
    requires s.processor != Returned && s.processor != Clearing && !s.writer.WriterStarting?
    ensures ClosingStep(log, s, s', arrivals)
  {
    match s.processor {
      case Starting => s' := s.(wg := s.wg + 1, processor := Selecting);
      case Sending(_) => s' := s.(processor := Selecting);
      case Selecting => s' := s.(processor := Clearing, cleaner := Waiting);
      case SendingLast(_) => s' := s.(processor := Signalling);
      case Signalling => s' := s.(processor := Returning, writer := WriterDraining);
      case Returning => s' := s.(wg := s.wg - 1, processor := Returned);
    }
    assert HandOverStep(s, s');
    ByStep(log, s, s', arrivals);
  }

  lemma {:induction false} EndWriter(log: seq<Line>, s: State, arrivals: seq<Window>) returns (s': State)
    requires CanClose(log, s, arrivals) && s.cleaner !in {NotCalled, CleanedUp} && s.lines == []
    requires s.processor == Returned
    ensures ClosingStep(log, s, s', arrivals)
  {
    match s.writer {
      case WriterDraining => s' := s.(writer := WriterReturning);
      case WriterReturning => s' := s.(wg := s.wg - 1, writer := WriterReturned);
      case WriterReturned => s' := s.(cleaner := CleanedUp);
    }
    assert WriterStep(s, s') || WaitReturns(s, s');
    ByStep(log, s, s', arrivals);
  }

  lemma {:induction false} OneStep(log: seq<Line>, s: State, arrivals: seq<Window>) returns (s': State)
    requires IsLog(log) && Streaming.Disciplined(AsSet(arrivals))
    requires CanClose(log, s, arrivals) && s.cleaner != CleanedUp
    ensures ClosingStep(log, s, s', arrivals)
  {
    if s.cleaner == NotCalled {
      s' := StopPolls(log, s, arrivals);
    } else if s.writer == WriterStarting {
      s' := s.(wg := s.wg + 1, writer := WriterSelecting);
      assert WriterStart(s, s');
      ByStep(log, s, s', arrivals);
    } else if s.lines != [] || ToSend(s.processor) != [] {
      s' := MoveLine(log, s, arrivals);
    } else if s.processor != Returned {
      s' := MoveProcessor(log, s, arrivals);
    } else {
      s' := EndWriter(log, s, arrivals);
    }
  }

  // ---- The whole way

  /** States one after another, in which nothing is pushed. */
  ghost predicate IsEnding(path: seq<State>, s: State) {
    && path != [] && path[0] == s && path[|path| - 1].cleaner == CleanedUp && path[|path| - 1].pushed == s.pushed
    && (forall i :: 0 <= i < |path| - 1 ==> Next(path[i], path[i + 1]))
    && (QueuedInTime(s) ==> NoneTooOld(path))
  }

  lemma {:induction false} Ending(log: seq<Line>, s: State, arrivals: seq<Window>) returns (path: seq<State>)
    requires IsLog(log) && Streaming.Disciplined(AsSet(arrivals)) && CanClose(log, s, arrivals)
    ensures IsEnding(path, s)
    decreases s.polls, Stage(s.processor), |s.slices|, |ToSend(s.processor)|, |s.lines|,
              WriterStage(s.writer) + CleanerStage(s.cleaner)
  {
    path := [s];
    if s.cleaner != CleanedUp {
      var s' := OneStep(log, s, arrivals);
      var rest := Ending(log, s', arrivals);
      path := [s] + rest;
      EndsWith(s, s', rest, path);
    }
  }

  lemma {:induction false} EndsWith(s: State, s': State, rest: seq<State>, path: seq<State>)
    requires IsEnding(rest, s') && Next(s, s') && s'.pushed == s.pushed && path == [s] + rest
    requires QueuedInTime(s) ==> QueuedInTime(s') && AddedInTime(s, s')
    ensures IsEnding(path, s)
  {
    forall i | 0 <= i < |path| - 1
      ensures Next(path[i], path[i + 1])
      ensures QueuedInTime(s) ==> AddedInTime(path[i], path[i + 1])
    {
      if i > 0 {
        var k := i - 1;
        assert path[i] == rest[k] && path[i + 1] == rest[k + 1];
      }
    }
  }

  lemma {:induction false} ReachedCanClose(log: seq<Line>, run: seq<State>, arrivals: seq<Window>)
    requires IsLog(log) && AreArrivals(log, arrivals) && IsRun(run) && NoneTooOld(run)
    requires run[|run| - 1].pushed == SlicesOf(log, arrivals)
    ensures CanClose(log, run[|run| - 1], arrivals)
  {
    var s := run[|run| - 1];
    LogPipeline.InvRun(run, |run| - 1);
    OutputRun(log, run, arrivals, |run| - 1);
    if !AllFlushed(s.processor) {
      var added := AsSet(arrivals[..|s.added|]);
      var held :| Streaming.InvWith(log, StreamOf(s, arrivals), held);
      HeldFromMore(held, added, AsSet(arrivals));
      assert StoresWindows(log, s.gens, AsSet(arrivals));
    }
  }

  lemma {:induction false} HeldFromMore(held: map<uint32, seq<Window>>, some: set<Window>, all: set<Window>)
    requires Streaming.HeldFrom(held, some) && some <= all
    ensures Streaming.HeldFrom(held, all)
  {
    forall k | k in held
      ensures Streaming.AllFrom(held[k], k, all)
    {
      assert Streaming.AllFrom(held[k], k, some);
    }
  }

  lemma {:induction false} RunJoins(run: seq<State>, path: seq<State>, longer: seq<State>)
    requires IsRun(run) && path != [] && path[0] == run[|run| - 1]
    requires forall i :: 0 <= i < |path| - 1 ==> Next(path[i], path[i + 1])
    requires longer == run + path[1..]
    ensures IsRun(longer) && longer[|longer| - 1] == path[|path| - 1]
    ensures NoneTooOld(run) && NoneTooOld(path) ==> NoneTooOld(longer)
  {
    var n := |run| - 1;
    forall i | 0 <= i < |longer| - 1
      ensures Next(longer[i], longer[i + 1])
      ensures NoneTooOld(run) && NoneTooOld(path) ==> AddedInTime(longer[i], longer[i + 1])
    {
      if i < n {
        assert longer[i] == run[i] && longer[i + 1] == run[i + 1];
      } else {
        var k := i - n;
        assert longer[i] == path[k] && longer[i + 1] == path[k + 1];
      }
    }
  }

  /** From every state of every run, CleanUp can return without another slice being pushed. Then, when
      no queued slice comes too late, the file is every covered line once, in log order. */
  lemma {:induction false} CleanUpCanReturn(log: seq<Line>, run: seq<State>, arrivals: seq<Window>) returns (longer: seq<State>)
    requires IsLog(log) && AreArrivals(log, arrivals) && IsRun(run) && NoneTooOld(run)
    requires run[|run| - 1].pushed == SlicesOf(log, arrivals)
    ensures run <= longer && IsRun(longer)
    ensures
      var end := longer[|longer| - 1];
      && end.cleaner == CleanedUp && end.pushed == run[|run| - 1].pushed
      && (QueuedInTime(run[|run| - 1]) ==> NoneTooOld(longer) && end.written == Pick(log, AsSet(arrivals), 0, |log|))
  {
    ReachedCanClose(log, run, arrivals);
    var path := Ending(log, run[|run| - 1], arrivals);
    longer := run + path[1..];
    RunJoins(run, path, longer);
    if QueuedInTime(run[|run| - 1]) {
      FileIsTheCoveredLog(log, longer, arrivals);
    }
  }

  // ---- Runs that push given windows

  /** All slices queued, and no goroutine at work yet. */
  ghost function Queued(slices: seq<LineSlice>): State {
    State(0, slices, NO_GENERATIONS, [], [], 0, Starting, WriterStarting, NotCalled, slices, [], [])
  }

  lemma {:induction false} RunGoesOn(run: seq<State>, s': State)
    requires IsRun(run) && Next(run[|run| - 1], s')
    ensures IsRun(run + [s'])
    ensures NoneTooOld(run) && AddedInTime(run[|run| - 1], s') ==> NoneTooOld(run + [s'])
  {
    var longer := run + [s'];
    forall i | 0 <= i < |longer| - 1
      ensures Next(longer[i], longer[i + 1])
      ensures NoneTooOld(run) && AddedInTime(run[|run| - 1], s') ==> AddedInTime(longer[i], longer[i + 1])
    {
      if i < |run| - 1 {
        assert longer[i] == run[i] && longer[i + 1] == run[i + 1];
      }
    }
  }

  /** A poll starts and pushes its slice. */
  lemma {:induction false} PollPushes(run: seq<State>, slice: LineSlice) returns (longer: seq<State>)
    requires IsRun(run) && NoneTooOld(run)
    requires var s := run[|run| - 1]; s.cleaner == NotCalled && |s.slices| < SLICE_CHANNEL_LENGTH
    ensures IsRun(longer) && NoneTooOld(longer)
    ensures
      var s := run[|run| - 1];
      longer[|longer| - 1] == s.(slices := s.slices + [slice], pushed := s.pushed + [slice])
  {
    var s := run[|run| - 1];
    var t := s.(polls := s.polls + 1);
    assert StartPoll(s, t);
    RunGoesOn(run, t);
    var u := t.(polls := s.polls, slices := t.slices + [slice], pushed := t.pushed + [slice]);
    assert PushSlice(t, u);
    RunGoesOn(run + [t], u);
    longer := run + [t] + [u];
  }

  lemma {:induction false} QueueUp(slices: seq<LineSlice>, n: nat) returns (run: seq<State>)
    requires n <= |slices| && n <= SLICE_CHANNEL_LENGTH
    ensures IsRun(run) && NoneTooOld(run) && run[|run| - 1] == Queued(slices[..n])
  {
    if n == 0 {
      run := [Queued([])];
    } else {
      var before := QueueUp(slices, n - 1);
      run := PollPushes(before, slices[n - 1]);
      assert slices[..n] == slices[..n - 1] + [slices[n - 1]];
    }
  }

  lemma {:induction false} QuitOnQueue(run: seq<State>, slices: seq<LineSlice>) returns (longer: seq<State>)
    requires IsRun(run) && NoneTooOld(run) && run[|run| - 1] == Queued(slices)
    ensures IsRun(longer) && NoneTooOld(longer)
    ensures longer[|longer| - 1] == Queued(slices).(wg := 1, processor := Clearing, cleaner := Waiting)
  {
    var s := Queued(slices);
    var t := s.(cleaner := Quitting);
    assert CallCleanUp(s, t);
    RunGoesOn(run, t);
    var u := t.(wg := 1, processor := Selecting);
    assert ProcessorStart(t, u);
    RunGoesOn(run + [t], u);
    var v := u.(processor := Clearing, cleaner := Waiting);
    assert ReceiveQuit(u, v);
    RunGoesOn(run + [t] + [u], v);
    longer := run + [t] + [u] + [v];
  }

  /** For windows that fit into the channel there is a run in which all of them are still queued when
      the quit signal is received, and which ends with all they cover in the file. */
  lemma {:induction false} QueuedAtTheQuit(log: seq<Line>, arrivals: seq<Window>) returns (run: seq<State>, n: nat)
    requires IsLog(log) && AreArrivals(log, arrivals) && |arrivals| <= 100
    ensures IsRun(run) && NoneTooOld(run) && n < |run|
    ensures run[n].processor == Clearing && run[n].slices == SlicesOf(log, arrivals)
    ensures
      var end := run[|run| - 1];
      end.cleaner == CleanedUp && end.pushed == SlicesOf(log, arrivals) && end.written == Pick(log, AsSet(arrivals), 0, |log|)
  {
    var slices := SlicesOf(log, arrivals);
    var queued := QueueUp(slices, |slices|);
    assert slices[..|slices|] == slices;
    var quit := QuitOnQueue(queued, slices);
    n := |quit| - 1;
    run := CleanUpCanReturn(log, quit, arrivals);
    assert run[n] == quit[n];
  }

  /** Lines are sent one by one while the writer does nothing. */
  lemma {:induction false} SendsUpTo(run: seq<State>, n: nat) returns (longer: seq<State>)
    requires IsRun(run) && NoneTooOld(run)
    requires var s := run[|run| - 1]; s.processor.SendingLast? && |s.lines| <= n <= 1000 && n - |s.lines| <= |s.processor.rest|
    ensures IsRun(longer) && NoneTooOld(longer)
    ensures |longer[|longer| - 1].lines| == n && longer[|longer| - 1].pushed == run[|run| - 1].pushed
    decreases n - |run[|run| - 1].lines|
  {
    var s := run[|run| - 1];
    longer := run;
    if |s.lines| < n {
      var rest := s.processor.rest;
      var t := s.(lines := s.lines + [rest[0]], processor := SendingLast(rest[1..]));
      assert SendLine(s, t);
      RunGoesOn(run, t);
      longer := SendsUpTo(run + [t], n);
    }
  }

  lemma {:induction false} LastLines(log: seq<Line>, run: seq<State>, arrivals: seq<Window>) returns (longer: seq<State>)
    requires IsLog(log) && AreArrivals(log, arrivals) && IsRun(run) && NoneTooOld(run)
    requires run[|run| - 1] == Queued(SlicesOf(log, arrivals)).(wg := 1, processor := Clearing, cleaner := Waiting)
    requires QueuedInTime(run[|run| - 1])
    ensures IsRun(longer) && NoneTooOld(longer)
    ensures
      var s := longer[|longer| - 1];
      && s.processor == SendingLast(Pick(log, AsSet(arrivals), 0, |log|)) && s.lines == [] && s.pushed == SlicesOf(log, arrivals)
  {
    ReachedCanClose(log, run, arrivals);
    var cleared := TakesRest(log, run, arrivals);
    var s := cleared[|cleared| - 1];
    ReachedCanClose(log, cleared, arrivals);
    var t := FlushRest(log, s, AsSet(arrivals));
    RunGoesOn(cleared, t);
    longer := cleared + [t];
    LogPipeline.InvRun(longer, |longer| - 1);
    OutputRun(log, longer, arrivals, |longer| - 1);
    assert arrivals[..|arrivals|] == arrivals;
    assert t.emitted == t.processor.rest;
  }

  lemma {:induction false} TakesRest(log: seq<Line>, run: seq<State>, arrivals: seq<Window>) returns (longer: seq<State>)
    requires IsRun(run) && NoneTooOld(run) && CanClose(log, run[|run| - 1], arrivals) && QueuedInTime(run[|run| - 1])
    requires run[|run| - 1].processor == Clearing
    ensures IsRun(longer) && NoneTooOld(longer)
    ensures
      var (s, t) := (run[|run| - 1], longer[|longer| - 1]);
      t == s.(slices := [], gens := t.gens, added := t.added)
    decreases |run[|run| - 1].slices|
  {
    var s := run[|run| - 1];
    longer := run;
    if s.slices != [] {
      var t := TakeSlice(log, s, arrivals);
      RunGoesOn(run, t);
      longer := TakesRest(log, run + [t], arrivals);
    }
  }

  /** When the windows cover a thousand lines, the channel of lines can fill up with a thousand of them. */
  lemma {:induction false} LineChannelFills(log: seq<Line>, arrivals: seq<Window>) returns (run: seq<State>)
    requires IsLog(log) && AreArrivals(log, arrivals) && |arrivals| <= 100
    requires |Pick(log, AsSet(arrivals), 0, |log|)| >= 1000
    ensures IsRun(run) && NoneTooOld(run) && |run[|run| - 1].lines| == 1000
    ensures run[|run| - 1].pushed == SlicesOf(log, arrivals)
  {
    var slices := SlicesOf(log, arrivals);
    var queued := QueueUp(slices, |slices|);
    assert slices[..|slices|] == slices;
    var quit := QuitOnQueue(queued, slices);
    var last := LastLines(log, quit, arrivals);
    run := SendsUpTo(last, 1000);
  }

  /** Every slice was taken as soon as it was pushed. */
  ghost predicate IsTaken(s: State, slices: seq<LineSlice>) {
    && s.polls == 0 && s.slices == [] && s.processor == Selecting && s.cleaner == NotCalled
    && s.pushed == slices && s.added == slices && s.gens.oldest == 0
  }

  lemma {:induction false} TakeNext(run: seq<State>, slices: seq<LineSlice>, slice: LineSlice) returns (longer: seq<State>)
    requires IsRun(run) && NoneTooOld(run) && IsTaken(run[|run| - 1], slices)
    ensures IsRun(longer) && NoneTooOld(longer) && IsTaken(longer[|longer| - 1], slices + [slice])
  {
    var pushed := PollPushes(run, slice);
    var s := pushed[|pushed| - 1];
    assert s.slices == [slice];
    var t := s.(slices := s.slices[1..], gens := s.gens.Added(slice), added := s.added + [slice]);
    assert AddSlice(s, t);
    RunGoesOn(pushed, t);
    longer := pushed + [t];
  }

  lemma {:induction false} TakeAll(slices: seq<LineSlice>, n: nat) returns (run: seq<State>)
    requires n <= |slices|
    ensures IsRun(run) && NoneTooOld(run) && IsTaken(run[|run| - 1], slices[..n])
  {
    if n == 0 {
      var s := Queued([]);
      var t := s.(wg := 1, processor := Selecting);
      assert ProcessorStart(s, t);
      RunGoesOn([s], t);
      run := [s] + [t];
    } else {
      var before := TakeAll(slices, n - 1);
      run := TakeNext(before, slices[..n - 1], slices[n - 1]);
      assert slices[..n] == slices[..n - 1] + [slices[n - 1]];
    }
  }

  /** For any number of windows there is a run that pushes them and ends with all they cover in the file. */
  lemma {:induction false} EveryArrivalHasARun(log: seq<Line>, arrivals: seq<Window>) returns (run: seq<State>)
    requires IsLog(log) && AreArrivals(log, arrivals)
    ensures IsRun(run) && NoneTooOld(run)
    ensures
      var end := run[|run| - 1];
      end.cleaner == CleanedUp && end.pushed == SlicesOf(log, arrivals) && end.written == Pick(log, AsSet(arrivals), 0, |log|)
  {
    var slices := SlicesOf(log, arrivals);
    var taken := TakeAll(slices, |slices|);
    assert slices[..|slices|] == slices;
    run := CleanUpCanReturn(log, taken, arrivals);
  }

  /** Whenever the processor selects and a flush is due, it can be made. */
  lemma {:induction false} DueFlushIsPossible(log: seq<Line>, run: seq<State>, arrivals: seq<Window>, n: nat) returns (s': State)
    requires IsLog(log) && AreArrivals(log, arrivals) && IsRun(run) && NoneTooOld(run) && n < |run|
    requires run[|run| - 1].pushed == SlicesOf(log, arrivals)
    requires run[n].processor == Selecting && run[n].gens.ShouldFlush()
    ensures FlushDue(run[n], s')
  {
    var s := run[n];
    var g', r := FlushExists(s.gens);
    NoFlushPanics(log, run, arrivals, n, g', r);
    s' := s.(gens := g', processor := Sending(r.value.lines), emitted := s.emitted + r.value.lines);
    assert FlushGives(s, s', r);
  }
}
