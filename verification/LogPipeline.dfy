/** The log collector's goroutines as atomic steps: polls, the slice processor, the file writer
    and CleanUp, joined by two bounded channels, two unbuffered quit channels and a wait group
    (collection_tools/pkg/collectors/log_follower.go). */
module LogPipeline {
  import opened LogLines
  import opened Outcomes
  import opened LogGenerations

  const SLICE_CHANNEL_LENGTH := 100
  const LINE_CHANNEL_LENGTH := 1000

  /** Where processSlices is. `rest` are the lines of a flush that are still to be sent. */
  datatype Processor =
    | Starting
    | Selecting
    | Sending(rest: seq<Line>)
    | Clearing
    | SendingLast(rest: seq<Line>)
    | Signalling
    | Returning
    | Returned

  /** Where writeToLogFile is. */
  datatype Writer = WriterStarting | WriterSelecting | WriterDraining | WriterReturning | WriterReturned

  /** Where CleanUp is: not called, sending on sliceQuit, in wg.Wait, returned. */
  datatype Cleaner = NotCalled | Quitting | Waiting | CleanedUp

  /** The channels and the file hold values; `pushed`, `added` and `emitted` record what the
      polls pushed, what was added to the generations, and what those gave back. */
  datatype State = State(
    polls: nat,
    slices: seq<LineSlice>,
    gens: Gens,
    lines: seq<Line>,
    written: seq<Line>,
    wg: int,
    processor: Processor,
    writer: Writer,
    cleaner: Cleaner,
    pushed: seq<LineSlice>,
    added: seq<LineSlice>,
    emitted: seq<Line>)

  ghost predicate Init(s: State) {
    s == State(0, [], NO_GENERATIONS, [], [], 0, Starting, WriterStarting, NotCalled, [], [], [])
  }

  // ---- The steps of the polls

  /** The runner polls only as long as it has not begun to clean up. */
  ghost predicate StartPoll(s: State, s': State) {
    s.cleaner == NotCalled && s' == s.(polls := s.polls + 1)
  }

  ghost predicate PushSlice(s: State, s': State) {
    s.polls > 0 && |s.slices| < SLICE_CHANNEL_LENGTH &&
    exists slice :: s' == s.(polls := s.polls - 1, slices := s.slices + [slice], pushed := s.pushed + [slice])
  }

  ghost predicate EndPollWithoutLines(s: State, s': State) {
    s.polls > 0 && s' == s.(polls := s.polls - 1)
  }

  // ---- The steps of processSlices

  ghost predicate ProcessorStart(s: State, s': State) {
    s.processor == Starting && s' == s.(wg := s.wg + 1, processor := Selecting)
  }

  ghost predicate AddSlice(s: State, s': State) {
    && s.processor in {Selecting, Clearing}
    && s.slices != []
    && s' == s.(slices := s.slices[1..], gens := s.gens.Added(s.slices[0]), added := s.added + [s.slices[0]])
  }

  /** The default branch of the select, when a flush is due. Meanwhile a slice may be pushed or
      CleanUp may begin. */
  ghost predicate FlushDue(s: State, s': State) {
    && s.processor == Selecting
    && s.gens.ShouldFlush()
    && exists r :: FlushGives(s, s', r)
  }

  ghost predicate FlushGives(s: State, s': State, r: Outcome<LineSlice>) {
    && FlushStep(s.gens, s'.gens, r)
    && r.Done?
    && s' == s.(gens := s'.gens, processor := Sending(r.value.lines), emitted := s.emitted + r.value.lines)
  }

  ghost predicate SendLine(s: State, s': State) {
    && (s.processor.Sending? || s.processor.SendingLast?) && s.processor.rest != []
    && |s.lines| < LINE_CHANNEL_LENGTH
    && s' == s.(lines := s.lines + [s.processor.rest[0]], processor := s.processor.(rest := s.processor.rest[1..]))
  }

  ghost predicate AllSent(s: State, s': State) {
    s.processor == Sending([]) && s' == s.(processor := Selecting)
  }

  /** Hand-over on the unbuffered sliceQuit: CleanUp sends, the processor receives. */
  ghost predicate ReceiveQuit(s: State, s': State) {
    s.processor == Selecting && s.cleaner == Quitting && s' == s.(processor := Clearing, cleaner := Waiting)
  }

  ghost predicate FlushRemaining(s: State, s': State) {
    s.processor == Clearing && s.slices == [] && exists r :: FlushAllGives(s, s', r)
  }

  ghost predicate FlushAllGives(s: State, s': State, r: Outcome<LineSlice>) {
    && FlushAllResult(s.gens, r)
    && r.Done?
    && s' == s.(processor := SendingLast(r.value.lines), emitted := s.emitted + r.value.lines)
  }

  ghost predicate AllLastSent(s: State, s': State) {
    s.processor == SendingLast([]) && s' == s.(processor := Signalling)
  }

  /** Hand-over on the unbuffered writeQuit: the processor sends, the writer receives. */
  ghost predicate SignalWriter(s: State, s': State) {
    s.processor == Signalling && s.writer == WriterSelecting
    && s' == s.(processor := Returning, writer := WriterDraining)
  }

  ghost predicate ProcessorDone(s: State, s': State) {
    s.processor == Returning && s' == s.(wg := s.wg - 1, processor := Returned)
  }

  // ---- The steps of writeToLogFile

  ghost predicate WriterStart(s: State, s': State) {
    s.writer == WriterStarting && s' == s.(wg := s.wg + 1, writer := WriterSelecting)
  }

  ghost predicate WriteLine(s: State, s': State) {
    && s.writer in {WriterSelecting, WriterDraining}
    && s.lines != []
    && s' == s.(lines := s.lines[1..], written := s.written + [s.lines[0]])
  }

  ghost predicate AllWritten(s: State, s': State) {
    s.writer == WriterDraining && s.lines == [] && s' == s.(writer := WriterReturning)
  }

  ghost predicate WriterDone(s: State, s': State) {
    s.writer == WriterReturning && s' == s.(wg := s.wg - 1, writer := WriterReturned)
  }

  // ---- The steps of CleanUp

  /** The runner cleans up only when no poll is in flight. */
  ghost predicate CallCleanUp(s: State, s': State) {
    s.cleaner == NotCalled && s.polls == 0 && s' == s.(cleaner := Quitting)
  }

  ghost predicate WaitReturns(s: State, s': State) {
    s.cleaner == Waiting && s.wg == 0 && s' == s.(cleaner := CleanedUp)
  }

  ghost predicate PollStep(s: State, s': State) {
    StartPoll(s, s') || PushSlice(s, s') || EndPollWithoutLines(s, s')
  }

  ghost predicate HandOverStep(s: State, s': State) {
    || ProcessorStart(s, s') || AllSent(s, s') || ReceiveQuit(s, s')
    || AllLastSent(s, s') || SignalWriter(s, s') || ProcessorDone(s, s')
  }

  ghost predicate ProcessorStep(s: State, s': State) {
    AddSlice(s, s') || FlushDue(s, s') || FlushRemaining(s, s') || SendLine(s, s') || HandOverStep(s, s')
  }

  ghost predicate WriterStep(s: State, s': State) {
    WriterStart(s, s') || WriteLine(s, s') || AllWritten(s, s') || WriterDone(s, s')
  }

  ghost predicate CleanerStep(s: State, s': State) {
    CallCleanUp(s, s') || WaitReturns(s, s')
  }

  ghost predicate Next(s: State, s': State) {
    PollStep(s, s') || ProcessorStep(s, s') || WriterStep(s, s') || CleanerStep(s, s')
  }

  ghost predicate IsRun(run: seq<State>) {
    && run != [] && Init(run[0])
    && forall i :: 0 <= i < |run| - 1 ==> Next(run[i], run[i + 1])
  }

  // ---- What every reachable state keeps

  ghost function ToSend(p: Processor): seq<Line> {
    if p.Sending? || p.SendingLast? then p.rest else []
  }

  /** The goroutines that have added themselves to the wait group and not yet left it. */
  ghost function Members(s: State): int {
    (if s.processor.Starting? || s.processor.Returned? then 0 else 1)
    + (if s.writer.WriterStarting? || s.writer.WriterReturned? then 0 else 1)
  }

  ghost predicate HasQuit(p: Processor) {
    p.Clearing? || p.SendingLast? || p.Signalling? || p.Returning? || p.Returned?
  }

  ghost predicate HasSignalled(p: Processor) {
    p.Returning? || p.Returned?
  }

  ghost predicate Inv(s: State) {
    && s.written + s.lines + ToSend(s.processor) == s.emitted
    && s.added + s.slices == s.pushed
    && s.wg == Members(s)
    && |s.slices| <= SLICE_CHANNEL_LENGTH && |s.lines| <= LINE_CHANNEL_LENGTH
    && (s.cleaner != NotCalled ==> s.polls == 0)
    && (s.cleaner in {Waiting, CleanedUp} <==> HasQuit(s.processor))
    && (s.writer in {WriterDraining, WriterReturning, WriterReturned} <==> HasSignalled(s.processor))
    && (s.writer in {WriterReturning, WriterReturned} ==> s.lines == [])
    && (HasQuit(s.processor) && !s.processor.Clearing? ==> s.slices == [])
    && (s.cleaner == CleanedUp ==> s.processor == Returned && s.writer == WriterReturned)
  }

  lemma {:induction false} InvPolls(s: State, s': State)
    requires Inv(s) && PollStep(s, s')
    ensures Inv(s')
  {
    if PushSlice(s, s') {
      assert s.added + (s.slices + s'.pushed[|s.pushed|..]) == s'.pushed;
    }
  }

  lemma {:induction false} InvAddSlice(s: State, s': State)
    requires Inv(s) && AddSlice(s, s')
    ensures Inv(s')
  {
    assert s.slices == [s.slices[0]] + s.slices[1..];
  }

  lemma {:induction false} InvFlush(s: State, s': State, gens: Gens, lines: seq<Line>)
    requires Inv(s)
    requires
      || (s.processor == Selecting
          && s' == s.(gens := gens, processor := Sending(lines), emitted := s.emitted + lines))
      || (s.processor == Clearing && s.slices == [] && gens == s.gens
          && s' == s.(processor := SendingLast(lines), emitted := s.emitted + lines))
    ensures Inv(s')
  {
    assert s.written + s.lines + [] == s.written + s.lines;
  }

  lemma {:induction false} InvSendLine(s: State, s': State)
    requires Inv(s) && SendLine(s, s')
    ensures Inv(s')
  {
    var rest := s.processor.rest;
    assert rest == [rest[0]] + rest[1..];
    assert s.written + (s.lines + [rest[0]]) + rest[1..] == s.written + s.lines + rest;
  }

  lemma {:induction false} InvHandOver(s: State, s': State)
    requires Inv(s) && HandOverStep(s, s')
    ensures Inv(s')
  {
  }

  lemma {:induction false} InvProcessor(s: State, s': State)
    requires Inv(s) && ProcessorStep(s, s')
    ensures Inv(s')
  {
    if AddSlice(s, s') {
      InvAddSlice(s, s');
    } else if FlushDue(s, s') {
      var r :| FlushGives(s, s', r);
      InvFlush(s, s', s'.gens, r.value.lines);
    } else if FlushRemaining(s, s') {
      var r :| FlushAllGives(s, s', r);
      InvFlush(s, s', s.gens, r.value.lines);
    } else if SendLine(s, s') {
      InvSendLine(s, s');
    } else {
      InvHandOver(s, s');
    }
  }

  lemma {:induction false} InvWriter(s: State, s': State)
    requires Inv(s) && WriterStep(s, s')
    ensures Inv(s')
  {
    if WriteLine(s, s') {
      assert s.lines == [s.lines[0]] + s.lines[1..];
    }
  }

  lemma {:induction false} InvNext(s: State, s': State)
    requires Inv(s) && Next(s, s')
    ensures Inv(s')
  {
    if PollStep(s, s') {
      InvPolls(s, s');
    } else if ProcessorStep(s, s') {
      InvProcessor(s, s');
    } else if WriterStep(s, s') {
      InvWriter(s, s');
    }
  }

  lemma {:induction false} InvRun(run: seq<State>, n: nat)
    requires IsRun(run) && n < |run|
    ensures Inv(run[n])
    decreases n
  {
    if n > 0 {
      InvRun(run, n - 1);
      assert Next(run[n - 1], run[n - 1 + 1]);
      InvNext(run[n - 1], run[n]);
    }
  }

  /** In every interleaving: at any time, what is written, queued and still to be sent is what
      the generations emitted, and what they were given and what is queued is what was pushed.
      CleanUp returns only when all of it is in the file, although each goroutine joins the wait
      group by itself. */
  lemma {:induction false} LosslessShutdown(run: seq<State>)
    requires IsRun(run)
    ensures
      var s := run[|run| - 1];
      && s.written + s.lines + ToSend(s.processor) == s.emitted
      && s.added + s.slices == s.pushed
      && (s.cleaner == CleanedUp ==> s.written == s.emitted && s.added == s.pushed)
  {
    InvRun(run, |run| - 1);
  }
}
