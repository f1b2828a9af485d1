/** The collection runner as atomic steps: its main loop, one poller per collector, and the
    polls in flight (collection_tools/pkg/runner/runner.go, collection_tools/pkg/utils/utils.go). */
module Runner {

  const MAX_RUNNING_POLLS := 3
  const POLL_RESULTS_QUEUE_SIZE := 10

  type Name = string

  /** A wait group with a readable count. Add raises the count before the group, and Done
      lowers the count before the group; Wait returns when the group is at 0. */
  datatype WaitGroupCount = WaitGroupCount(count: int, group: int)

  /** Where a collector's poller is, from its set-up in start to the end of its goroutine. */
  datatype Pc =
    | NotStarted
    | CountAdded        // start is in wg.Add
    | Spawning          // start is about to run the goroutine
    | AtLoop            // evaluates shouldKeepPolling
    | AtLimit           // compares the running polls with the maximum
    | InWait            // waits for the running polls before polling on
    | AtSelect          // the select on the quit channel
    | AddingPoll        // in runningPolls.Add, the count raised
    | StartingPoll      // about to run Poll
    | FinalWait         // waits for the running polls before it returns
    | Leaving           // about to run the deferred wg.Done
    | CountedOff        // in wg.Done, the count lowered
    | Finished

  /** `working` polls are in Poll; `ending` ones are in their deferred Done, the count lowered.
      `quit` is the number of signals in the quit channel, `killed` whether one was received. */
  datatype Collector = Collector(pc: Pc, working: nat, ending: nat, running: WaitGroupCount, quit: nat, killed: bool)

  datatype Main =
    | StartingCollector(next: nat)
    | ReadingCollectors
    | ReadingAnnouncers(collectors: int)
    | Selecting
    | Forwarding(left: set<Name>)
    | WaitingForCollectors
    | WaitingForAnnouncers
    | ReportingError
    | CleaningUp(left: set<Name>)
    | CleanedUp

  /** `order` is the order in which start sets up the collectors. */
  datatype State = State(
    order: seq<Name>,
    announcers: set<Name>,
    collectors: map<Name, Collector>,
    collectorsWG: WaitGroupCount,
    announcersWG: WaitGroupCount,
    results: nat,
    errored: nat,
    main: Main)

  const IDLE := Collector(NotStarted, 0, 0, WaitGroupCount(0, 0), 0, false)

  /** start lists all other collectors before the announcers. */
  ghost predicate IsStartOrder(order: seq<Name>, announcers: set<Name>) {
    && (forall i, j :: 0 <= i < j < |order| ==> order[i] != order[j])
    && (forall i, j :: 0 <= i < j < |order| && order[i] in announcers ==> order[j] in announcers)
  }

  ghost predicate OnlyAnnouncers(s: State) {
    forall c :: c in s.order ==> c in s.announcers
  }

  ghost predicate Init(s: State) {
    && IsStartOrder(s.order, s.announcers)
    && s.collectors == (map c | c in s.order :: IDLE)
    && s == State(s.order, s.announcers, s.collectors, WaitGroupCount(0, 0), WaitGroupCount(0, 0), 0, 0, StartingCollector(0))
  }

  ghost function Wg(s: State, c: Name): WaitGroupCount {
    if c in s.announcers then s.announcersWG else s.collectorsWG
  }

  /** The state with collector c and its wait group changed. */
  ghost function With(s: State, c: Name, k: Collector, wg: WaitGroupCount): State {
    var t := s.(collectors := s.collectors[c := k]);
    if c in s.announcers then t.(announcersWG := wg) else t.(collectorsWG := wg)
  }

  // ---- start

  ghost predicate StartStep(s: State, s': State) {
    && s.main.StartingCollector?
    && if s.main.next >= |s.order| then s' == s.(main := ReadingCollectors)
       else
         var c := s.order[s.main.next];
         && c in s.collectors
         && var (k, wg) := (s.collectors[c], Wg(s, c));
            || (k.pc == NotStarted && s' == With(s, c, k.(pc := CountAdded), wg.(count := wg.count + 1)))
            || (k.pc == CountAdded && s' == With(s, c, k.(pc := Spawning), wg.(group := wg.group + 1)))
            || (k.pc == Spawning
                && s' == With(s, c, k.(pc := AtLoop), wg).(main := StartingCollector(s.main.next + 1)))
  }

  // ---- A poller

  /** For an announcer among others: are any other pollers left? Otherwise the clock decides. */
  ghost predicate KeepPolling(s: State, c: Name, keep: bool) {
    c in s.announcers && !OnlyAnnouncers(s) ==> keep == (s.collectorsWG.count > 0)
  }

  /** One step of the poller of collector k, from `pc` to `pc'`; wg and wg' are its wait group. */
  ghost predicate PollerMove(s: State, c: Name, k: Collector, k': Collector, wg: WaitGroupCount, wg': WaitGroupCount) {
    match k.pc
    case AtLoop =>
      wg' == wg && exists keep ::
        KeepPolling(s, c, keep) && k' == k.(pc := if keep then AtLimit else FinalWait)
    case AtLimit =>
      wg' == wg && k' == k.(pc := if k.running.count >= MAX_RUNNING_POLLS then InWait else AtSelect)
    case InWait =>
      wg' == wg && k.running.group == 0 && k' == k.(pc := AtSelect)
    case AtSelect =>
      wg' == wg &&
      (if k.quit > 0 then k' == k.(pc := FinalWait, quit := k.quit - 1, killed := true)
       else  // the poll interval has passed, or not
         || k' == k.(pc := AddingPoll, running := k.running.(count := k.running.count + 1))
         || k' == k.(pc := AtLoop))
    case AddingPoll =>
      wg' == wg && k' == k.(pc := StartingPoll, running := k.running.(group := k.running.group + 1))
    case StartingPoll =>
      wg' == wg && k' == k.(pc := AtLoop, working := k.working + 1)
    case FinalWait =>
      wg' == wg && k.running.group == 0 && k' == k.(pc := Leaving)
    case Leaving =>
      wg' == wg.(count := wg.count - 1) && k' == k.(pc := CountedOff)
    case CountedOff =>
      wg' == wg.(group := wg.group - 1) && k' == k.(pc := Finished)
    case _ => false
  }

  ghost predicate PollerStep(s: State, s': State, c: Name) {
    c in s.collectors &&
    exists k', wg' :: PollerMove(s, c, s.collectors[c], k', Wg(s, c), wg') && s' == With(s, c, k', wg')
  }

  // ---- A poll in flight

  /** Poll puts its result in the queue, and its deferred Done lowers the count. */
  ghost predicate PollEnds(s: State, s': State, c: Name) {
    && c in s.collectors && s.collectors[c].working > 0 && s.results < POLL_RESULTS_QUEUE_SIZE
    && var k := s.collectors[c];
       s' == s.(results := s.results + 1,
                collectors := s.collectors[c := k.(working := k.working - 1, ending := k.ending + 1,
                                                   running := k.running.(count := k.running.count - 1))])
  }

  ghost predicate PollGone(s: State, s': State, c: Name) {
    && c in s.collectors && s.collectors[c].ending > 0
    && var k := s.collectors[c];
       s' == s.(collectors := s.collectors[c := k.(ending := k.ending - 1,
                                                   running := k.running.(group := k.running.group - 1))])
  }

  // ---- The main loop

  ghost predicate MainStep(s: State, s': State) {
    match s.main
    case ReadingCollectors => s' == s.(main := ReadingAnnouncers(s.collectorsWG.count))
    case ReadingAnnouncers(collectors) =>
      s' == s.(main := if collectors + s.announcersWG.count > 0 then Selecting else CleaningUp(s.collectors.Keys))
    case Selecting =>
      || s' == s.(main := Forwarding(s.collectors.Keys))
      || (s.results > 0 && s' == s.(results := s.results - 1, main := ReadingCollectors))
      || (s.results > 0 && s' == s.(results := s.results - 1, main := ReportingError))
      || s' == s.(main := ReadingCollectors)
    case ReportingError =>
      s.errored < POLL_RESULTS_QUEUE_SIZE && s' == s.(errored := s.errored + 1, main := ReadingCollectors)
    case Forwarding(left) =>
      if left == {} then s' == s.(main := WaitingForCollectors)
      else exists c :: c in left && c in s.collectors && s.collectors[c].quit == 0 &&
             s' == s.(collectors := s.collectors[c := s.collectors[c].(quit := 1)], main := Forwarding(left - {c}))
    case WaitingForCollectors => s.collectorsWG.group == 0 && s' == s.(main := WaitingForAnnouncers)
    case WaitingForAnnouncers => s.announcersWG.group == 0 && s' == s.(main := ReadingCollectors)
    case CleaningUp(left) =>
      if left == {} then s' == s.(main := CleanedUp) else exists c :: c in left && s' == s.(main := CleaningUp(left - {c}))
    case _ => false
  }

  ghost predicate Next(s: State, s': State) {
    || StartStep(s, s')
    || MainStep(s, s')
    || exists c :: PollerStep(s, s', c) || PollEnds(s, s', c) || PollGone(s, s', c)
  }

  ghost predicate IsRun(run: seq<State>) {
    && run != [] && Init(run[0])
    && forall i :: 0 <= i < |run| - 1 ==> Next(run[i], run[i + 1])
  }

  // ---- What every reachable state keeps: one collector

  ghost predicate BeforeStart(pc: Pc) {
    pc.NotStarted? || pc.CountAdded? || pc.Spawning?
  }

  ghost predicate Over(pc: Pc) {
    pc.CountedOff? || pc.Finished?
  }

  /** The poller is a member of its wait group's count. */
  ghost predicate Counted(pc: Pc) {
    !pc.NotStarted? && !Over(pc)
  }

  ghost predicate CollectorInv(k: Collector) {
    && k.running.count == k.working + (if k.pc.AddingPoll? || k.pc.StartingPoll? then 1 else 0)
    && k.running.group == k.working + k.ending + (if k.pc.StartingPoll? then 1 else 0)
    && k.running.count <= MAX_RUNNING_POLLS
    && (k.pc.AtSelect? ==> k.running.count < MAX_RUNNING_POLLS)
    && (BeforeStart(k.pc) || k.pc.Leaving? || Over(k.pc) ==> k.working == 0 && k.ending == 0)
  }

  lemma {:induction false} PollerKeepsCollector(s: State, c: Name, k: Collector, k': Collector, wg: WaitGroupCount, wg': WaitGroupCount)
    requires CollectorInv(k) && PollerMove(s, c, k, k', wg, wg')
    ensures CollectorInv(k')
    ensures !BeforeStart(k.pc) && !BeforeStart(k'.pc)
    ensures Over(k.pc) ==> Over(k'.pc)
    ensures wg'.count == wg.count + (if Counted(k'.pc) then 1 else 0) - (if Counted(k.pc) then 1 else 0)
  {
  }

  // ---- What every reachable state keeps: the wait groups' counts

  ghost function Members(s: State, announcers: bool): set<Name> {
    set c | c in s.collectors && (c in s.announcers) == announcers && Counted(s.collectors[c].pc)
  }

  ghost predicate CountsMembers(s: State) {
    s.collectorsWG.count == |Members(s, false)| && s.announcersWG.count == |Members(s, true)|
  }

  lemma {:induction false} MembersWith(s: State, c: Name, k: Collector, a: bool)
    requires c in s.collectors
    ensures
      var s' := s.(collectors := s.collectors[c := k]);
      |Members(s', a)| == |Members(s, a)| +
        (if (c in s.announcers) != a then 0
         else (if Counted(k.pc) then 1 else 0) - (if Counted(s.collectors[c].pc) then 1 else 0))
  {
    var s' := s.(collectors := s.collectors[c := k]);
    var rest := Members(s, a) - {c};
    assert Members(s', a) - {c} == rest;
    SetWithout(Members(s, a), c);
    SetWithout(Members(s', a), c);
  }

  lemma {:induction false} SetWithout(members: set<Name>, c: Name)
    ensures |members| == |members - {c}| + (if c in members then 1 else 0)
  {
    if c in members {
      assert members == (members - {c}) + {c};
    } else {
      assert members == members - {c};
    }
  }

  lemma {:induction false} CountsWith(s: State, c: Name, k: Collector, wg: WaitGroupCount)
    requires CountsMembers(s) && c in s.collectors
    requires wg.count == Wg(s, c).count + (if Counted(k.pc) then 1 else 0) - (if Counted(s.collectors[c].pc) then 1 else 0)
    ensures CountsMembers(With(s, c, k, wg))
  {
    MembersWith(s, c, k, false);
    MembersWith(s, c, k, true);
    var t := s.(collectors := s.collectors[c := k]);
    assert Members(With(s, c, k, wg), false) == Members(t, false);
    assert Members(With(s, c, k, wg), true) == Members(t, true);
  }

  /** A count of 0 means that no poller of the group is between its Add and its Done. */
  lemma {:induction false} NoMembers(s: State, c: Name)
    requires CountsMembers(s) && c in s.collectors && Wg(s, c).count <= 0
    ensures !Counted(s.collectors[c].pc)
  {
    var members := Members(s, c in s.announcers);
    assert members == {};
    assert Counted(s.collectors[c].pc) ==> c in members;
  }

  // ---- What every reachable state keeps: the main loop and the announcers

  /** start has set up the collectors before the current one and none of those after it. */
  ghost predicate StartedInOrder(s: State) {
    forall i :: 0 <= i < |s.order| ==> s.order[i] in s.collectors && StartedUpTo(s.main, i, s.collectors[s.order[i]].pc)
  }

  ghost predicate StartedUpTo(main: Main, i: nat, pc: Pc) {
    if main.StartingCollector? && i > main.next then pc == NotStarted
    else if main.StartingCollector? && i == main.next then BeforeStart(pc)
    else !BeforeStart(pc)
  }

  ghost predicate AllOver(s: State, announcers: bool) {
    forall c :: c in s.collectors && (c in s.announcers) == announcers ==> Over(s.collectors[c].pc)
  }

  ghost predicate MainInv(s: State) {
    match s.main
    case ReadingAnnouncers(collectors) => collectors >= s.collectorsWG.count
    case CleaningUp(_) => AllOver(s, false) && AllOver(s, true)
    case CleanedUp => AllOver(s, false) && AllOver(s, true)
    case _ => true
  }

  /** An announcer that has left its loop without a signal has outlasted all other pollers. */
  ghost predicate AnnouncerInv(s: State) {
    forall c :: c in s.collectors && c in s.announcers && HasLeft(s.collectors[c]) && !OnlyAnnouncers(s) ==> AllOver(s, false)
  }

  ghost predicate HasLeft(k: Collector) {
    !k.killed && (k.pc.FinalWait? || k.pc.Leaving? || Over(k.pc))
  }

  ghost predicate CollectorsInv(s: State) {
    && (forall c :: c in s.collectors <==> c in s.order)
    && (forall c :: c in s.collectors ==> CollectorInv(s.collectors[c]))
  }

  ghost predicate Inv(s: State) {
    && IsStartOrder(s.order, s.announcers)
    && CollectorsInv(s)
    && CountsMembers(s)
    && StartedInOrder(s)
    && MainInv(s)
    && AnnouncerInv(s)
  }

  lemma {:induction false} InvInit(s: State)
    requires Init(s)
    ensures Inv(s)
  {
    assert Members(s, false) == {} && Members(s, true) == {};
  }

  /** Others' progress does not undo what is over. */
  lemma {:induction false} OverWith(s: State, c: Name, k: Collector, wg: WaitGroupCount, a: bool)
    requires c in s.collectors && (Over(s.collectors[c].pc) ==> Over(k.pc))
    ensures AllOver(s, a) ==> AllOver(With(s, c, k, wg), a)
  {
  }

  lemma {:induction false} OthersAreOver(s: State, c: Name)
    requires Inv(s) && c in s.collectors && c in s.announcers && !BeforeStart(s.collectors[c].pc)
    requires s.collectorsWG.count <= 0
    ensures AllOver(s, false)
  {
    var i :| 0 <= i < |s.order| && s.order[i] == c;
    forall d | d in s.collectors && d !in s.announcers
      ensures Over(s.collectors[d].pc)
    {
      var j :| 0 <= j < |s.order| && s.order[j] == d;
      assert j < i;
      assert StartedUpTo(s.main, i, s.collectors[s.order[i]].pc) && StartedUpTo(s.main, j, s.collectors[s.order[j]].pc);
      NoMembers(s, d);
    }
  }

  // ---- Every step keeps the invariant

  /** A change of one collector, seen by the others and by the main loop. */
  lemma {:induction false} InvWith(s: State, c: Name, k: Collector, wg: WaitGroupCount)
    requires Inv(s) && c in s.collectors && CollectorInv(k)
    requires !BeforeStart(s.collectors[c].pc) && !BeforeStart(k.pc)
    requires Over(s.collectors[c].pc) ==> Over(k.pc)
    requires wg.count == Wg(s, c).count + (if Counted(k.pc) then 1 else 0) - (if Counted(s.collectors[c].pc) then 1 else 0)
    requires c in s.announcers && HasLeft(k) && !HasLeft(s.collectors[c]) && !OnlyAnnouncers(s) ==> AllOver(s, false)
    ensures Inv(With(s, c, k, wg))
  {
    var s' := With(s, c, k, wg);
    CollectorsWith(s, s', c, k);
    CountsWith(s, c, k, wg);
    OverWith(s, c, k, wg, false);
    OverWith(s, c, k, wg, true);
    AnnouncersWith(s, s', c, k);
    StartedWith(s, c, k, wg);
  }

  lemma {:induction false} CollectorsWith(s: State, s': State, c: Name, k: Collector)
    requires CollectorsInv(s) && c in s.collectors && CollectorInv(k)
    requires s'.order == s.order && s'.collectors == s.collectors[c := k]
    ensures CollectorsInv(s')
  {
  }

  lemma {:induction false} AnnouncersWith(s: State, s': State, c: Name, k: Collector)
    requires AnnouncerInv(s) && s'.order == s.order && s'.announcers == s.announcers
    requires c in s.collectors && s'.collectors == s.collectors[c := k]
    requires c in s.announcers && HasLeft(k) && !HasLeft(s.collectors[c]) && !OnlyAnnouncers(s) ==> AllOver(s, false)
    requires AllOver(s, false) ==> AllOver(s', false)
    ensures AnnouncerInv(s')
  {
    forall d | d in s'.collectors && d in s'.announcers && HasLeft(s'.collectors[d]) && !OnlyAnnouncers(s')
      ensures AllOver(s', false)
    {
      assert d != c ==> HasLeft(s.collectors[d]);
    }
  }

  lemma {:induction false} StartedWith(s: State, c: Name, k: Collector, wg: WaitGroupCount)
    requires StartedInOrder(s) && c in s.collectors
    requires !BeforeStart(s.collectors[c].pc) && !BeforeStart(k.pc)
    ensures StartedInOrder(With(s, c, k, wg))
  {
    var s' := With(s, c, k, wg);
    forall i | 0 <= i < |s'.order|
      ensures s'.order[i] in s'.collectors && StartedUpTo(s'.main, i, s'.collectors[s'.order[i]].pc)
    {
      assert StartedUpTo(s.main, i, s.collectors[s.order[i]].pc);
    }
  }

  lemma {:induction false} InvPoller(s: State, s': State, c: Name)
    requires Inv(s) && PollerStep(s, s', c)
    ensures Inv(s')
  {
    var k := s.collectors[c];
    var k', wg' :| PollerMove(s, c, k, k', Wg(s, c), wg') && s' == With(s, c, k', wg');
    PollerKeepsCollector(s, c, k, k', Wg(s, c), wg');
    if c in s.announcers && HasLeft(k') && !HasLeft(k) && !OnlyAnnouncers(s) {
      OthersAreOver(s, c);
    }
    InvWith(s, c, k', wg');
  }

  lemma {:induction false} InvPoll(s: State, s': State, c: Name)
    requires Inv(s) && (PollEnds(s, s', c) || PollGone(s, s', c))
    ensures Inv(s')
  {
    var t := s.(results := s'.results);
    assert Members(t, false) == Members(s, false) && Members(t, true) == Members(s, true);
    assert Inv(t);
    InvWith(t, c, s'.collectors[c], Wg(t, c));
  }

  lemma {:induction false} InvStarting(s: State, s': State, c: Name, k: Collector, wg: WaitGroupCount)
    requires Inv(s) && s.main.StartingCollector? && s.main.next < |s.order| && c == s.order[s.main.next]
    requires BeforeStart(s.collectors[c].pc) && CollectorInv(k)
    requires wg.count == Wg(s, c).count + (if Counted(k.pc) then 1 else 0) - (if Counted(s.collectors[c].pc) then 1 else 0)
    requires
      || (BeforeStart(k.pc) && s' == With(s, c, k, wg))
      || (k.pc == AtLoop && s' == With(s, c, k, wg).(main := StartingCollector(s.main.next + 1)))
    ensures Inv(s')
  {
    CountsWith(s, c, k, wg);
    CollectorsWith(s, s', c, k);
    CountsIgnoreMain(With(s, c, k, wg), s'.main);
    StartedNext(s, s', c, k);
    AnnouncersStarting(s, s', c, k, wg);
  }

  lemma {:induction false} AnnouncersStarting(s: State, s': State, c: Name, k: Collector, wg: WaitGroupCount)
    requires AnnouncerInv(s) && c in s.collectors && BeforeStart(s.collectors[c].pc) && (BeforeStart(k.pc) || k.pc == AtLoop)
    requires s'.order == s.order && s'.announcers == s.announcers && s'.collectors == s.collectors[c := k]
    ensures AnnouncerInv(s')
  {
    OverWith(s, c, k, wg, false);
    AnnouncersWith(s, s', c, k);
  }

  lemma {:induction false} CountsIgnoreMain(s: State, main: Main)
    requires CountsMembers(s)
    ensures CountsMembers(s.(main := main))
  {
    var t := s.(main := main);
    assert Members(t, false) == Members(s, false) && Members(t, true) == Members(s, true);
  }

  lemma {:induction false} StartedNext(s: State, s': State, c: Name, k: Collector)
    requires IsStartOrder(s.order, s.announcers) && StartedInOrder(s)
    requires s.main.StartingCollector? && s.main.next < |s.order| && c == s.order[s.main.next]
    requires s'.order == s.order && s'.collectors == s.collectors[c := k]
    requires (BeforeStart(k.pc) && s'.main == s.main) || (k.pc == AtLoop && s'.main == StartingCollector(s.main.next + 1))
    ensures StartedInOrder(s')
  {
    forall i | 0 <= i < |s'.order|
      ensures s'.order[i] in s'.collectors && StartedUpTo(s'.main, i, s'.collectors[s'.order[i]].pc)
    {
      assert StartedUpTo(s.main, i, s.collectors[s.order[i]].pc);
    }
  }

  lemma {:induction false} InvStart(s: State, s': State)
    requires Inv(s) && StartStep(s, s')
    ensures Inv(s')
  {
    if s.main.next >= |s.order| {
      InvMainMoved(s, s');
    } else {
      var c := s.order[s.main.next];
      var k := s.collectors[c];
      assert StartedUpTo(s.main, s.main.next, k.pc);
      InvStarting(s, s', c, s'.collectors[c], Wg(s', c));
    }
  }

  /** The main loop moves on without touching collectors or wait groups. */
  lemma {:induction false} InvMainMoved(s: State, s': State)
    requires Inv(s)
    requires s' == s.(main := s'.main, results := s'.results, errored := s'.errored)
    requires !s'.main.StartingCollector? && (s.main.StartingCollector? ==> s.main.next >= |s.order|)
    requires MainInv(s')
    ensures Inv(s')
  {
    assert Members(s', false) == Members(s, false) && Members(s', true) == Members(s, true);
    forall i | 0 <= i < |s'.order|
      ensures s'.order[i] in s'.collectors && StartedUpTo(s'.main, i, s'.collectors[s'.order[i]].pc)
    {
      assert StartedUpTo(s.main, i, s.collectors[s.order[i]].pc);
    }
    assert AllOver(s', false) == AllOver(s, false);
    forall d | d in s'.collectors && d in s'.announcers && HasLeft(s'.collectors[d]) && !OnlyAnnouncers(s')
      ensures AllOver(s', false)
    {
      assert HasLeft(s.collectors[d]);
    }
  }

  /** Both counts read as 0: every poller is over. */
  lemma {:induction false} AllPollersOver(s: State)
    requires Inv(s) && !s.main.StartingCollector? && s.collectorsWG.count <= 0 && s.announcersWG.count <= 0
    ensures AllOver(s, false) && AllOver(s, true)
  {
    forall c | c in s.collectors
      ensures Over(s.collectors[c].pc)
    {
      NoMembers(s, c);
      var i :| 0 <= i < |s.order| && s.order[i] == c;
      assert StartedUpTo(s.main, i, s.collectors[s.order[i]].pc);
    }
  }

  lemma {:induction false} InvForward(s: State, s': State, c: Name, left: set<Name>)
    requires Inv(s) && s.main.Forwarding? && c in s.collectors
    requires s' == s.(collectors := s.collectors[c := s.collectors[c].(quit := 1)], main := Forwarding(left))
    ensures Inv(s')
  {
    var i :| 0 <= i < |s.order| && s.order[i] == c;
    assert StartedUpTo(s.main, i, s.collectors[s.order[i]].pc);
    InvWith(s, c, s.collectors[c].(quit := 1), Wg(s, c));
    InvMainMoved(With(s, c, s.collectors[c].(quit := 1), Wg(s, c)), s');
  }

  lemma {:induction false} CountsAreNatural(s: State)
    requires CountsMembers(s)
    ensures s.collectorsWG.count >= 0 && s.announcersWG.count >= 0
  {
  }

  lemma {:induction false} InvMain(s: State, s': State)
    requires Inv(s) && MainStep(s, s')
    ensures Inv(s')
  {
    CountsAreNatural(s);
    match s.main {
      case Forwarding(left) =>
        if left == {} {
          InvMainMoved(s, s');
        } else {
          var c :| c in left && c in s.collectors && s.collectors[c].quit == 0 &&
            s' == s.(collectors := s.collectors[c := s.collectors[c].(quit := 1)], main := Forwarding(left - {c}));
          InvForward(s, s', c, left - {c});
        }
      case ReadingAnnouncers(collectors) =>
        if s'.main.CleaningUp? {
          AllPollersOver(s);
        }
        InvMainMoved(s, s');
      case _ =>
        InvMainMoved(s, s');
    }
  }

  lemma {:induction false} InvNext(s: State, s': State)
    requires Inv(s) && Next(s, s')
    ensures Inv(s')
  {
    if StartStep(s, s') {
      InvStart(s, s');
    } else if MainStep(s, s') {
      InvMain(s, s');
    } else {
      var c :| PollerStep(s, s', c) || PollEnds(s, s', c) || PollGone(s, s', c);
      if PollerStep(s, s', c) {
        InvPoller(s, s', c);
      } else {
        InvPoll(s, s', c);
      }
    }
  }

  lemma {:induction false} InvRun(run: seq<State>, n: nat)
    requires IsRun(run) && n < |run|
    ensures Inv(run[n])
    decreases n
  {
    if n == 0 {
      InvInit(run[0]);
    } else {
      InvRun(run, n - 1);
      assert Next(run[n - 1], run[n - 1 + 1]);
      InvNext(run[n - 1], run[n]);
    }
  }

  // ---- The theorems

  /** In every reachable state each collector has at most three polls in flight. */
  lemma {:induction false} AtMostThreePolls(run: seq<State>, c: Name)
    requires IsRun(run) && c in run[|run| - 1].collectors
    ensures run[|run| - 1].collectors[c].working <= MAX_RUNNING_POLLS
  {
    InvRun(run, |run| - 1);
    assert CollectorInv(run[|run| - 1].collectors[c]);
  }

  /** From the moment cleanUpAll starts, no poll of any collector is in flight, and none will be. */
  lemma {:induction false} CleanUpOnlyWhenIdle(run: seq<State>, c: Name)
    requires IsRun(run) && c in run[|run| - 1].collectors
    requires run[|run| - 1].main.CleaningUp? || run[|run| - 1].main.CleanedUp?
    ensures
      var k := run[|run| - 1].collectors[c];
      k.working == 0 && k.ending == 0 && Over(k.pc)
  {
    InvRun(run, |run| - 1);
    assert CollectorInv(run[|run| - 1].collectors[c]);
  }

  /** Among other collectors, an announcer whose loop ended without a signal has seen all of
      them end: their pollers are over and have no poll in flight. */
  lemma {:induction false} AnnouncersOutlastCollectors(run: seq<State>, a: Name, c: Name)
    requires IsRun(run)
    requires
      var s := run[|run| - 1];
      && a in s.collectors && a in s.announcers && HasLeft(s.collectors[a])
      && c in s.collectors && c !in s.announcers
    ensures
      var k := run[|run| - 1].collectors[c];
      Over(k.pc) && k.working == 0 && k.ending == 0
  {
    var s := run[|run| - 1];
    InvRun(run, |run| - 1);
    assert !OnlyAnnouncers(s) by {
      assert c in s.order;
    }
    assert AllOver(s, false);
    assert CollectorInv(s.collectors[c]);
  }
}
