/** That the runner comes to its end: when announcers leave, how every run can go on to clean-up, and
    what a signal stops (collection_tools/pkg/runner/runner.go). */
module RunnerShutdown {
  import opened Runner

  // ---- When an announcer leaves its loop

  /** No collector but announcers is between the Add and the Done of its poller. */
  ghost predicate OthersGone(s: State) {
    forall c :: c in s.collectors && c !in s.announcers ==> s.collectors[c].pc in {CountedOff, Finished}
  }

  lemma {:induction false} GoneMeansNoCount(s: State)
    requires Inv(s) && OthersGone(s)
    ensures s.collectorsWG.count == 0
  {
    assert Members(s, false) == {};
  }

  lemma {:induction false} CountIffOthers(s: State, a: Name)
    requires Inv(s) && a in s.collectors && a in s.announcers && !BeforeStart(s.collectors[a].pc)
    ensures s.collectorsWG.count > 0 <==> !OthersGone(s)
  {
    if s.collectorsWG.count <= 0 {
      OthersAreOver(s, a);
    }
    if OthersGone(s) {
      GoneMeansNoCount(s);
    }
  }

  /** Among others, an announcer at its loop leaves it if and only if all of the others are gone: then
      it can do nothing else, and otherwise it can do nothing but poll on. */
  lemma {:induction false} AnnouncerLeavesIff(run: seq<State>, a: Name)
    requires IsRun(run)
    requires
      var s := run[|run| - 1];
      a in s.collectors && a in s.announcers && !OnlyAnnouncers(s) && s.collectors[a].pc == AtLoop
    ensures
      var s := run[|run| - 1];
      && (exists s' :: PollerStep(s, s', a))
      && (forall s' :: PollerStep(s, s', a) ==>
            s'.collectors[a].pc == if OthersGone(s) then FinalWait else AtLimit)
  {
    var s := run[|run| - 1];
    InvRun(run, |run| - 1);
    CountIffOthers(s, a);
    var k := s.collectors[a];
    var keep := s.collectorsWG.count > 0;
    var s' := LoopStep(s, a, keep);
  }

  /** Keeping on or leaving, where the condition of the loop allows it. */
  lemma {:induction false} LoopStep(s: State, c: Name, keep: bool) returns (s': State)
    requires c in s.collectors && s.collectors[c].pc == AtLoop && KeepPolling(s, c, keep)
    ensures PollerStep(s, s', c) && s' == With(s, c, s.collectors[c].(pc := if keep then AtLimit else FinalWait), Wg(s, c))
  {
    var k := s.collectors[c];
    var k' := k.(pc := if keep then AtLimit else FinalWait);
    assert PollerMove(s, c, k, k', Wg(s, c), Wg(s, c));
    s' := With(s, c, k', Wg(s, c));
  }

  /** For all others, and for announcers among themselves, the clock decides: at any time they can stay
      or leave. */
  lemma {:induction false} ClockDecides(s: State, c: Name)
    requires c in s.collectors && s.collectors[c].pc == AtLoop && (c !in s.announcers || OnlyAnnouncers(s))
    ensures exists s' :: PollerStep(s, s', c) && s'.collectors[c].pc == AtLimit
    ensures exists s' :: PollerStep(s, s', c) && s'.collectors[c].pc == FinalWait
  {
    var stays := LoopStep(s, c, true);
    var leaves := LoopStep(s, c, false);
  }

  /** A poller that waits for its polls goes on if and only if none of them is at work or ending. */
  lemma {:induction false} PollerWaitsForPolls(run: seq<State>, c: Name)
    requires IsRun(run)
    requires
      var s := run[|run| - 1];
      c in s.collectors && s.collectors[c].pc in {InWait, FinalWait}
    ensures
      var s := run[|run| - 1];
      (exists s' :: PollerStep(s, s', c)) <==> s.collectors[c].working == 0 && s.collectors[c].ending == 0
  {
    var s := run[|run| - 1];
    InvRun(run, |run| - 1);
    var k := s.collectors[c];
    assert CollectorInv(k);
    if k.working == 0 && k.ending == 0 {
      var k' := k.(pc := if k.pc == InWait then AtSelect else Leaving);
      assert PollerMove(s, c, k, k', Wg(s, c), Wg(s, c));
      assert PollerStep(s, With(s, c, k', Wg(s, c)), c);
    }
  }

  // ---- Paths

  ghost predicate IsPath(path: seq<State>) {
    path != [] && forall i :: 0 <= i < |path| - 1 ==> Next(path[i], path[i + 1])
  }

  /** No signal is forwarded. */
  ghost predicate Unsignalled(path: seq<State>) {
    forall i :: 0 <= i < |path| ==> !path[i].main.Forwarding?
  }

  /** A path from s to t; a quiet one forwards no signal. */
  ghost predicate Leads(path: seq<State>, s: State, t: State, quiet: bool) {
    IsPath(path) && path[0] == s && path[|path| - 1] == t && (quiet ==> Unsignalled(path))
  }

  lemma {:induction false} Joins(p: seq<State>, q: seq<State>, s: State, t: State, u: State, quiet: bool) returns (path: seq<State>)
    requires Leads(p, s, t, quiet) && Leads(q, t, u, quiet)
    ensures Leads(path, s, u, quiet)
  {
    path := p + q[1..];
    forall i | 0 <= i < |path| - 1
      ensures Next(path[i], path[i + 1])
    {
      if i < |p| - 1 {
        assert path[i] == p[i] && path[i + 1] == p[i + 1];
      } else {
        var k := i - (|p| - 1);
        assert path[i] == q[k] && path[i + 1] == q[k + 1];
      }
    }
  }

  lemma {:induction false} StepAndOn(s: State, s': State, q: seq<State>, t: State) returns (path: seq<State>)
    requires !s.main.Forwarding? && Next(s, s') && Leads(q, s', t, true)
    ensures Leads(path, s, t, true)
  {
    path := Joins([s, s'], q, s, s', t, true);
  }

  // ---- One poller to its end

  /** The main loop is at work: it is not starting, has received no signal, and can report an error. */
  ghost predicate AtWork(s: State) {
    && Inv(s)
    && (s.main.ReadingCollectors? || s.main.ReadingAnnouncers? || s.main.Selecting?
        || (s.main.ReportingError? && s.errored < POLL_RESULTS_QUEUE_SIZE))
  }

  /** Nothing but collector c and the main loop changes. */
  ghost predicate OnlyChanges(s: State, s': State, c: Name) {
    && s'.order == s.order && s'.announcers == s.announcers && s'.collectors.Keys == s.collectors.Keys
    && forall d :: d in s.collectors && d != c ==> s'.collectors[d] == s.collectors[d]
  }

  ghost function PcRank(pc: Pc): nat {
    match pc
    case AddingPoll => 9
    case StartingPoll => 8
    case AtLimit => 7
    case InWait => 6
    case AtSelect => 5
    case AtLoop => 4
    case FinalWait => 3
    case Leaving => 2
    case _ => 1
  }

  ghost function MainRank(main: Main): nat {
    match main
    case ReportingError => 3
    case ReadingCollectors => 2
    case ReadingAnnouncers(_) => 1
    case _ => 0
  }

  ghost predicate Closer(s': State, s: State, c: Name)
    requires c in s.collectors && c in s'.collectors
  {
    var (k', k) := (s'.collectors[c], s.collectors[c]);
    || PcRank(k'.pc) < PcRank(k.pc)
    || (k'.pc == k.pc && k'.working < k.working)
    || (k'.pc == k.pc && k'.working == k.working && k'.ending < k.ending)
    || (k' == k && (s'.results < s.results || (s'.results == s.results && MainRank(s'.main) < MainRank(s.main))))
  }

  /** A step of c, one of its polls, or the main loop, that brings c closer to its end. */
  ghost predicate EndingStep(s: State, s': State, c: Name)
    requires c in s.collectors
  {
    Next(s, s') && AtWork(s') && OnlyChanges(s, s', c) && c in s'.collectors && Closer(s', s, c)
  }

  ghost predicate MayEnd(s: State, c: Name) {
    c in s.announcers && !OnlyAnnouncers(s) ==> OthersGone(s)
  }

  /** The poller's own step, where it is not waiting. */
  lemma {:induction false} PollerGoesOn(s: State, c: Name) returns (s': State)
    requires AtWork(s) && c in s.collectors && !Over(s.collectors[c].pc) && MayEnd(s, c)
    requires s.collectors[c].pc in {InWait, FinalWait} ==> s.collectors[c].running.group == 0
    ensures EndingStep(s, s', c)
  {
    NotBeforeStart(s, c);
    if OthersGone(s) {
      GoneMeansNoCount(s);
    }
    s' := MovedOn(s, c, s.collectors[c], Wg(s, c));
    InvPoller(s, s', c);
  }

  lemma {:induction false} MovedOn(s: State, c: Name, k: Collector, wg: WaitGroupCount) returns (s': State)
    requires c in s.collectors && k == s.collectors[c] && wg == Wg(s, c) && KeepPolling(s, c, false)
    requires !BeforeStart(k.pc) && !Over(k.pc) && (k.pc in {InWait, FinalWait} ==> k.running.group == 0)
    ensures PollerStep(s, s', c) && OnlyChanges(s, s', c) && s'.main == s.main && s'.errored == s.errored
    ensures c in s'.collectors && Closer(s', s, c)
  {
    var (k', wg') := NextMove(k, wg);
    NextMoveIsMove(s, c, k, k', wg, wg');
    s' := With(s, c, k', wg');
    assert s'.collectors[c] == k';
  }

  lemma {:induction false} NextMoveIsMove(s: State, c: Name, k: Collector, k': Collector, wg: WaitGroupCount, wg': WaitGroupCount)
    requires KeepPolling(s, c, false) && (k', wg') == NextMove(k, wg)
    requires !BeforeStart(k.pc) && !Over(k.pc) && (k.pc in {InWait, FinalWait} ==> k.running.group == 0)
    ensures PollerMove(s, c, k, k', wg, wg') && PcRank(k'.pc) < PcRank(k.pc)
  {
  }

  ghost function NextMove(k: Collector, wg: WaitGroupCount): (Collector, WaitGroupCount) {
    match k.pc
    case AtLoop => (k.(pc := FinalWait), wg)
    case AtLimit => (k.(pc := if k.running.count >= MAX_RUNNING_POLLS then InWait else AtSelect), wg)
    case InWait => (k.(pc := AtSelect), wg)
    case AtSelect =>
      (if k.quit > 0 then k.(pc := FinalWait, quit := k.quit - 1, killed := true) else k.(pc := AtLoop), wg)
    case AddingPoll => (k.(pc := StartingPoll, running := k.running.(group := k.running.group + 1)), wg)
    case StartingPoll => (k.(pc := AtLoop, working := k.working + 1), wg)
    case FinalWait => (k.(pc := Leaving), wg)
    case _ => (k.(pc := CountedOff), wg.(count := wg.count - 1))
  }

  lemma {:induction false} NotBeforeStart(s: State, c: Name)
    requires Inv(s) && c in s.collectors && !s.main.StartingCollector?
    ensures !BeforeStart(s.collectors[c].pc)
  {
    var i :| 0 <= i < |s.order| && s.order[i] == c;
    assert StartedUpTo(s.main, i, s.collectors[s.order[i]].pc);
  }

  /** One of the polls of c ends, or the main loop makes room for its result. */
  lemma {:induction false} PollGoesOn(s: State, c: Name) returns (s': State)
    requires AtWork(s) && c in s.collectors && s.collectors[c].pc in {InWait, FinalWait}
    requires s.collectors[c].running.group != 0
    ensures EndingStep(s, s', c)
  {
    var k := s.collectors[c];
    assert CollectorInv(k);
    if k.ending > 0 {
      s' := GonePoll(s, c);
      InvPoll(s, s', c);
    } else if s.results < POLL_RESULTS_QUEUE_SIZE {
      s' := EndedPoll(s, c);
      InvPoll(s, s', c);
    } else {
      s' := MainGoesOn(s, c);
    }
  }

  lemma {:induction false} GonePoll(s: State, c: Name) returns (s': State)
    requires c in s.collectors && s.collectors[c].ending > 0
    ensures PollGone(s, s', c) && OnlyChanges(s, s', c) && Closer(s', s, c)
  {
    var k := s.collectors[c];
    s' := s.(collectors := s.collectors[c := k.(ending := k.ending - 1, running := k.running.(group := k.running.group - 1))]);
  }

  lemma {:induction false} EndedPoll(s: State, c: Name) returns (s': State)
    requires c in s.collectors && s.collectors[c].working > 0 && s.results < POLL_RESULTS_QUEUE_SIZE
    ensures PollEnds(s, s', c) && OnlyChanges(s, s', c) && Closer(s', s, c)
  {
    var k := s.collectors[c];
    s' := s.(results := s.results + 1,
             collectors := s.collectors[c := k.(working := k.working - 1, ending := k.ending + 1,
                                                running := k.running.(count := k.running.count - 1))]);
  }

  lemma {:induction false} MainGoesOn(s: State, c: Name) returns (s': State)
    requires AtWork(s) && c in s.collectors && Counted(s.collectors[c].pc) && s.results > 0
    ensures EndingStep(s, s', c)
  {
    SomeoneCounts(s, c);
    match s.main {
      case ReadingCollectors => s' := s.(main := ReadingAnnouncers(s.collectorsWG.count));
      case ReadingAnnouncers(_) => s' := s.(main := Selecting);
      case Selecting => s' := s.(results := s.results - 1, main := ReadingCollectors);
      case ReportingError => s' := s.(errored := s.errored + 1, main := ReadingCollectors);
    }
    assert MainStep(s, s');
    InvMain(s, s');
  }

  lemma {:induction false} SomeoneCounts(s: State, c: Name)
    requires Inv(s) && c in s.collectors && Counted(s.collectors[c].pc)
    ensures s.collectorsWG.count + s.announcersWG.count > 0
  {
    CountsAreNatural(s);
    if Wg(s, c).count <= 0 {
      NoMembers(s, c);
    }
  }

  lemma {:induction false} PollerEnds(s: State, c: Name) returns (path: seq<State>, t: State)
    requires AtWork(s) && c in s.collectors && MayEnd(s, c)
    ensures Leads(path, s, t, true) && AtWork(t) && OnlyChanges(s, t, c) && Over(t.collectors[c].pc)
    decreases PcRank(s.collectors[c].pc), s.collectors[c].working, s.collectors[c].ending, s.results, MainRank(s.main)
  {
    var k := s.collectors[c];
    if Over(k.pc) {
      path, t := [s], s;
    } else {
      var s';
      if k.pc in {InWait, FinalWait} && k.running.group != 0 {
        s' := PollGoesOn(s, c);
      } else {
        s' := PollerGoesOn(s, c);
      }
      MayEndStill(s, s', c);
      var rest;
      rest, t := PollerEnds(s', c);
      path := StepAndOn(s, s', rest, t);
    }
  }

  lemma {:induction false} MayEndStill(s: State, s': State, c: Name)
    requires MayEnd(s, c) && OnlyChanges(s, s', c)
    ensures MayEnd(s', c)
  {
  }

  // ---- All pollers to their ends

  ghost predicate FirstAreOver(s: State, n: nat) {
    forall j :: 0 <= j < n && j < |s.order| ==> s.order[j] in s.collectors && Over(s.collectors[s.order[j]].pc)
  }

  /** When the collectors before it in the start order are over, the next one may end. */
  lemma {:induction false} NextMayEnd(s: State, n: nat)
    requires Inv(s) && n < |s.order| && FirstAreOver(s, n)
    ensures MayEnd(s, s.order[n])
  {
    if s.order[n] in s.announcers {
      forall c | c in s.collectors && c !in s.announcers
        ensures Over(s.collectors[c].pc)
      {
        var j :| 0 <= j < |s.order| && s.order[j] == c;
        assert j < n;
      }
    }
  }

  lemma {:induction false} PollersEnd(s: State, n: nat) returns (path: seq<State>, t: State)
    requires AtWork(s) && FirstAreOver(s, n) && n <= |s.order|
    ensures Leads(path, s, t, true) && AtWork(t) && t.order == s.order && FirstAreOver(t, |s.order|)
    decreases |s.order| - n
  {
    if n == |s.order| {
      path, t := [s], s;
    } else {
      var c := s.order[n];
      NextMayEnd(s, n);
      var first, u := PollerEnds(s, c);
      OneMoreIsOver(s, u, n);
      var rest;
      rest, t := PollersEnd(u, n + 1);
      path := Joins(first, rest, s, u, t, true);
    }
  }

  lemma {:induction false} OneMoreIsOver(s: State, u: State, n: nat)
    requires n < |s.order| && FirstAreOver(s, n) && s.order[n] in s.collectors
    requires OnlyChanges(s, u, s.order[n]) && Over(u.collectors[s.order[n]].pc)
    ensures FirstAreOver(u, n + 1)
  {
  }

  // ---- The main loop to its end

  lemma {:induction false} AllAreOver(s: State)
    requires Inv(s) && FirstAreOver(s, |s.order|)
    ensures s.collectorsWG.count == 0 && s.announcersWG.count == 0
  {
    assert Members(s, false) == {} && Members(s, true) == {};
  }

  lemma {:induction false} CleanUpEnds(s: State) returns (path: seq<State>, t: State)
    requires s.main.CleaningUp?
    ensures Leads(path, s, t, true) && t.main == CleanedUp && t.order == s.order && t.collectors == s.collectors
    decreases |s.main.left|
  {
    var left := s.main.left;
    if left == {} {
      t := s.(main := CleanedUp);
      assert MainStep(s, t);
      path := [s, t];
    } else {
      var c :| c in left;
      var s' := s.(main := CleaningUp(left - {c}));
      assert MainStep(s, s');
      var rest;
      rest, t := CleanUpEnds(s');
      path := StepAndOn(s, s', rest, t);
    }
  }

  /** With all pollers over, the main loop reads two counts of 0 and cleans up. */
  lemma {:induction false} MainEnds(s: State) returns (path: seq<State>, t: State)
    requires AtWork(s) && FirstAreOver(s, |s.order|)
    ensures Leads(path, s, t, true) && t.main == CleanedUp && t.order == s.order && t.collectors == s.collectors
    decreases if s.main.ReadingCollectors? then 0 else if s.main.Selecting? || s.main.ReportingError? then 1 else 2
  {
    AllAreOver(s);
    var s';
    match s.main {
      case ReadingCollectors =>
        s' := s.(main := ReadingAnnouncers(s.collectorsWG.count));
      case ReadingAnnouncers(collectors) =>
        s' := s.(main := if collectors + s.announcersWG.count > 0 then Selecting else CleaningUp(s.collectors.Keys));
      case Selecting =>
        s' := s.(main := ReadingCollectors);
      case ReportingError =>
        s' := s.(errored := s.errored + 1, main := ReadingCollectors);
    }
    assert MainStep(s, s');
    var rest;
    if s.main.ReadingCollectors? {
      var s'' := s'.(main := CleaningUp(s'.collectors.Keys));
      assert MainStep(s', s'');
      var last;
      last, t := CleanUpEnds(s'');
      rest := StepAndOn(s', s'', last, t);
    } else if s'.main.CleaningUp? {
      rest, t := CleanUpEnds(s');
    } else {
      InvMain(s, s');
      rest, t := MainEnds(s');
    }
    path := StepAndOn(s, s', rest, t);
  }

  // ---- The start to its end

  ghost function StartRank(s: State): nat
    requires s.main.StartingCollector? && s.main.next < |s.order| && s.order[s.main.next] in s.collectors
  {
    match s.collectors[s.order[s.main.next]].pc
    case NotStarted => 3
    case CountAdded => 2
    case _ => 1
  }

  /** What start makes of a collector: a poller at its loop. */
  ghost function Started(k: Collector): Collector {
    if BeforeStart(k.pc) then k.(pc := AtLoop) else k
  }

  ghost predicate HasStarted(s: State, t: State) {
    && t.order == s.order && t.announcers == s.announcers && t.collectors.Keys == s.collectors.Keys
    && forall c :: c in s.collectors ==> Started(t.collectors[c]) == Started(s.collectors[c])
  }

  lemma {:induction false} StartGoesOn(s: State) returns (s': State)
    requires Inv(s) && s.main.StartingCollector? && s.main.next < |s.order|
    ensures s.order[s.main.next] in s.collectors
    ensures s'.results == s.results && s'.errored == s.errored
    ensures Next(s, s') && Inv(s') && HasStarted(s, s') && s'.main.StartingCollector? && s'.main.next <= |s'.order|
    ensures s'.main.next == s.main.next + 1
            || (s'.main.next == s.main.next && s'.order[s'.main.next] in s'.collectors && StartRank(s') < StartRank(s))
  {
    var c := s.order[s.main.next];
    assert StartedUpTo(s.main, s.main.next, s.collectors[c].pc);
    s' := SetUp(s, c, s.collectors[c], Wg(s, c));
    InvStart(s, s');
  }

  lemma {:induction false} SetUp(s: State, c: Name, k: Collector, wg: WaitGroupCount) returns (s': State)
    requires s.main.StartingCollector? && s.main.next < |s.order| && c == s.order[s.main.next]
    requires c in s.collectors && k == s.collectors[c] && wg == Wg(s, c) && BeforeStart(k.pc)
    ensures s'.results == s.results && s'.errored == s.errored
    ensures StartStep(s, s') && HasStarted(s, s') && s'.main.StartingCollector?
    ensures s'.main.next == s.main.next + 1
            || (s'.main.next == s.main.next && c in s'.collectors && StartRank(s') < StartRank(s))
  {
    match k.pc {
      case NotStarted => s' := With(s, c, k.(pc := CountAdded), wg.(count := wg.count + 1));
      case CountAdded => s' := With(s, c, k.(pc := Spawning), wg.(group := wg.group + 1));
      case Spawning => s' := With(s, c, k.(pc := AtLoop), wg).(main := StartingCollector(s.main.next + 1));
    }
    assert Started(s'.collectors[c]) == Started(k);
  }

  lemma {:induction false} StartEnds(s: State) returns (path: seq<State>, t: State)
    requires Inv(s) && s.main.StartingCollector?
    ensures Leads(path, s, t, true) && AtWork(t) && t.main == ReadingCollectors && HasStarted(s, t)
    ensures t.results == s.results && t.errored == s.errored
    decreases |s.order| - s.main.next,
              if s.main.next < |s.order| && s.order[s.main.next] in s.collectors then StartRank(s) else 0
  {
    var s';
    if s.main.next >= |s.order| {
      t := s.(main := ReadingCollectors);
      assert StartStep(s, t);
      InvStart(s, t);
      path := [s, t];
    } else {
      s' := StartGoesOn(s);
      var rest;
      rest, t := StartEnds(s');
      path := StepAndOn(s, s', rest, t);
    }
  }

  // ---- The theorem

  /** No signal is on its way, and an error that is being reported finds room. */
  ghost predicate Undisturbed(s: State) {
    && !s.main.Forwarding? && !s.main.WaitingForCollectors? && !s.main.WaitingForAnnouncers?
    && (s.main.ReportingError? ==> s.errored < 10)
  }

  lemma {:induction false} WorkEnds(s: State) returns (path: seq<State>, t: State)
    requires AtWork(s)
    ensures Leads(path, s, t, true) && t.main == CleanedUp
  {
    var first, u := PollersEnd(s, 0);
    var rest;
    rest, t := MainEnds(u);
    path := Joins(first, rest, s, u, t, true);
  }

  lemma {:induction false} EndIsReachable(s: State) returns (path: seq<State>, t: State)
    requires Inv(s) && Undisturbed(s)
    ensures Leads(path, s, t, true) && t.main == CleanedUp
  {
    if s.main.StartingCollector? {
      var first, u := StartEnds(s);
      var rest;
      rest, t := WorkEnds(u);
      path := Joins(first, rest, s, u, t, true);
    } else if s.main.CleaningUp? {
      path, t := CleanUpEnds(s);
    } else if s.main.CleanedUp? {
      path, t := [s], s;
    } else {
      path, t := WorkEnds(s);
    }
  }

  /** From every state that a run reaches without a signal on its way and with room for a reported error,
      it can go on to the end of clean-up, without any signal. */
  lemma {:induction false} CleanUpIsReachable(run: seq<State>) returns (longer: seq<State>)
    requires IsRun(run) && Undisturbed(run[|run| - 1])
    ensures run <= longer && IsRun(longer) && longer[|longer| - 1].main == CleanedUp
    ensures forall i :: |run| <= i < |longer| ==> !longer[i].main.Forwarding?
  {
    InvRun(run, |run| - 1);
    var path, t := EndIsReachable(run[|run| - 1]);
    longer := RunGoesOn(run, path, t);
  }

  lemma {:induction false} RunGoesOn(run: seq<State>, path: seq<State>, t: State) returns (longer: seq<State>)
    requires IsRun(run) && Leads(path, run[|run| - 1], t, false)
    ensures longer == run + path[1..] && IsRun(longer) && longer[|longer| - 1] == t
  {
    longer := run + path[1..];
    forall i | 0 <= i < |longer| - 1
      ensures Next(longer[i], longer[i + 1])
    {
      if i < |run| - 1 {
        assert longer[i] == run[i] && longer[i + 1] == run[i + 1];
      } else {
        var k := i - (|run| - 1);
        assert longer[i] == path[k] && longer[i + 1] == path[k + 1];
      }
    }
    assert longer[|longer| - 1] == path[|path| - 1];
  }

  // ---- Three polls at once

  /** A poller at its loop that may poll on starts a poll. */
  lemma {:induction false} PollStarts(s: State, c: Name) returns (path: seq<State>, t: State)
    requires c in s.collectors && s.collectors[c].pc == AtLoop && KeepPolling(s, c, true)
    requires s.collectors[c].running.count < 3 && s.collectors[c].quit == 0
    ensures Leads(path, s, t, false) && t == s.(collectors := s.collectors[c := OneMorePoll(s.collectors[c])])
  {
    var p, u := ReachesSelect(s, c);
    var q;
    q, t := SelectStarts(u, c, s.collectors[c].(pc := AtSelect));
    assert t == Holding(s, c, OneMorePoll(s.collectors[c]));
    path := Joins(p, q, s, u, t, false);
  }

  /** The state with another poller of c. */
  ghost function Holding(s: State, c: Name, k: Collector): State {
    s.(collectors := s.collectors[c := k])
  }

  lemma {:induction false} ReachesSelect(s: State, c: Name) returns (path: seq<State>, t: State)
    requires c in s.collectors && s.collectors[c].pc == AtLoop && KeepPolling(s, c, true)
    requires s.collectors[c].running.count < 3
    ensures Leads(path, s, t, false) && t == Holding(s, c, s.collectors[c].(pc := AtSelect))
  {
    var k := s.collectors[c];
    var u := Moves(s, c, k.(pc := AtLimit));
    t := Moves(u, c, k.(pc := AtSelect));
    path := [s, u, t];
  }

  lemma {:induction false} SelectStarts(s: State, c: Name, k: Collector) returns (path: seq<State>, t: State)
    requires c in s.collectors && k == s.collectors[c] && k.pc == AtSelect && k.quit == 0
    ensures Leads(path, s, t, false) && t == Holding(s, c, OneMorePoll(k).(pc := AtLoop))
  {
    var p, u := SelectAdds(s, c, k);
    t := Moves(u, c, OneMorePoll(k).(pc := AtLoop));
    path := Joins(p, [u, t], s, u, t, false);
  }

  lemma {:induction false} SelectAdds(s: State, c: Name, k: Collector) returns (path: seq<State>, t: State)
    requires c in s.collectors && k == s.collectors[c] && k.pc == AtSelect && k.quit == 0
    ensures Leads(path, s, t, false)
    ensures t == Holding(s, c, k.(pc := StartingPoll, running := WaitGroupCount(k.running.count + 1, k.running.group + 1)))
  {
    var u := Moves(s, c, k.(pc := AddingPoll, running := k.running.(count := k.running.count + 1)));
    t := Moves(u, c, k.(pc := StartingPoll, running := WaitGroupCount(k.running.count + 1, k.running.group + 1)));
    path := [s, u, t];
  }

  ghost function OneMorePoll(k: Collector): Collector {
    k.(working := k.working + 1, running := WaitGroupCount(k.running.count + 1, k.running.group + 1))
  }

  lemma {:induction false} Moves(s: State, c: Name, k': Collector) returns (s': State)
    requires c in s.collectors && PollerMove(s, c, s.collectors[c], k', Wg(s, c), Wg(s, c))
    ensures Next(s, s') && s' == s.(collectors := s.collectors[c := k'])
  {
    s' := With(s, c, k', Wg(s, c));
    assert PollerStep(s, s', c);
  }

  /** For every collector of every set of them there is a run in which three of its polls work at once. */
  lemma {:induction false} ThreePollsAtOnce(s: State, c: Name) returns (run: seq<State>)
    requires Init(s) && c in s.order
    ensures IsRun(run) && run[0] == s && c in run[|run| - 1].collectors && run[|run| - 1].collectors[c].working == 3
  {
    InvInit(s);
    var start, t := StartEnds(s);
    assert Started(t.collectors[c]) == Started(s.collectors[c]);
    NotBeforeStart(t, c);
    MayPollOn(s, t, c);
    var polls, u := ThreePollsStart(t, c);
    var path := Joins(start, polls, s, t, u, false);
    run := RunGoesOn([s], path, u);
    assert run == path;
  }

  lemma {:induction false} ThreePollsStart(s: State, c: Name) returns (path: seq<State>, t: State)
    requires c in s.collectors && Resting(s.collectors[c], 0) && KeepPolling(s, c, true)
    ensures Leads(path, s, t, false) && c in t.collectors && t.collectors[c].working == 3
  {
    var p1, t1 := PollStarts(s, c);
    var p2, t2 := PollStarts(t1, c);
    var p3;
    p3, t := PollStarts(t2, c);
    var q := Joins(p2, p3, t1, t2, t, false);
    path := Joins(p1, q, s, t1, t, false);
  }

  /** Right after the start all pollers are at their loops, and may poll on. */
  lemma {:induction false} MayPollOn(s: State, t: State, c: Name)
    requires Init(s) && HasStarted(s, t) && Inv(t) && !t.main.StartingCollector? && c in t.collectors
    ensures KeepPolling(t, c, true)
  {
    if c in t.announcers && !OnlyAnnouncers(t) {
      var d :| d in t.order && d !in t.announcers;
      assert Started(t.collectors[d]) == Started(s.collectors[d]) == IDLE.(pc := AtLoop);
      NotBeforeStart(t, d);
      assert !OthersGone(t);
      NotBeforeStart(t, c);
      CountIffOthers(t, c);
    }
  }

  // ---- What a signal stops

  /** A signal waits for the poller before its select, or it is on its way out. */
  ghost predicate Stopping(k: Collector) {
    || (k.quit > 0 && k.pc in {AtLoop, AtLimit, InWait, AtSelect})
    || k.pc in {FinalWait, Leaving, CountedOff, Finished}
  }

  lemma {:induction false} StoppingMove(s: State, c: Name, k: Collector, k': Collector, wg: WaitGroupCount, wg': WaitGroupCount)
    requires PollerMove(s, c, k, k', wg, wg') && Stopping(k)
    ensures Stopping(k') && k'.working == k.working
  {
  }

  lemma {:induction false} StoppingPoller(s: State, s': State, d: Name, c: Name)
    requires PollerStep(s, s', d) && c in s.collectors && Stopping(s.collectors[c])
    ensures s'.main == s.main && c in s'.collectors
    ensures Stopping(s'.collectors[c]) && s'.collectors[c].working <= s.collectors[c].working
  {
    var k', wg' :| PollerMove(s, d, s.collectors[d], k', Wg(s, d), wg') && s' == With(s, d, k', wg');
    if d == c {
      StoppingMove(s, c, s.collectors[c], k', Wg(s, c), wg');
    }
  }

  lemma {:induction false} StoppingStep(s: State, s': State, c: Name)
    requires Next(s, s') && c in s.collectors && Stopping(s.collectors[c]) && !s.main.StartingCollector?
    ensures c in s'.collectors && Stopping(s'.collectors[c]) && s'.collectors[c].working <= s.collectors[c].working
    ensures !s'.main.StartingCollector?
  {
    if MainStep(s, s') {
      StoppingMain(s, s', c);
    } else {
      var d :| PollerStep(s, s', d) || PollEnds(s, s', d) || PollGone(s, s', d);
      if PollerStep(s, s', d) {
        StoppingPoller(s, s', d, c);
      }
    }
  }

  lemma {:induction false} StoppingMain(s: State, s': State, c: Name)
    requires MainStep(s, s') && c in s.collectors && Stopping(s.collectors[c])
    ensures !s'.main.StartingCollector? && c in s'.collectors
    ensures Stopping(s'.collectors[c]) && s'.collectors[c].working == s.collectors[c].working
  {
  }

  ghost predicate Stopped(s: State, c: Name, working: nat) {
    !s.main.StartingCollector? && c in s.collectors && Stopping(s.collectors[c]) && s.collectors[c].working <= working
  }

  lemma {:induction false} StaysStopped(s: State, s': State, c: Name, working: nat)
    requires Stopped(s, c, working) && Next(s, s')
    ensures Stopped(s', c, working)
  {
    StoppingStep(s, s', c);
  }

  ghost predicate AllStopped(states: seq<State>, c: Name, working: nat) {
    forall i :: 0 <= i < |states| ==> Stopped(states[i], c, working)
  }

  lemma {:induction false} PathStaysStopped(path: seq<State>, c: Name, working: nat)
    requires IsPath(path) && Stopped(path[0], c, working)
    ensures AllStopped(path, c, working)
  {
    if |path| > 1 {
      SecondStep(path);
      StaysStopped(path[0], path[1], c, working);
      PathStaysStopped(path[1..], c, working);
      assert forall i :: 0 < i < |path| ==> path[i] == path[1..][i - 1];
    }
  }

  lemma {:induction false} SecondStep(path: seq<State>)
    requires IsPath(path) && |path| > 1
    ensures Next(path[0], path[1]) && IsPath(path[1..])
  {
    var rest := path[1..];
    assert Next(path[0], path[0 + 1]);
    forall i | 0 <= i < |rest| - 1
      ensures Next(rest[i], rest[i + 1])
    {
      assert rest[i] == path[i + 1] && rest[i + 1] == path[i + 1 + 1];
    }
  }

  /** Once a signal waits for a poller that has not decided to poll, it never starts a poll again: of its
      polls at work there are never more than then, whatever else happens. */
  lemma {:induction false} NoPollAfterSignal(run: seq<State>, c: Name, working: nat, i: nat)
    requires IsRun(run) && i < |run| && Stopped(run[i], c, working)
    ensures forall j :: i <= j < |run| ==> Stopped(run[j], c, working)
  {
    var path := run[i..];
    forall k | 0 <= k < |path| - 1
      ensures Next(path[k], path[k + 1])
    {
      assert path[k] == run[i + k] && path[k + 1] == run[i + k + 1];
    }
    PathStaysStopped(path, c, working);
    forall j | i <= j < |run|
      ensures Stopped(run[j], c, working)
    {
      assert run[j] == path[j - i];
    }
  }

  // ---- What the main loop waits for

  /** The poller is a member of its wait group: start has added it, and it has not left. */
  ghost predicate Grouped(pc: Pc) {
    !pc.NotStarted? && !pc.CountAdded? && !pc.Finished?
  }

  ghost function Group(s: State, announcers: bool): set<Name> {
    set c | c in s.collectors && (c in s.announcers) == announcers && Grouped(s.collectors[c].pc)
  }

  ghost predicate GroupsInv(s: State) {
    s.collectorsWG.group == |Group(s, false)| && s.announcersWG.group == |Group(s, true)|
  }

  ghost predicate GroupMoves(s: State, c: Name, k: Collector, wg: WaitGroupCount)
    requires c in s.collectors
  {
    wg.group == Wg(s, c).group + (if Grouped(k.pc) then 1 else 0) - (if Grouped(s.collectors[c].pc) then 1 else 0)
  }

  lemma {:induction false} GroupWith(s: State, c: Name, k: Collector, a: bool)
    requires c in s.collectors
    ensures
      var s' := s.(collectors := s.collectors[c := k]);
      |Group(s', a)| == |Group(s, a)| +
        (if (c in s.announcers) != a then 0
         else (if Grouped(k.pc) then 1 else 0) - (if Grouped(s.collectors[c].pc) then 1 else 0))
  {
    var s' := s.(collectors := s.collectors[c := k]);
    assert Group(s', a) - {c} == Group(s, a) - {c};
    SetWithout(Group(s, a), c);
    SetWithout(Group(s', a), c);
  }

  lemma {:induction false} GroupsWith(s: State, s': State, c: Name, k: Collector, wg: WaitGroupCount)
    requires GroupsInv(s) && c in s.collectors && GroupMoves(s, c, k, wg)
    requires s'.collectors == s.collectors[c := k] && s'.announcers == s.announcers
    requires if c in s.announcers then s'.announcersWG == wg && s'.collectorsWG == s.collectorsWG
             else s'.collectorsWG == wg && s'.announcersWG == s.announcersWG
    ensures GroupsInv(s')
  {
    GroupWith(s, c, k, false);
    GroupWith(s, c, k, true);
    var t := s.(collectors := s.collectors[c := k]);
    assert Group(s', false) == Group(t, false) && Group(s', true) == Group(t, true);
  }

  lemma {:induction false} GroupsStay(s: State, s': State)
    requires GroupsInv(s) && s'.collectors == s.collectors && s'.announcers == s.announcers
    requires s'.collectorsWG == s.collectorsWG && s'.announcersWG == s.announcersWG
    ensures GroupsInv(s')
  {
    assert Group(s', false) == Group(s, false) && Group(s', true) == Group(s, true);
  }

  lemma {:induction false} GroupsStart(s: State, s': State)
    requires GroupsInv(s) && StartStep(s, s')
    ensures GroupsInv(s')
  {
    if s.main.next >= |s.order| {
      GroupsStay(s, s');
    } else {
      var c := s.order[s.main.next];
      GroupsWith(s, s', c, s'.collectors[c], Wg(s', c));
    }
  }

  lemma {:induction false} GroupsPoller(s: State, s': State, c: Name)
    requires GroupsInv(s) && PollerStep(s, s', c)
    ensures GroupsInv(s')
  {
    var k', wg' :| PollerMove(s, c, s.collectors[c], k', Wg(s, c), wg') && s' == With(s, c, k', wg');
    MoveOfGroup(s, c, s.collectors[c], k', Wg(s, c), wg');
    GroupsWith(s, s', c, k', wg');
  }

  lemma {:induction false} MoveOfGroup(s: State, c: Name, k: Collector, k': Collector, wg: WaitGroupCount, wg': WaitGroupCount)
    requires PollerMove(s, c, k, k', wg, wg')
    ensures wg'.group == wg.group + (if Grouped(k'.pc) then 1 else 0) - (if Grouped(k.pc) then 1 else 0)
  {
  }

  lemma {:induction false} GroupsMain(s: State, s': State)
    requires GroupsInv(s) && MainStep(s, s')
    ensures GroupsInv(s')
  {
    if s.main.Forwarding? && s.main.left != {} {
      var c :| c in s.main.left && c in s.collectors && s.collectors[c].quit == 0 &&
        s' == s.(collectors := s.collectors[c := s.collectors[c].(quit := 1)], main := Forwarding(s.main.left - {c}));
      GroupsWith(s, s', c, s.collectors[c].(quit := 1), Wg(s, c));
    } else {
      GroupsStay(s, s');
    }
  }

  lemma {:induction false} GroupsNext(s: State, s': State)
    requires GroupsInv(s) && Next(s, s')
    ensures GroupsInv(s')
  {
    if StartStep(s, s') {
      GroupsStart(s, s');
    } else if MainStep(s, s') {
      GroupsMain(s, s');
    } else {
      var c :| PollerStep(s, s', c) || PollEnds(s, s', c) || PollGone(s, s', c);
      if PollerStep(s, s', c) {
        GroupsPoller(s, s', c);
      } else {
        GroupsWith(s, s', c, s'.collectors[c], Wg(s, c));
      }
    }
  }

  lemma {:induction false} GroupsRun(run: seq<State>, n: nat)
    requires IsRun(run) && n < |run|
    ensures GroupsInv(run[n])
    decreases n
  {
    if n == 0 {
      assert Group(run[0], false) == {} && Group(run[0], true) == {};
    } else {
      GroupsRun(run, n - 1);
      assert Next(run[n - 1], run[n - 1 + 1]);
      GroupsNext(run[n - 1], run[n]);
    }
  }

  ghost predicate AllFinished(s: State, announcers: bool) {
    forall c :: c in s.collectors && (c in s.announcers) == announcers ==> s.collectors[c].pc == Finished
  }

  lemma {:induction false} GroupIsEmptyIff(s: State, announcers: bool)
    requires Inv(s) && GroupsInv(s) && !s.main.StartingCollector?
    ensures (if announcers then s.announcersWG else s.collectorsWG).group == 0 <==> AllFinished(s, announcers)
  {
    var members := Group(s, announcers);
    if AllFinished(s, announcers) {
      assert members == {};
    }
    forall c | c in s.collectors && (c in s.announcers) == announcers && s.collectors[c].pc != Finished
      ensures c in members
    {
      NotBeforeStart(s, c);
    }
    if members == {} {
      assert AllFinished(s, announcers);
    }
  }

  /** After a signal the main loop waits until the pollers of all other collectors have finished, and then
      for those of the announcers: it goes on if and only if they have. */
  lemma {:induction false} WaitsForAll(run: seq<State>)
    requires IsRun(run)
    ensures
      var s := run[|run| - 1];
      && (s.main == WaitingForCollectors ==> ((exists s' :: MainStep(s, s')) <==> AllFinished(s, false)))
      && (s.main == WaitingForAnnouncers ==> ((exists s' :: MainStep(s, s')) <==> AllFinished(s, true)))
  {
    var s := run[|run| - 1];
    InvRun(run, |run| - 1);
    GroupsRun(run, |run| - 1);
    if s.main == WaitingForCollectors {
      GroupIsEmptyIff(s, false);
      assert s.collectorsWG.group == 0 ==> MainStep(s, s.(main := WaitingForAnnouncers));
    } else if s.main == WaitingForAnnouncers {
      GroupIsEmptyIff(s, true);
      assert s.announcersWG.group == 0 ==> MainStep(s, s.(main := ReadingCollectors));
    }
  }

  // ---- A run that a signal ends

  /** Nothing is in flight: the poller is at its loop, with or without a signal. */
  ghost predicate Resting(k: Collector, quit: nat) {
    k == IDLE.(pc := AtLoop, quit := quit)
  }

  lemma {:induction false} ForwardsAll(s: State) returns (path: seq<State>, t: State)
    requires s.main.Forwarding? && s.main.left <= s.collectors.Keys
    requires forall c :: c in s.collectors ==> Resting(s.collectors[c], if c in s.main.left then 0 else 1)
    ensures Leads(path, s, t, false)
    ensures t == s.(main := WaitingForCollectors, collectors := t.collectors) && t.collectors.Keys == s.collectors.Keys
    ensures forall c :: c in t.collectors ==> Resting(t.collectors[c], 1)
    decreases |s.main.left|
  {
    var left := s.main.left;
    if left == {} {
      t := s.(main := WaitingForCollectors);
      assert MainStep(s, t);
      path := [s, t];
    } else {
      var c :| c in left;
      var s' := s.(collectors := s.collectors[c := s.collectors[c].(quit := 1)], main := Forwarding(left - {c}));
      assert MainStep(s, s');
      var rest;
      rest, t := ForwardsAll(s');
      path := Joins([s, s'], rest, s, s', t, false);
    }
  }

  /** A signalled poller at its loop takes the signal at its select and ends. */
  lemma {:induction false} IsKilled(s: State, c: Name) returns (path: seq<State>, t: State)
    requires c in s.collectors && Resting(s.collectors[c], 1) && KeepPolling(s, c, true)
    ensures Leads(path, s, t, false) && OnlyChanges(s, t, c) && t.main == s.main && c in t.collectors
    ensures t.collectors[c].pc == Finished && t.collectors[c].killed
  {
    var first, u := TakesSignal(s, c);
    var s1 := Moves(u, c, u.collectors[c].(pc := Leaving));
    var s2 := Leaves(s1, c);
    t := Finishes(s2, c);
    path := Joins(first, [u, s1, s2, t], s, u, t, false);
  }

  /** A poller at its loop that may poll on takes the signal that waits for it. */
  lemma {:induction false} TakesSignal(s: State, c: Name) returns (path: seq<State>, t: State)
    requires c in s.collectors && s.collectors[c].pc == AtLoop && s.collectors[c].quit == 1 && KeepPolling(s, c, true)
    requires s.collectors[c].running.count < 3
    ensures Leads(path, s, t, false)
    ensures t == s.(collectors := s.collectors[c := s.collectors[c].(pc := FinalWait, quit := 0, killed := true)])
  {
    var p, u := ReachesSelect(s, c);
    t := Moves(u, c, s.collectors[c].(pc := FinalWait, quit := 0, killed := true));
    path := Joins(p, [u, t], s, u, t, false);
  }

  lemma {:induction false} Leaves(s: State, c: Name) returns (s': State)
    requires c in s.collectors && s.collectors[c].pc == Leaving
    ensures Next(s, s') && OnlyChanges(s, s', c) && s'.main == s.main && c in s'.collectors
    ensures s'.collectors[c] == s.collectors[c].(pc := CountedOff)
  {
    var (k', wg') := (s.collectors[c].(pc := CountedOff), Wg(s, c).(count := Wg(s, c).count - 1));
    assert PollerMove(s, c, s.collectors[c], k', Wg(s, c), wg');
    s' := With(s, c, k', wg');
    assert PollerStep(s, s', c);
  }

  lemma {:induction false} Finishes(s: State, c: Name) returns (s': State)
    requires c in s.collectors && s.collectors[c].pc == CountedOff
    ensures Next(s, s') && OnlyChanges(s, s', c) && s'.main == s.main && c in s'.collectors
    ensures s'.collectors[c] == s.collectors[c].(pc := Finished)
  {
    var (k', wg') := (s.collectors[c].(pc := Finished), Wg(s, c).(group := Wg(s, c).group - 1));
    assert PollerMove(s, c, s.collectors[c], k', Wg(s, c), wg');
    s' := With(s, c, k', wg');
    assert PollerStep(s, s', c);
  }

  ghost predicate IsDead(k: Collector) {
    k.pc == Finished && k.killed
  }

  /** The first n collectors of the start order are at their loops with a signal, the others dead. */
  ghost predicate KilledFrom(s: State, n: nat) {
    forall i :: 0 <= i < |s.order| ==>
      s.order[i] in s.collectors && (if i < n then Resting(s.collectors[s.order[i]], 1) else IsDead(s.collectors[s.order[i]]))
  }

  lemma {:induction false} LastPollsOn(s: State, n: nat)
    requires Inv(s) && !s.main.StartingCollector? && 0 < n <= |s.order| && KilledFrom(s, n)
    ensures s.order[n - 1] in s.collectors && KeepPolling(s, s.order[n - 1], true)
  {
    var c := s.order[n - 1];
    if c in s.announcers && !OnlyAnnouncers(s) {
      var d :| d in s.order && d !in s.announcers;
      var i :| 0 <= i < |s.order| && s.order[i] == d;
      assert i < n;
      assert Resting(s.collectors[d], 1) && !OthersGone(s);
      CountIffOthers(s, c);
    }
  }

  lemma {:induction false} InvPath(path: seq<State>, s: State, t: State, quiet: bool, n: nat)
    requires Leads(path, s, t, quiet) && Inv(s) && GroupsInv(s) && n < |path|
    ensures Inv(path[n]) && GroupsInv(path[n])
    decreases n
  {
    if n > 0 {
      InvPath(path, s, t, quiet, n - 1);
      assert Next(path[n - 1], path[n - 1 + 1]);
      InvNext(path[n - 1], path[n]);
      GroupsNext(path[n - 1], path[n]);
    }
  }

  lemma {:induction false} KillsAll(s: State, n: nat) returns (path: seq<State>, t: State)
    requires Inv(s) && GroupsInv(s) && s.main == WaitingForCollectors && n <= |s.order| && KilledFrom(s, n)
    ensures Leads(path, s, t, false) && Inv(t) && GroupsInv(t) && t.main == WaitingForCollectors && KilledFrom(t, 0)
    ensures t.order == s.order
    decreases n
  {
    if n == 0 {
      path, t := [s], s;
    } else {
      LastPollsOn(s, n);
      var first, u := IsKilled(s, s.order[n - 1]);
      InvPath(first, s, u, false, |first| - 1);
      OneMoreIsKilled(s, u, n);
      var rest;
      rest, t := KillsAll(u, n - 1);
      path := Joins(first, rest, s, u, t, false);
    }
  }

  lemma {:induction false} OneMoreIsKilled(s: State, u: State, n: nat)
    requires 0 < n <= |s.order| && KilledFrom(s, n) && IsStartOrder(s.order, s.announcers)
    requires OnlyChanges(s, u, s.order[n - 1]) && s.order[n - 1] in u.collectors && IsDead(u.collectors[s.order[n - 1]])
    ensures KilledFrom(u, n - 1)
  {
  }

  /** The main loop, when all pollers have finished after a signal. */
  lemma {:induction false} WaitsAndEnds(s: State) returns (path: seq<State>, t: State)
    requires Inv(s) && GroupsInv(s) && s.main == WaitingForCollectors && KilledFrom(s, 0)
    ensures Leads(path, s, t, false) && t.main == CleanedUp && t.order == s.order && t.collectors == s.collectors
  {
    var u := s.(main := WaitingForAnnouncers);
    var v := s.(main := ReadingCollectors);
    assert AllFinished(s, false) && AllFinished(s, true);
    GroupIsEmptyIff(s, false);
    GroupIsEmptyIff(s, true);
    assert MainStep(s, u) && MainStep(u, v);
    InvMain(s, u);
    InvMain(u, v);
    var rest;
    rest, t := MainEnds(v);
    path := Joins([s, u, v], rest, s, v, t, false);
  }

  lemma {:induction false} ReachesSelecting(s: State) returns (path: seq<State>, t: State)
    requires Inv(s) && s.main == ReadingCollectors && s.order != []
    requires forall c :: c in s.collectors ==> Resting(s.collectors[c], 0)
    ensures Leads(path, s, t, false) && t == s.(main := Selecting)
  {
    var c := s.order[0];
    SomeoneCounts(s, c);
    var u := s.(main := ReadingAnnouncers(s.collectorsWG.count));
    t := s.(main := Selecting);
    assert MainStep(s, u) && MainStep(u, t);
    path := [s, u, t];
  }

  lemma {:induction false} SignalArrives(s: State) returns (path: seq<State>, t: State)
    requires Inv(s) && s.main == ReadingCollectors && s.order != []
    requires forall c :: c in s.collectors ==> Resting(s.collectors[c], 0)
    ensures Leads(path, s, t, false) && t == s.(main := Forwarding(s.collectors.Keys))
  {
    var first, u := ReachesSelecting(s);
    t := s.(main := Forwarding(s.collectors.Keys));
    assert MainStep(u, t);
    path := Joins(first, [u, t], s, u, t, false);
  }

  /** For any collectors there is a run in which a signal arrives after the start, every poller takes it
      and ends, and the runner cleans up. */
  lemma {:induction false} SignalEndsRun(s: State) returns (run: seq<State>)
    requires Init(s) && s.order != []
    ensures IsRun(run) && run[0] == s
    ensures
      var end := run[|run| - 1];
      end.main == CleanedUp && forall c :: c in s.order ==> c in end.collectors && end.collectors[c].killed
  {
    InvInit(s);
    GroupsRun([s], 0);
    var start, t := StartEnds(s);
    InvPath(start, s, t, true, |start| - 1);
    forall c | c in t.collectors
      ensures Resting(t.collectors[c], 0)
    {
      NotBeforeStart(t, c);
      assert Started(t.collectors[c]) == Started(s.collectors[c]);
    }
    var rest, end := SignalEndsPath(t);
    var path := Joins(start, rest, s, t, end, false);
    run := RunGoesOn([s], path, end);
    assert run == path;
  }

  lemma {:induction false} SignalEndsPath(s: State) returns (path: seq<State>, t: State)
    requires Inv(s) && GroupsInv(s) && s.main == ReadingCollectors && s.order != []
    requires forall c :: c in s.collectors ==> Resting(s.collectors[c], 0)
    ensures Leads(path, s, t, false) && t.main == CleanedUp
    ensures forall c :: c in s.order ==> c in t.collectors && t.collectors[c].killed
  {
    var p1, u := SignalForwarded(s);
    var p2, v := KillsAll(u, |u.order|);
    var p3;
    p3, t := WaitsAndEnds(v);
    var second := Joins(p2, p3, u, v, t, false);
    path := Joins(p1, second, s, u, t, false);
  }

  lemma {:induction false} SignalForwarded(s: State) returns (path: seq<State>, t: State)
    requires Inv(s) && GroupsInv(s) && s.main == ReadingCollectors && s.order != []
    requires forall c :: c in s.collectors ==> Resting(s.collectors[c], 0)
    ensures Leads(path, s, t, false) && Inv(t) && GroupsInv(t) && t.order == s.order
    ensures t.main == WaitingForCollectors && KilledFrom(t, |t.order|)
  {
    var p, u := SignalArrives(s);
    var q;
    q, t := ForwardsAll(u);
    path := Joins(p, q, s, u, t, false);
    InvPath(path, s, t, false, |path| - 1);
  }

  // ---- A run that a signal blocks

  /** A poll starts and ends, and its result stays in the queue. */
  lemma {:induction false} PollResultQueued(s: State, c: Name) returns (path: seq<State>, t: State)
    requires c in s.collectors && Resting(s.collectors[c], 0) && KeepPolling(s, c, true) && s.results < 10
    ensures Leads(path, s, t, false) && t == s.(results := s.results + 1)
  {
    var first, u := PollStarts(s, c);
    var v := EndedPoll(u, c);
    t := GonePoll(v, c);
    assert PollEnds(u, v, c) && PollGone(v, t, c);
    assert t.collectors == s.collectors;
    path := Joins(first, [u, v, t], s, u, t, false);
  }

  lemma {:induction false} ResultsFill(s: State, c: Name) returns (path: seq<State>, t: State)
    requires c in s.collectors && Resting(s.collectors[c], 0) && c !in s.announcers && s.results <= 10
    ensures Leads(path, s, t, false) && t == s.(results := 10)
    decreases 10 - s.results
  {
    if s.results == 10 {
      path, t := [s], s;
    } else {
      var first, u := PollResultQueued(s, c);
      var rest;
      rest, t := ResultsFill(u, c);
      path := Joins(first, rest, s, u, t, false);
    }
  }

  /** One more poll starts, and a signal is forwarded to its poller, which waits for the poll to end. */
  lemma {:induction false} SignalDuringPoll(s: State, c: Name) returns (path: seq<State>, t: State)
    requires s.main == Selecting && s.collectors == map[c := IDLE.(pc := AtLoop)] && c !in s.announcers
    ensures Leads(path, s, t, false)
    ensures t == s.(main := WaitingForCollectors,
                    collectors := map[c := Collector(FinalWait, 1, 0, WaitGroupCount(1, 1), 0, true)])
  {
    var p1, t1 := PollStarts(s, c);
    var p2, t2 := ForwardsOne(t1, c);
    assert KeepPolling(t2, c, true);
    var p3;
    p3, t := TakesSignal(t2, c);
    var q := Joins(p2, p3, t1, t2, t, false);
    path := Joins(p1, q, s, t1, t, false);
  }

  lemma {:induction false} ForwardsOne(s: State, c: Name) returns (path: seq<State>, t: State)
    requires s.main == Selecting && s.collectors.Keys == {c} && s.collectors[c].quit == 0
    ensures Leads(path, s, t, false)
    ensures t == s.(main := WaitingForCollectors, collectors := s.collectors[c := s.collectors[c].(quit := 1)])
  {
    var u := s.(main := Forwarding({c}));
    var v := u.(collectors := s.collectors[c := s.collectors[c].(quit := 1)], main := Forwarding({c} - {c}));
    t := v.(main := WaitingForCollectors);
    assert MainStep(s, u) && MainStep(u, v) && MainStep(v, t);
    path := [s, u, v, t];
  }

  ghost predicate IsStuck(s: State) {
    forall s' :: !Next(s, s')
  }

  lemma {:induction false} NothingMoves(s: State, s': State, c: Name)
    requires s.main == WaitingForCollectors && s.collectorsWG.group > 0 && s.results == 10
    requires s.collectors == map[c := Collector(FinalWait, 1, 0, WaitGroupCount(1, 1), 0, true)]
    ensures !Next(s, s')
  {
  }

  lemma {:induction false} StartsAlone(s: State, c: Name) returns (path: seq<State>, t: State)
    requires Init(s) && s.order == [c] && c !in s.announcers
    ensures Leads(path, s, t, false) && Inv(t) && GroupsInv(t)
    ensures t.main == Selecting && t.collectors == map[c := IDLE.(pc := AtLoop)]
    ensures t.announcers == s.announcers && t.results == 0 && t.errored == 0
  {
    InvInit(s);
    GroupsRun([s], 0);
    var start, u := StartEnds(s);
    assert Started(u.collectors[c]) == Started(s.collectors[c]);
    NotBeforeStart(u, c);
    var rest;
    rest, t := ReachesSelecting(u);
    path := Joins(start, rest, s, u, t, false);
    InvPath(path, s, t, false, |path| - 1);
  }

  /** With a single collector, a signal can block the runner for ever: when the queue of results is full
      and one more poll is at work, the main loop waits for the poller, the poller for the poll, and the
      poll for the main loop to take a result. */
  lemma {:induction false} SignalCanBlock(s: State, c: Name) returns (run: seq<State>)
    requires Init(s) && s.order == [c] && c !in s.announcers
    ensures IsRun(run) && run[0] == s
    ensures run[|run| - 1].main == WaitingForCollectors && IsStuck(run[|run| - 1])
  {
    var p1, t1 := StartsAlone(s, c);
    var p2, t2 := ResultsFill(t1, c);
    var p3, t3 := SignalDuringPoll(t2, c);
    var first := Joins(p1, p2, s, t1, t2, false);
    var path := Joins(first, p3, s, t2, t3, false);
    run := RunGoesOn([s], path, t3);
    assert run == path;
    BlockedGroup(t1, t3, c);
    forall s'
      ensures !Next(t3, s')
    {
      NothingMoves(t3, s', c);
    }
  }

  lemma {:induction false} BlockedGroup(s: State, t: State, c: Name)
    requires Inv(s) && GroupsInv(s) && s.collectors == map[c := IDLE.(pc := AtLoop)] && c !in s.announcers
    requires t.collectorsWG == s.collectorsWG
    ensures t.collectorsWG.group > 0
  {
    assert c in Group(s, false);
  }

  // ---- A run that errors block

  /** A poll fails, and its error is about to be reported. */
  lemma {:induction false} PollFails(s: State, c: Name) returns (path: seq<State>, t: State)
    requires c in s.collectors && Resting(s.collectors[c], 0) && c !in s.announcers && s.main == Selecting && s.results == 0
    ensures Leads(path, s, t, false) && t == s.(main := ReportingError)
  {
    var first, u := PollResultQueued(s, c);
    t := s.(main := ReportingError);
    assert MainStep(u, t);
    path := Joins(first, [u, t], s, u, t, false);
  }

  lemma {:induction false} ErrorIsReported(s: State) returns (path: seq<State>, t: State)
    requires s.main == ReportingError && s.errored < 10 && s.collectorsWG.count > 0 && s.announcersWG.count >= 0
    ensures Leads(path, s, t, false) && t == s.(main := Selecting, errored := s.errored + 1)
  {
    var u := s.(main := ReadingCollectors, errored := s.errored + 1);
    var v := u.(main := ReadingAnnouncers(u.collectorsWG.count));
    t := v.(main := Selecting);
    assert MainStep(s, u) && MainStep(u, v) && MainStep(v, t);
    path := [s, u, v, t];
  }

  lemma {:induction false} ErrorsFill(s: State, c: Name) returns (path: seq<State>, t: State)
    requires c in s.collectors && Resting(s.collectors[c], 0) && c !in s.announcers && s.main == Selecting && s.results == 0
    requires s.errored <= 10 && s.collectorsWG.count > 0 && s.announcersWG.count >= 0
    ensures Leads(path, s, t, false) && t == s.(main := ReportingError, errored := 10)
    decreases 10 - s.errored
  {
    var p1, u := PollFails(s, c);
    if s.errored == 10 {
      path, t := p1, u;
    } else {
      var p2, v := ErrorIsReported(u);
      var p3;
      p3, t := ErrorsFill(v, c);
      var q := Joins(p2, p3, u, v, t, false);
      path := Joins(p1, q, s, u, t, false);
    }
  }

  /** Where nothing reads the reported errors, eleven failed polls of a single collector block the main
      loop. */
  lemma {:induction false} ErrorsCanBlock(s: State, c: Name) returns (run: seq<State>)
    requires Init(s) && s.order == [c] && c !in s.announcers
    ensures IsRun(run) && run[0] == s
    ensures
      var end := run[|run| - 1];
      end.main == ReportingError && end.errored == 10 && forall s' :: !MainStep(end, s')
  {
    var p1, t1 := StartsAlone(s, c);
    CountsAreNatural(t1);
    OneIsCounted(t1, c);
    var p2, t2 := ErrorsFill(t1, c);
    var path := Joins(p1, p2, s, t1, t2, false);
    run := RunGoesOn([s], path, t2);
    assert run == path;
  }

  lemma {:induction false} OneIsCounted(s: State, c: Name)
    requires Inv(s) && c in s.collectors && c !in s.announcers && Counted(s.collectors[c].pc)
    ensures s.collectorsWG.count > 0
  {
    if s.collectorsWG.count <= 0 {
      NoMembers(s, c);
    }
  }
}
