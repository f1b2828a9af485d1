/** The summary of a list of test cases (testdrive/src/testdrive/cases.py), and how summaries
    compose when their suites are merged (testdrive/src/testdrive/junit/merge.py). */
module Cases {
  import opened JUnitMerge
  import opened Outcomes

  /** The text of a date and time is never empty. */
  type IsoStamp = s: Stamp | s.text != "" witness Stamp("2024-01-01T00:00:00", 0.0)

  /** A decimal timestamp is relative, and is skipped. */
  datatype When = Absent | Relative(seconds: real) | At(stamp: IsoStamp)

  datatype Result = Success | Failure | Error

  datatype Case = Case(result: Result, timestamp: When, duration: real) {
    predicate Timed() {
      timestamp.At?
    }

    function Start(): real
      requires Timed()
    {
      timestamp.stamp.instant
    }

    function Finish(): real
      requires Timed()
    {
      Start() + duration
    }
  }

  datatype Summary = Summary(total: int, success: int, failure: int, error: int,
                             timestamp: Option<Stamp>, duration: real)

  /** The case at i is the first to start as early as any of the first n. */
  ghost predicate FirstEarliest(cases: seq<Case>, n: nat, i: int)
    requires n <= |cases|
  {
    && 0 <= i < n && cases[i].Timed()
    && forall j :: 0 <= j < n && cases[j].Timed() ==>
         cases[i].Start() <= cases[j].Start() && (j < i ==> cases[i].Start() < cases[j].Start())
  }

  /** The case at i is the first to start as late as any of the first n. */
  ghost predicate FirstLatest(cases: seq<Case>, n: nat, i: int)
    requires n <= |cases|
  {
    && 0 <= i < n && cases[i].Timed()
    && forall j :: 0 <= j < n && cases[j].Timed() ==>
         cases[j].Start() <= cases[i].Start() && (j < i ==> cases[j].Start() < cases[i].Start())
  }

  /** The earliest start, and the time from there to the finish of the first case among those that
      start last. */
  ghost predicate Spans(cases: seq<Case>, stamp: Stamp, duration: real, i: int, k: int) {
    && FirstEarliest(cases, |cases|, i) && FirstLatest(cases, |cases|, k)
    && stamp == cases[i].timestamp.stamp
    && stamp.instant + duration == cases[k].Finish()
  }

  ghost predicate IsTiming(cases: seq<Case>, timestamp: Option<Stamp>, duration: real) {
    if timestamp.None? then forall j :: 0 <= j < |cases| ==> !cases[j].Timed()
    else exists i, k :: Spans(cases, timestamp.value, duration, i, k)
  }

  method Timing(cases: seq<Case>) returns (timestamp: Option<Stamp>, duration: real)
    ensures IsTiming(cases, timestamp, duration)
  {
    timestamp, duration := None, 0.0;
    var start, end, durationLast := 0.0, 0.0, 0.0;
    ghost var first, last := 0, 0;
    for n := 0 to |cases|
      invariant timestamp.None? ==> forall j :: 0 <= j < n ==> !cases[j].Timed()
      invariant timestamp.Some? ==> FirstEarliest(cases, n, first) && FirstLatest(cases, n, last)
      invariant timestamp.Some? ==> timestamp.value == cases[first].timestamp.stamp && start == cases[first].Start()
      invariant timestamp.Some? ==> end == cases[last].Start() && durationLast == cases[last].duration
    {
      var case_ := cases[n];
      if case_.timestamp.At? {
        var instant := case_.timestamp.stamp.instant;
        if timestamp.None? {
          timestamp := Some(case_.timestamp.stamp);
          start, end := instant, instant;
          durationLast := case_.duration;
          first, last := n, n;
        } else if instant < start {
          timestamp := Some(case_.timestamp.stamp);
          start := instant;
          first := n;
        } else if end < instant {
          end := instant;
          durationLast := case_.duration;
          last := n;
        }
      }
    }
    if timestamp.Some? {
      duration := (end - start) + durationLast;
      assert Spans(cases, timestamp.value, duration, first, last);
    }
  }

  function Count(cases: seq<Case>, n: nat, result: Result): nat
    requires n <= |cases|
  {
    if n == 0 then 0 else Count(cases, n - 1, result) + (if cases[n - 1].result == result then 1 else 0)
  }

  ghost predicate IsSummary(cases: seq<Case>, s: Summary) {
    && s.total == |cases|
    && s.success == Count(cases, |cases|, Success)
    && s.failure == Count(cases, |cases|, Failure)
    && s.error == Count(cases, |cases|, Error)
    && IsTiming(cases, s.timestamp, s.duration)
  }

  lemma {:induction false} ThreeResults(cases: seq<Case>, n: nat)
    requires n <= |cases|
    ensures Count(cases, n, Success) + Count(cases, n, Failure) + Count(cases, n, Error) == n
  {
    if n > 0 {
      ThreeResults(cases, n - 1);
    }
  }

  /** Where the cases with a result are. */
  ghost function With(cases: seq<Case>, n: nat, result: Result): (places: set<int>)
    requires n <= |cases|
  {
    set i | 0 <= i < n && cases[i].result == result
  }

  lemma {:induction false} CountIs(cases: seq<Case>, n: nat, result: Result)
    requires n <= |cases|
    ensures Count(cases, n, result) == |With(cases, n, result)|
  {
    if n > 0 {
      CountIs(cases, n - 1, result);
      if cases[n - 1].result == result {
        assert With(cases, n, result) == With(cases, n - 1, result) + {n - 1};
      } else {
        assert With(cases, n, result) == With(cases, n - 1, result);
      }
    }
  }

  method Summarize(cases: seq<Case>) returns (s: Summary)
    ensures IsSummary(cases, s)
    ensures s.success == |With(cases, |cases|, Success)|
    ensures s.failure == |With(cases, |cases|, Failure)| && s.error == |With(cases, |cases|, Error)|
  {
    CountIs(cases, |cases|, Success);
    CountIs(cases, |cases|, Failure);
    CountIs(cases, |cases|, Error);
    var total := |cases|;
    var errors := Count(cases, |cases|, Error);
    var failures := Count(cases, |cases|, Failure);
    var timestamp, duration := Timing(cases);
    ThreeResults(cases, |cases|);
    s := Summary(total, total - (errors + failures), failures, errors, timestamp, duration);
  }

  // ---- Cases executed one after another

  /** Each timed case starts when those before have finished. */
  ghost predicate OneAfterAnother(cases: seq<Case>) {
    && (forall i :: 0 <= i < |cases| && cases[i].Timed() ==> cases[i].duration >= 0.0)
    && (forall i, j :: 0 <= i < j < |cases| && cases[i].Timed() && cases[j].Timed() ==>
          cases[i].Finish() <= cases[j].Start())
  }

  ghost predicate IsLastTimed(cases: seq<Case>, last: nat) {
    last < |cases| && cases[last].Timed() && forall j :: last < j < |cases| ==> !cases[j].Timed()
  }

  ghost predicate FinishesLast(cases: seq<Case>, t: real) {
    && (exists i :: 0 <= i < |cases| && cases[i].Timed() && cases[i].Finish() == t)
    && (forall i :: 0 <= i < |cases| && cases[i].Timed() ==> cases[i].Finish() <= t)
  }

  ghost predicate StartsAlone(cases: seq<Case>, last: nat)
    requires last < |cases| && cases[last].Timed()
  {
    forall i :: 0 <= i < last && cases[i].Timed() ==> cases[i].Start() < cases[last].Start()
  }

  /** For cases executed one after another, the summary's interval ends when all of them are
      finished if and only if the last one starts alone or takes no time. */
  lemma {:induction false} TimingCoversIff(cases: seq<Case>, stamp: Stamp, duration: real, last: nat)
    requires OneAfterAnother(cases) && IsTiming(cases, Some(stamp), duration) && IsLastTimed(cases, last)
    ensures FinishesLast(cases, stamp.instant + duration)
            <==> StartsAlone(cases, last) || cases[last].duration == 0.0
  {
    var i, k :| Spans(cases, stamp, duration, i, k);
    LastOneFinishesLast(cases, last);
    assert k <= last;
    if k < last {
      assert cases[k].Finish() <= cases[last].Start() <= cases[k].Start();
    }
    if h :| 0 <= h < last && cases[h].Timed() && cases[h].Start() >= cases[last].Start() {
      assert cases[h].Finish() <= cases[last].Start();
    }
  }

  lemma {:induction false} LastOneFinishesLast(cases: seq<Case>, last: nat)
    requires OneAfterAnother(cases) && IsLastTimed(cases, last)
    ensures FinishesLast(cases, cases[last].Finish())
    ensures forall t :: FinishesLast(cases, t) ==> t == cases[last].Finish()
  {
    forall i | 0 <= i < |cases| && cases[i].Timed()
      ensures cases[i].Finish() <= cases[last].Finish()
    {
      assert i <= last;
    }
  }

  // ---- Summaries compose

  /** The suite element written for a summary. */
  function SuiteOf(s: Summary): Suite {
    Suite(map["tests" := s.total, "errors" := s.error, "failures" := s.failure], s.timestamp, s.duration)
  }

  lemma {:induction false} CountOfJoined(xs: seq<Case>, ys: seq<Case>, n: nat, result: Result)
    requires n <= |ys|
    ensures Count(xs + ys, |xs| + n, result) == Count(xs, |xs|, result) + Count(ys, n, result)
  {
    if n == 0 {
      CountOfPrefix(xs, ys, |xs|, result);
    } else {
      CountOfJoined(xs, ys, n - 1, result);
    }
  }

  lemma {:induction false} CountOfPrefix(xs: seq<Case>, ys: seq<Case>, n: nat, result: Result)
    requires n <= |xs|
    ensures Count(xs + ys, n, result) == Count(xs, n, result)
  {
    if n > 0 {
      CountOfPrefix(xs, ys, n - 1, result);
    }
  }

  ghost predicate Untimed(cases: seq<Case>) {
    forall i :: 0 <= i < |cases| ==> !cases[i].Timed()
  }

  /** Some case of the first run starts together with the case that decides the end of the second
      one, and that case takes time. */
  ghost predicate SharesLastStart(xs: seq<Case>, ys: seq<Case>) {
    exists i, k :: 0 <= i < |xs| && xs[i].Timed() && FirstLatest(ys, |ys|, k)
                   && xs[i].Start() == ys[k].Start() && ys[k].duration > 0.0
  }

  lemma {:induction false} PartsOfJoined(xs: seq<Case>, ys: seq<Case>)
    requires OneAfterAnother(xs + ys)
    ensures forall i :: 0 <= i < |xs| && xs[i].Timed() ==> xs[i].duration >= 0.0
    ensures forall i :: 0 <= i < |ys| && ys[i].Timed() ==> ys[i].duration >= 0.0
    ensures forall i, j :: 0 <= i < |xs| && 0 <= j < |ys| && xs[i].Timed() && ys[j].Timed() ==>
              xs[i].Finish() <= ys[j].Start()
  {
    var zs := xs + ys;
    assert forall j :: 0 <= j < |xs| ==> zs[j] == xs[j];
    assert forall j :: 0 <= j < |ys| ==> zs[|xs| + j] == ys[j];
  }

  /** The first case to start as early as any of two runs is that of the first run, if it has one. */
  lemma {:induction false} EarliestOfJoined(xs: seq<Case>, ys: seq<Case>, i: int)
    requires OneAfterAnother(xs + ys) && FirstEarliest(xs + ys, |xs + ys|, i)
    ensures if Untimed(xs) then FirstEarliest(ys, |ys|, i - |xs|) else FirstEarliest(xs, |xs|, i)
  {
    var zs := xs + ys;
    PartsOfJoined(xs, ys);
    assert forall j :: 0 <= j < |xs| ==> zs[j] == xs[j];
    assert forall j :: 0 <= j < |ys| ==> zs[|xs| + j] == ys[j];
    if h :| 0 <= h < |xs| && xs[h].Timed() {
      assert zs[h].Timed();
    }
  }

  lemma {:induction false} EarliestIsOne(cases: seq<Case>, i: int, j: int)
    requires FirstEarliest(cases, |cases|, i) && FirstEarliest(cases, |cases|, j)
    ensures i == j
  {
  }

  lemma {:induction false} LatestIsOne(cases: seq<Case>, i: int, j: int)
    requires FirstLatest(cases, |cases|, i) && FirstLatest(cases, |cases|, j)
    ensures i == j
  {
  }

  /** The first case to start as late as any of two runs: that of the second run, unless one of the
      first run starts at the same instant. */
  lemma {:induction false} LatestOfJoined(xs: seq<Case>, ys: seq<Case>, k: int)
    requires OneAfterAnother(xs + ys) && FirstLatest(xs + ys, |xs + ys|, k)
    ensures if k < |xs| then FirstLatest(xs, |xs|, k) else FirstLatest(ys, |ys|, k - |xs|)
    ensures k >= |xs| ==> forall i :: 0 <= i < |xs| && xs[i].Timed() ==> xs[i].Start() < ys[k - |xs|].Start()
    ensures k < |xs| ==> forall j :: 0 <= j < |ys| && ys[j].Timed() ==> xs[k].Finish() == xs[k].Start() == ys[j].Start()
  {
    var zs := xs + ys;
    PartsOfJoined(xs, ys);
    assert forall j :: 0 <= j < |xs| ==> zs[j] == xs[j];
    assert forall j :: 0 <= j < |ys| ==> zs[|xs| + j] == ys[j];
  }

  /** The interval of two suites, of which the second neither starts nor finishes before the first. */
  ghost predicate IsUnion(attrs: Attrs, a: Suite, b: Suite) {
    && (attrs.timestamp.Some? <==> a.Timed() || b.Timed())
    && (a.Timed() && !b.Timed() ==> attrs.timestamp == a.timestamp && attrs.time == a.time)
    && (b.Timed() && !a.Timed() ==> attrs.timestamp == b.timestamp && attrs.time == b.time)
    && (a.Timed() && b.Timed() && a.Start() <= b.Start() && a.Finish() <= b.Finish() ==>
          attrs.timestamp == a.timestamp && a.Start() + attrs.time == b.Finish())
  }

  lemma {:induction false} HullOfTwo(a: Suite, b: Suite, attrs: Attrs)
    requires IsHull(attrs, [a, b])
    ensures attrs.counts.Keys == COUNTERS
    ensures forall name :: name in COUNTERS ==> attrs.counts[name] == a.Count(name) + b.Count(name)
    ensures IsUnion(attrs, a, b)
  {
    var suites := [a, b];
    assert suites[..1] == [a] && [a][..0] == [];
    forall name | name in COUNTERS
      ensures attrs.counts[name] == a.Count(name) + b.Count(name)
    {
      assert Total([a], name) == a.Count(name);
      assert Total(suites, name) == Total(suites[..1], name) + b.Count(name);
    }
    assert a in suites && b in suites;
  }

  /** Merging the suites of two runs gives the counters and the start of the summary of the two
      runs as one, for cases executed one after another. It gives the same duration as well if and
      only if no case of the first run starts together with the last one of the second, unless that
      takes no time. */
  lemma {:induction false} SummariesCompose(xs: seq<Case>, ys: seq<Case>, a: Summary, b: Summary, s: Summary, attrs: Attrs)
    requires OneAfterAnother(xs + ys)
    requires IsSummary(xs, a) && IsSummary(ys, b) && IsSummary(xs + ys, s)
    requires IsHull(attrs, [SuiteOf(a), SuiteOf(b)])
    ensures attrs.counts == map["tests" := s.total, "errors" := s.error, "failures" := s.failure, "skipped" := 0]
    ensures attrs.timestamp == s.timestamp
    ensures s.timestamp.Some? ==> (attrs.time == s.duration <==> !SharesLastStart(xs, ys))
  {
    CountOfJoined(xs, ys, |ys|, Error);
    CountOfJoined(xs, ys, |ys|, Failure);
    HullOfTwo(SuiteOf(a), SuiteOf(b), attrs);
    if s.timestamp.None? {
      NothingTimed(xs, ys, a, b);
    } else {
      var i, k :| Spans(xs + ys, s.timestamp.value, s.duration, i, k);
      if Untimed(xs) || Untimed(ys) {
        OneRunTimed(xs, ys, a, b, s, i, k);
      } else {
        BothRunsTimed(xs, ys, a, b, s, attrs, i, k);
      }
    }
  }

  lemma {:induction false} NothingTimed(xs: seq<Case>, ys: seq<Case>, a: Summary, b: Summary)
    requires Untimed(xs + ys) && IsTiming(xs, a.timestamp, a.duration) && IsTiming(ys, b.timestamp, b.duration)
    ensures a.timestamp == None && b.timestamp == None
  {
    assert forall j :: 0 <= j < |xs| ==> (xs + ys)[j] == xs[j];
    assert forall j :: 0 <= j < |ys| ==> (xs + ys)[|xs| + j] == ys[j];
  }

  lemma {:induction false} OneRunTimed(xs: seq<Case>, ys: seq<Case>, a: Summary, b: Summary, s: Summary, i: int, k: int)
    requires OneAfterAnother(xs + ys) && (Untimed(xs) || Untimed(ys)) && s.timestamp.Some?
    requires IsTiming(xs, a.timestamp, a.duration) && IsTiming(ys, b.timestamp, b.duration)
    requires Spans(xs + ys, s.timestamp.value, s.duration, i, k)
    ensures !SharesLastStart(xs, ys)
    ensures if Untimed(xs) then a.timestamp == None && b.timestamp == s.timestamp && b.duration == s.duration
            else b.timestamp == None && a.timestamp == s.timestamp && a.duration == s.duration
  {
    EarliestOfJoined(xs, ys, i);
    LatestOfJoined(xs, ys, k);
    if Untimed(xs) {
      var h, l :| Spans(ys, b.timestamp.value, b.duration, h, l);
      EarliestIsOne(ys, h, i - |xs|);
      LatestIsOne(ys, l, k - |xs|);
    } else {
      var h, l :| Spans(xs, a.timestamp.value, a.duration, h, l);
      EarliestIsOne(xs, h, i);
      LatestIsOne(xs, l, k);
    }
  }

  lemma {:induction false} BothRunsTimed(xs: seq<Case>, ys: seq<Case>, a: Summary, b: Summary, s: Summary, attrs: Attrs,
                                         i: int, k: int)
    requires OneAfterAnother(xs + ys) && !Untimed(xs) && !Untimed(ys) && s.timestamp.Some?
    requires IsTiming(xs, a.timestamp, a.duration) && IsTiming(ys, b.timestamp, b.duration)
    requires Spans(xs + ys, s.timestamp.value, s.duration, i, k)
    requires IsUnion(attrs, SuiteOf(a), SuiteOf(b))
    ensures attrs.timestamp == s.timestamp
    ensures attrs.time == s.duration <==> !SharesLastStart(xs, ys)
  {
    var h, l :| Spans(xs, a.timestamp.value, a.duration, h, l);
    var m, n :| Spans(ys, b.timestamp.value, b.duration, m, n);
    PartsOfJoined(xs, ys);
    EarliestOfJoined(xs, ys, i);
    EarliestIsOne(xs, h, i);
    LatestOfJoined(xs, ys, k);
    assert xs[l].Finish() <= ys[n].Start();
    LastStart(xs, ys, k, n);
  }

  lemma {:induction false} LastStart(xs: seq<Case>, ys: seq<Case>, k: int, n: int)
    requires OneAfterAnother(xs + ys) && FirstLatest(xs + ys, |xs + ys|, k) && FirstLatest(ys, |ys|, n)
    ensures (xs + ys)[k].Finish() == ys[n].Finish() <==> !SharesLastStart(xs, ys)
  {
    LatestOfJoined(xs, ys, k);
    PartsOfJoined(xs, ys);
    if SharesLastStart(xs, ys) {
      var i, n' :| 0 <= i < |xs| && xs[i].Timed() && FirstLatest(ys, |ys|, n')
        && xs[i].Start() == ys[n'].Start() && ys[n'].duration > 0.0;
      LatestIsOne(ys, n, n');
    } else if k < |xs| {
      assert xs[k].Start() == ys[n].Start();
    } else {
      LatestIsOne(ys, n, k - |xs|);
    }
  }

  /** Two cases at the same instant, of which the second takes five seconds: as one run they last
      no time, as two merged runs five seconds. */
  lemma {:induction false} SameStartLosesTime(stamp: IsoStamp, a: Summary, b: Summary, s: Summary, attrs: Attrs)
    requires
      var (x, y) := (Case(Success, At(stamp), 0.0), Case(Success, At(stamp), 5.0));
      && IsSummary([x], a) && IsSummary([y], b) && IsSummary([x, y], s)
      && IsHull(attrs, [SuiteOf(a), SuiteOf(b)])
    ensures s.timestamp == attrs.timestamp == Some(stamp) && s.duration == 0.0 && attrs.time == 5.0
    ensures !FinishesLast([Case(Success, At(stamp), 0.0), Case(Success, At(stamp), 5.0)], stamp.instant + s.duration)
  {
    var (x, y) := (Case(Success, At(stamp), 0.0), Case(Success, At(stamp), 5.0));
    assert [x, y][1].Timed();
    assert [x, y][0].Timed() && [x][0].Timed() && [y][0].Timed();
    HullOfTwo(SuiteOf(a), SuiteOf(b), attrs);
  }
}
