/** Merging the attributes of JUnit suites (testdrive/src/testdrive/junit/merge.py). */
module JUnitMerge {
  import opened Outcomes

  /** A date-time text and the instant it names. */
  datatype Stamp = Stamp(text: string, instant: real)

  const COUNTERS := {"tests", "errors", "failures", "skipped"}

  /** A suite's attributes. A missing counter counts as zero, a missing time as 0.0, and a suite
      without a timestamp, or with an empty one, is not timed. */
  datatype Suite = Suite(counts: map<string, int>, timestamp: Option<Stamp>, time: real) {
    predicate Timed() {
      timestamp.Some? && timestamp.value.text != ""
    }

    function Count(name: string): int {
      if name in counts then counts[name] else 0
    }

    function Start(): real
      requires timestamp.Some?
    {
      timestamp.value.instant
    }

    function Finish(): real
      requires timestamp.Some?
    {
      Start() + time
    }
  }

  // ---- What the merged attributes mean

  function Total(suites: seq<Suite>, name: string): int {
    if suites == [] then 0 else Total(suites[..|suites| - 1], name) + suites[|suites| - 1].Count(name)
  }

  ghost predicate AnyTimed(suites: seq<Suite>) {
    exists s :: s in suites && s.Timed()
  }

  ghost predicate IsEarliest(t: real, suites: seq<Suite>) {
    && (exists s :: s in suites && s.Timed() && s.Start() == t)
    && (forall s :: s in suites && s.Timed() ==> t <= s.Start())
  }

  ghost predicate IsLatest(t: real, suites: seq<Suite>) {
    && (exists s :: s in suites && s.Timed() && s.Finish() == t)
    && (forall s :: s in suites && s.Timed() ==> s.Finish() <= t)
  }

  /** The stamp is that of the first suite that starts as early as any. */
  ghost predicate IsFirstEarliest(stamp: Stamp, suites: seq<Suite>) {
    exists i :: 0 <= i < |suites| && suites[i].Timed() && suites[i].timestamp.value == stamp
                && forall j :: 0 <= j < |suites| && suites[j].Timed() ==>
                     if j < i then stamp.instant < suites[j].Start() else stamp.instant <= suites[j].Start()
  }

  /** Summed counters, and the interval from the earliest start to the latest finish. */
  ghost predicate IsHull(attrs: Attrs, suites: seq<Suite>) {
    && (forall name :: name in attrs.counts <==> name in COUNTERS && suites != [])
    && (forall name :: name in attrs.counts ==> attrs.counts[name] == Total(suites, name))
    && (attrs.timestamp.Some? <==> AnyTimed(suites))
    && (attrs.timestamp.Some? ==>
          && IsFirstEarliest(attrs.timestamp.value, suites)
          && IsLatest(attrs.timestamp.value.instant + attrs.time, suites))
  }

  // ---- Combining one more suite

  /** The attributes of the merged element. */
  datatype Attrs = Attrs(counts: map<string, int>, timestamp: Option<Stamp>, time: real)

  function WithCount(counts: map<string, int>, name: string, count: int): map<string, int> {
    counts[name := if name in counts then counts[name] + count else count]
  }

  class Merged {
    var counts: map<string, int>
    var timestamp: Option<Stamp>
    var time: real

    constructor ()
      ensures IsHull(Value(), [])
    {
      counts, timestamp, time := map[], None, 0.0;
    }

    ghost function Value(): Attrs
      reads this
    {
      Attrs(counts, timestamp, time)
    }

    method AddCounts(suite: Suite)
      modifies this`counts
      ensures counts.Keys == old(counts).Keys + COUNTERS
      ensures forall name :: name in counts ==>
                counts[name] == (if name in old(counts) then old(counts)[name] else 0)
                                + (if name in COUNTERS then suite.Count(name) else 0)
    {
      var names := ["tests", "errors", "failures", "skipped"];
      assert forall name :: name in names <==> name in COUNTERS;
      var before := counts;
      for i := 0 to |names|
        invariant forall name :: name in counts <==> name in before || name in names[..i]
        invariant forall name :: name in counts ==>
                    counts[name] == (if name in before then before[name] else 0)
                                    + (if name in names[..i] then suite.Count(name) else 0)
      {
        assert names[i] !in names[..i];
        counts := WithCount(counts, names[i], suite.Count(names[i]));
      }
      assert names[..|names|] == names;
    }

    /** Combines one suite into what was merged from the suites before. */
    method Combine(suite: Suite, ghost suites: seq<Suite>)
      requires IsHull(Value(), suites)
      modifies this
      ensures IsHull(Value(), suites + [suite])
    {
      AddCounts(suite);
      if suite.Timed() {
        var stamp := suite.timestamp.value;
        if timestamp.None? {
          timestamp, time := Some(stamp), suite.time;
        } else {
          var combinedStart := timestamp.value.instant;
          var combinedFinish := combinedStart + time;
          var start := stamp.instant;
          var finish := start + suite.time;
          if start < combinedStart {
            timestamp := Some(stamp);
            if finish < combinedFinish {
              time := time + (combinedStart - start);
            } else {
              time := suite.time;
            }
          } else if combinedFinish < finish {
            time := time + (finish - combinedFinish);
          }
        }
      }
      OneMore(old(Value()), Value(), suites, suite);
    }

    /** Merges a list of suites. */
    method MergeAll(suites: seq<Suite>)
      requires IsHull(Value(), [])
      modifies this
      ensures IsHull(Value(), suites)
    {
      ghost var merged := [];
      for i := 0 to |suites|
        invariant merged == suites[..i]
        invariant IsHull(Value(), merged)
      {
        Combine(suites[i], merged);
        merged := merged + [suites[i]];
      }
      assert merged == suites;
    }
  }

  /** What combining does to the interval. */
  function Stretched(a: Attrs, suite: Suite): (Option<Stamp>, real) {
    if !suite.Timed() then (a.timestamp, a.time)
    else if a.timestamp.None? then (suite.timestamp, suite.time)
    else
      var start := a.timestamp.value.instant;
      var finish := if start + a.time < suite.Finish() then suite.Finish() else start + a.time;
      if suite.Start() < start then (suite.timestamp, finish - suite.Start()) else (a.timestamp, finish - start)
  }

  lemma {:induction false} OneMore(a: Attrs, b: Attrs, suites: seq<Suite>, suite: Suite)
    requires IsHull(a, suites)
    requires b.counts.Keys == a.counts.Keys + COUNTERS
    requires forall name :: name in b.counts ==>
               b.counts[name] == (if name in a.counts then a.counts[name] else 0)
                                 + (if name in COUNTERS then suite.Count(name) else 0)
    requires (b.timestamp, b.time) == Stretched(a, suite)
    ensures IsHull(b, suites + [suite])
  {
    var more := suites + [suite];
    assert more[..|more| - 1] == suites;
    forall name | name in b.counts
      ensures b.counts[name] == Total(more, name)
    {
      if suites == [] {
        assert Total(suites, name) == 0;
      }
    }
    OneMoreInterval(a, b, suites, suite);
  }

  lemma {:induction false} OneMoreInterval(a: Attrs, b: Attrs, suites: seq<Suite>, suite: Suite)
    requires a.timestamp.Some? <==> AnyTimed(suites)
    requires a.timestamp.Some? ==> IsFirstEarliest(a.timestamp.value, suites)
    requires a.timestamp.Some? ==> IsLatest(a.timestamp.value.instant + a.time, suites)
    requires (b.timestamp, b.time) == Stretched(a, suite)
    ensures b.timestamp.Some? <==> AnyTimed(suites + [suite])
    ensures b.timestamp.Some? ==> IsFirstEarliest(b.timestamp.value, suites + [suite])
    ensures b.timestamp.Some? ==> IsLatest(b.timestamp.value.instant + b.time, suites + [suite])
  {
    assert forall s :: s in suites + [suite] <==> s in suites || s == suite;
    if a.timestamp.Some? {
      OneMoreEarliest(a.timestamp.value, suites, suite);
      OneMoreLatest(a.timestamp.value.instant + a.time, suites, suite);
    } else if suite.Timed() {
      assert (suites + [suite])[|suites|] == suite;
    }
  }

  lemma {:induction false} OneMoreEarliest(stamp: Stamp, suites: seq<Suite>, suite: Suite)
    requires IsFirstEarliest(stamp, suites)
    ensures IsFirstEarliest(if suite.Timed() && suite.Start() < stamp.instant then suite.timestamp.value else stamp,
                            suites + [suite])
  {
    var more := suites + [suite];
    assert more[|suites|] == suite;
    var i :| 0 <= i < |suites| && suites[i].Timed() && suites[i].timestamp.value == stamp
      && forall j :: 0 <= j < |suites| && suites[j].Timed() ==>
           if j < i then stamp.instant < suites[j].Start() else stamp.instant <= suites[j].Start();
    assert more[i] == suites[i];
  }

  lemma {:induction false} OneMoreLatest(t: real, suites: seq<Suite>, suite: Suite)
    requires IsLatest(t, suites)
    ensures IsLatest(if suite.Timed() && t < suite.Finish() then suite.Finish() else t, suites + [suite])
  {
    assert forall s :: s in suites + [suite] <==> s in suites || s == suite;
  }

  // ---- The order of the suites

  lemma {:induction false} TotalOfJoined(xs: seq<Suite>, ys: seq<Suite>, name: string)
    ensures Total(xs + ys, name) == Total(xs, name) + Total(ys, name)
  {
    if ys == [] {
      assert xs + ys == xs;
    } else {
      assert (xs + ys)[..|xs + ys| - 1] == xs + ys[..|ys| - 1];
      TotalOfJoined(xs, ys[..|ys| - 1], name);
    }
  }

  lemma {:induction false} TotalOfPermuted(xs: seq<Suite>, ys: seq<Suite>, name: string)
    requires multiset(xs) == multiset(ys)
    ensures Total(xs, name) == Total(ys, name)
  {
    if xs == [] {
      assert |multiset(ys)| == 0;
    } else {
      var n := |xs| - 1;
      var x := xs[n];
      assert x in multiset(ys);
      var i :| 0 <= i < |ys| && ys[i] == x;
      var rest := ys[..i] + ys[i + 1..];
      assert xs == xs[..n] + [x];
      assert ys == ys[..i] + [x] + ys[i + 1..];
      assert multiset(xs[..n]) == multiset(xs) - multiset{x};
      assert multiset(rest) == multiset(ys) - multiset{x};
      TotalOfPermuted(xs[..n], rest, name);
      TotalOfJoined(ys[..i], ys[i + 1..], name);
      TotalOfJoined(ys[..i] + [x], ys[i + 1..], name);
      TotalOfJoined(ys[..i], [x], name);
      assert Total([x], name) == x.Count(name);
    }
  }

  lemma {:induction false} SameSuites(xs: seq<Suite>, ys: seq<Suite>)
    requires multiset(xs) == multiset(ys)
    ensures forall s :: s in xs <==> s in ys
    ensures xs == [] <==> ys == []
  {
    assert forall s :: s in xs <==> s in multiset(xs);
    assert forall s :: s in ys <==> s in multiset(ys);
    assert |multiset(xs)| == |xs| && |multiset(ys)| == |ys|;
  }

  /** Merging the same suites in any order gives the same counters and the same interval of time. */
  lemma {:induction false} OrderDoesNotMatter(xs: seq<Suite>, ys: seq<Suite>, a: Attrs, b: Attrs)
    requires multiset(xs) == multiset(ys)
    requires IsHull(a, xs) && IsHull(b, ys)
    ensures a.counts == b.counts
    ensures a.timestamp.Some? <==> b.timestamp.Some?
    ensures a.timestamp.Some? ==> a.timestamp.value.instant == b.timestamp.value.instant && a.time == b.time
  {
    SameSuites(xs, ys);
    forall name | name in a.counts
      ensures a.counts[name] == b.counts[name]
    {
      TotalOfPermuted(xs, ys, name);
    }
    if a.timestamp.Some? {
      EarliestIs(a.timestamp.value, xs);
      EarliestIs(b.timestamp.value, ys);
    }
  }

  lemma {:induction false} EarliestIs(stamp: Stamp, suites: seq<Suite>)
    requires IsFirstEarliest(stamp, suites)
    ensures IsEarliest(stamp.instant, suites)
  {
  }
}
