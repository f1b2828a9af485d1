/** The clock-class state machine and the analyzer that runs it
    (postprocess/src/vse_sync_pp/analyzers/pmc.py, postprocess/src/vse_sync_pp/analyzers/analyzer.py). */
module ClockState {
  import opened Outcomes

  // Values of the clockClass attribute
  const FREERUN := 248
  const LOCKED := 6
  const HOLDOVER_IN_SPEC := 7
  const HOLDOVER_OUT_OF_SPEC1 := 140
  const HOLDOVER_OUT_OF_SPEC2 := 150
  const HOLDOVER_OUT_OF_SPEC3 := 160

  const STATES := {FREERUN, LOCKED, HOLDOVER_IN_SPEC,
                   HOLDOVER_OUT_OF_SPEC1, HOLDOVER_OUT_OF_SPEC2, HOLDOVER_OUT_OF_SPEC3}

  const OUT_OF_SPEC := {HOLDOVER_OUT_OF_SPEC1, HOLDOVER_OUT_OF_SPEC2, HOLDOVER_OUT_OF_SPEC3}

  predicate Known(clockClass: int)
    ensures Known(clockClass) <==> clockClass in STATES
  {
    || clockClass == FREERUN || clockClass == LOCKED || clockClass == HOLDOVER_IN_SPEC
    || clockClass == HOLDOVER_OUT_OF_SPEC1 || clockClass == HOLDOVER_OUT_OF_SPEC2 || clockClass == HOLDOVER_OUT_OF_SPEC3
  }

  /** The classes that may follow a class. */
  function Successors(state: int): set<int>
    requires Known(state)
  {
    if state == FREERUN then {FREERUN, LOCKED}
    else if state == LOCKED then {LOCKED, HOLDOVER_IN_SPEC}
    else if state == HOLDOVER_IN_SPEC then {LOCKED, HOLDOVER_IN_SPEC} + OUT_OF_SPEC
    else {LOCKED} + OUT_OF_SPEC
  }

  function Upper(s: string): string {
    if s == [] then []
    else [if 'a' <= s[0] <= 'z' then (s[0] as int - 32) as char else s[0]] + Upper(s[1..])
  }

  predicate IsIllegalTransition(state: int, newState: int)
    requires Known(state)
  {
    newState !in Successors(state)
  }

  predicate IsIllegalClockAccuracy(state: int, accuracy: string)
    requires Known(state)
  {
    Upper(accuracy) != Upper(if state == LOCKED then "0x21" else "0xFE")
  }

  predicate IsIllegalVariance(state: int, variance: string)
    requires Known(state)
  {
    Upper(variance) != Upper(if state == LOCKED then "0x4E5D" else "0xFFFF")
  }

  datatype Sample = Sample(timestamp: real, clockClass: int, accuracy: string, variance: string)

  datatype Verdict =
    | NoData
    | ShortDuration
    | ShortSamples
    | WrongClockClass(clockClass: int)
    | IllegalTransition
    | IllegalClockAccuracy
    | IllegalVariance
    | Passed

  // ---- The verdict, by what the samples are

  /** The number of samples before the first one of an unknown class. */
  function KnownPrefix(data: seq<Sample>): (n: nat)
    ensures n <= |data|
    ensures forall i :: 0 <= i < n ==> Known(data[i].clockClass)
    ensures n < |data| ==> !Known(data[n].clockClass)
  {
    if data == [] || !Known(data[0].clockClass) then 0 else 1 + KnownPrefix(data[1..])
  }

  ghost predicate KnownTo(data: seq<Sample>, n: nat)
    requires n <= |data|
  {
    forall i :: 0 <= i < n ==> Known(data[i].clockClass)
  }

  ghost predicate LegalTransitions(data: seq<Sample>, n: nat)
    requires n <= |data| && KnownTo(data, n)
  {
    forall i :: 1 <= i < n ==> !IsIllegalTransition(data[i - 1].clockClass, data[i].clockClass)
  }

  ghost predicate LegalAccuracies(data: seq<Sample>, n: nat)
    requires n <= |data| && KnownTo(data, n)
  {
    forall i :: 1 <= i < n ==> !IsIllegalClockAccuracy(data[i].clockClass, data[i].accuracy)
  }

  ghost predicate LegalVariances(data: seq<Sample>, n: nat)
    requires n <= |data| && KnownTo(data, n)
  {
    forall i :: 1 <= i < n ==> !IsIllegalVariance(data[i].clockClass, data[i].variance)
  }

  predicate LongEnough(data: seq<Sample>, durationMin: real) {
    && data != []
    && data[|data| - 1].timestamp - data[0].timestamp >= durationMin
    && (|data| - 1) as real >= durationMin
  }

  /** The test's verdict. Only the first kind of flaw counts; the first sample's attributes do not. */
  ghost function VerdictOf(data: seq<Sample>, durationMin: real): Verdict {
    if data == [] then NoData
    else if data[|data| - 1].timestamp - data[0].timestamp < durationMin then ShortDuration
    else if (|data| - 1) as real < durationMin then ShortSamples
    else if KnownPrefix(data) < |data| then WrongClockClass(data[KnownPrefix(data)].clockClass)
    else if !LegalTransitions(data, |data|) then IllegalTransition
    else if !LegalAccuracies(data, |data|) then IllegalClockAccuracy
    else if !LegalVariances(data, |data|) then IllegalVariance
    else Passed
  }

  // ---- What is counted

  /** How often s is directly followed by t in the first n classes. */
  function Pairs(cs: seq<int>, n: nat, s: int, t: int): nat
    requires n <= |cs|
  {
    if n < 2 then 0
    else Pairs(cs, n - 1, s, t) + (if cs[n - 2] == s && cs[n - 1] == t then 1 else 0)
  }

  /** How often t occurs in the first n classes, not counting the very first. */
  function Entries(cs: seq<int>, n: nat, t: int): nat
    requires n <= |cs|
  {
    if n < 2 then 0 else Entries(cs, n - 1, t) + (if cs[n - 1] == t then 1 else 0)
  }

  /** How often the class changes in the first n classes. */
  function Changes(cs: seq<int>, n: nat): nat
    requires n <= |cs|
  {
    if n < 2 then 0 else Changes(cs, n - 1) + (if cs[n - 2] != cs[n - 1] then 1 else 0)
  }

  datatype ClassCount = ClassCount(count: nat, transitions: map<int, nat>)

  datatype Counters = Counters(total: nat, classes: map<int, ClassCount>)

  function ZeroCounters(states: set<int>): Counters {
    Counters(0, map s | s in states :: ClassCount(0, map t | t in states :: 0))
  }

  /** There is a counter for samples of class `next` after ones of class `from`. */
  predicate Countable(classes: map<int, ClassCount>, from: int, next: int) {
    from in classes && next in classes && next in classes[from].transitions
  }

  /** The counters after a sample of class `next` that follows one of class `from`. */
  function Counted(classes: map<int, ClassCount>, from: int, next: int): map<int, ClassCount>
    requires Countable(classes, from, next)
  {
    var k := classes[from];
    var left := classes[from := k.(transitions := k.transitions[next := k.transitions[next] + 1])];
    left[next := left[next].(count := left[next].count + 1)]
  }

  /** The counters after the first n classes, one sample at a time. */
  function CountsOf(cs: seq<int>, n: nat, states: set<int>): Counters
    requires n <= |cs|
  {
    if n < 2 then ZeroCounters(states)
    else
      var c := CountsOf(cs, n - 1, states);
      var (from, next) := (cs[n - 2], cs[n - 1]);
      Counters(c.total + (if from != next then 1 else 0),
               if Countable(c.classes, from, next) then Counted(c.classes, from, next) else c.classes)
  }

  /** Every class has a counter, with a column for every class. */
  ghost predicate Square(classes: map<int, ClassCount>, states: set<int>) {
    && classes.Keys == states
    && forall s :: s in classes ==> classes[s].transitions.Keys == states
  }

  lemma {:induction false} CountsAreSquare(cs: seq<int>, n: nat, states: set<int>)
    requires n <= |cs|
    ensures Square(CountsOf(cs, n, states).classes, states)
  {
    if n >= 2 {
      CountsAreSquare(cs, n - 1, states);
    }
  }

  ghost predicate ClassCountIs(k: ClassCount, cs: seq<int>, n: nat, s: int, states: set<int>)
    requires n <= |cs| && k.transitions.Keys == states
  {
    && k.count == Entries(cs, n, s)
    && forall t :: t in states ==> k.transitions[t] == Pairs(cs, n, s, t)
  }

  lemma {:induction false} ClassCountSoFar(classes: map<int, ClassCount>, cs: seq<int>, n: nat, s: int, states: set<int>)
    requires 2 <= n <= |cs| && cs[n - 2] in states && cs[n - 1] in states && s in states
    requires Square(classes, states) && ClassCountIs(classes[s], cs, n - 1, s, states)
    ensures s in Counted(classes, cs[n - 2], cs[n - 1])
    ensures Counted(classes, cs[n - 2], cs[n - 1])[s].transitions.Keys == states
    ensures ClassCountIs(Counted(classes, cs[n - 2], cs[n - 1])[s], cs, n, s, states)
  {
    CountedAt(classes, cs[n - 2], cs[n - 1], s);
    OneCountSoFar(classes[s], Counted(classes, cs[n - 2], cs[n - 1])[s], cs, n, s, states);
  }

  /** What a counted sample changes for one class. */
  ghost predicate CountedOnce(k: ClassCount, k': ClassCount, s: int, from: int, next: int)
    requires next in k.transitions
  {
    && k'.count == k.count + (if s == next then 1 else 0)
    && k'.transitions == if s == from then k.transitions[next := k.transitions[next] + 1] else k.transitions
  }

  lemma {:induction false} CountedAt(classes: map<int, ClassCount>, from: int, next: int, s: int)
    requires Countable(classes, from, next) && s in classes && next in classes[s].transitions
    ensures s in Counted(classes, from, next)
    ensures CountedOnce(classes[s], Counted(classes, from, next)[s], s, from, next)
  {
  }

  lemma {:induction false} OneCountSoFar(k: ClassCount, k': ClassCount, cs: seq<int>, n: nat, s: int, states: set<int>)
    requires 2 <= n <= |cs| && cs[n - 1] in states && k.transitions.Keys == states
    requires ClassCountIs(k, cs, n - 1, s, states) && CountedOnce(k, k', s, cs[n - 2], cs[n - 1])
    ensures k'.transitions.Keys == states && ClassCountIs(k', cs, n, s, states)
  {
  }

  /** What the counters count: every change, every entry into a class, every pair of classes. */
  lemma {:induction false} CountsMean(cs: seq<int>, n: nat, s: int, states: set<int>)
    requires n <= |cs| && (forall i :: 0 <= i < n ==> cs[i] in states) && s in states
    ensures Square(CountsOf(cs, n, states).classes, states)
    ensures CountsOf(cs, n, states).total == Changes(cs, n)
    ensures ClassCountIs(CountsOf(cs, n, states).classes[s], cs, n, s, states)
  {
    CountsAreSquare(cs, n, states);
    if n >= 2 {
      CountsMean(cs, n - 1, s, states);
      ClassCountSoFar(CountsOf(cs, n - 1, states).classes, cs, n, s, states);
    }
  }

  function ClassesOf(data: seq<Sample>): (cs: seq<int>)
    ensures |cs| == |data| && forall i :: 0 <= i < |data| ==> cs[i] == data[i].clockClass
  {
    seq(|data|, i requires 0 <= i < |data| => data[i].clockClass)
  }

  ghost function Classified(data: seq<Sample>, n: nat, states: set<int>): Counters
    requires n <= |data|
  {
    CountsOf(ClassesOf(data), n, states)
  }

  /** The counters after the test: those up to the first unknown class, which is one more change. */
  ghost function CountersAfter(data: seq<Sample>, durationMin: real, states: set<int>): Counters
  {
    if !LongEnough(data, durationMin) then ZeroCounters(states)
    else
      var n := KnownPrefix(data);
      var c := Classified(data, n, states);
      c.(total := c.total + (if n < |data| then 1 else 0))
  }

  // ---- One more sample

  lemma {:induction false} KnownPrefixGrows(data: seq<Sample>, n: nat)
    requires n < |data| && KnownPrefix(data) >= n && Known(data[n].clockClass)
    ensures KnownPrefix(data) >= n + 1
  {
  }

  /** The three flags of the loop. */
  datatype Flags = Flags(transition: bool, accuracy: bool, variance: bool)

  function FlagsAfter(flags: Flags, from: int, sample: Sample): Flags
    requires Known(from) && Known(sample.clockClass)
  {
    Flags(flags.transition || IsIllegalTransition(from, sample.clockClass),
          flags.accuracy || IsIllegalClockAccuracy(sample.clockClass, sample.accuracy),
          flags.variance || IsIllegalVariance(sample.clockClass, sample.variance))
  }

  function FlagsOf(data: seq<Sample>, n: nat): Flags
    requires n <= |data| && KnownPrefix(data) >= n
  {
    if n < 2 then Flags(false, false, false) else FlagsAfter(FlagsOf(data, n - 1), data[n - 2].clockClass, data[n - 1])
  }

  lemma {:induction false} FlagsMean(data: seq<Sample>, n: nat)
    requires n <= |data| && KnownPrefix(data) >= n && KnownTo(data, n)
    ensures FlagsOf(data, n).transition == !LegalTransitions(data, n)
    ensures FlagsOf(data, n).accuracy == !LegalAccuracies(data, n)
    ensures FlagsOf(data, n).variance == !LegalVariances(data, n)
  {
    if n >= 2 {
      FlagsMean(data, n - 1);
    }
  }

  // ---- The analyzer

  /** An analysis of no data is empty. */
  datatype Analysis = Empty | Analysis(timestamp: real, duration: real, counters: Counters)

  function AnalysisOf(data: seq<Sample>, counters: Counters): Analysis {
    if data == [] then Empty
    else Analysis(data[0].timestamp, data[|data| - 1].timestamp - data[0].timestamp, counters)
  }

  /** The test has to look up a counter by class. */
  ghost predicate NeedsCounters(data: seq<Sample>, durationMin: real) {
    LongEnough(data, durationMin) && KnownPrefix(data) >= 2
  }

  class ClockStateAnalyzer {
    const durationMin: real
    var rows: Option<seq<Sample>>
    var data: Option<seq<Sample>>
    var verdict: Option<Verdict>
    var analysis: Option<Analysis>
    var named: bool
    var transitionCount: nat
    var clockClassCount: map<int, ClassCount>

    function Tally(): Counters
      reads this
    {
      Counters(transitionCount, clockClassCount)
    }

    /** Rows are collected until the data are closed, once. The verdict is that of the data, and
        the counters were filled once with it. Only where an analysis was read before any verdict
        that needs the counters do they mean nothing. */
    ghost predicate Valid()
      reads this
    {
      && (rows.Some? <==> data.None?)
      && (verdict.Some? ==> data.Some? && verdict.value == VerdictOf(data.value, durationMin))
      && (named <==> analysis.Some? && analysis.value.Analysis?)
      && (analysis.Some? ==> data.Some?)
      && ((named && verdict.None? && NeedsCounters(data.value, durationMin))
          || (if verdict.Some? then Tally() == CountersAfter(data.value, durationMin, STATES)
              else Tally() == ZeroCounters(STATES)))
    }

    constructor (durationMin: real)
      ensures Valid() && this.durationMin == durationMin
      ensures rows == Some([]) && verdict == None && analysis == None
    {
      this.durationMin := durationMin;
      rows, data, verdict, analysis, named := Some([]), None, None, None, false;
      var zero := ZeroCounters(STATES);
      transitionCount, clockClassCount := zero.total, zero.classes;
    }

    /** Fails once the data are closed. */
    method Collect(more: seq<Sample>) returns (ok: bool)
      requires Valid()
      modifies this`rows
      ensures Valid()
      ensures ok == old(rows).Some?
      ensures rows == if ok then Some(old(rows).value + more) else None
    {
      ok := rows.Some?;
      if ok {
        rows := Some(rows.value + more);
      }
    }

    method Close()
      requires Valid()
      modifies this`rows, this`data
      ensures Valid()
      ensures rows == None
      ensures data == if old(data).Some? then old(data) else old(rows)
    {
      if data.None? {
        data := rows;
        rows := None;
      }
    }

    /** The verdict is decided at the first reading, and every later reading gives the same one
        without counting again. */
    method ReadVerdict() returns (r: Outcome<Verdict>)
      requires Valid()
      modifies this
      ensures Valid()
      ensures rows == None && data == if old(data).Some? then old(data) else old(rows)
      ensures analysis == old(analysis) && named == old(named)
      ensures r.Panicked? <==> old(verdict).None? && named && NeedsCounters(data.value, durationMin)
      ensures r.Panicked? ==> verdict == None
      ensures r.Done? ==> verdict == Some(r.value) && r.value == VerdictOf(data.value, durationMin)
      ensures r.Done? ==> Tally() == CountersAfter(data.value, durationMin, STATES)
    {
      if verdict.None? {
        Close();
        r := Test(data.value, STATES);
        if r.Done? {
          verdict := Some(r.value);
        }
      } else {
        r := Done(verdict.value);
      }
    }

    /** The analysis holds the counters of its first reading: those of the whole test when the
        verdict was read before. It renames the counters, so that no test can count any more. */
    method ReadAnalysis() returns (r: Analysis)
      requires Valid()
      modifies this
      ensures Valid()
      ensures rows == None && data == if old(data).Some? then old(data) else old(rows)
      ensures verdict == old(verdict) && Tally() == old(Tally())
      ensures analysis == Some(r)
      ensures old(analysis).Some? ==> analysis == old(analysis)
      ensures old(analysis).None? ==> r == AnalysisOf(data.value, Tally())
    {
      if analysis.None? {
        Close();
        analysis := Some(AnalysisOf(data.value, Tally()));
        named := data.value != [];
      }
      r := analysis.value;
    }

    /** Counts a sample of class `clockClass` that follows one of class `from`. */
    method CountSample(from: int, clockClass: int)
      requires Countable(clockClassCount, from, clockClass)
      modifies this`clockClassCount
      ensures clockClassCount == Counted(old(clockClassCount), from, clockClass)
    {
      var left := clockClassCount[from];
      clockClassCount := clockClassCount[from := left.(transitions :=
          left.transitions[clockClass := left.transitions[clockClass] + 1])];
      var entered := clockClassCount[clockClass];
      clockClassCount := clockClassCount[clockClass := entered.(count := entered.count + 1)];
    }

    /** Checks one sample after one of class `from`. */
    static method CheckSample(from: int, sample: Sample, flags: Flags) returns (newFlags: Flags)
      requires Known(from) && Known(sample.clockClass)
      ensures newFlags == FlagsAfter(flags, from, sample)
    {
      newFlags := flags;
      if IsIllegalTransition(from, sample.clockClass) {
        newFlags := newFlags.(transition := true);
      }
      if IsIllegalClockAccuracy(sample.clockClass, sample.accuracy) {
        newFlags := newFlags.(accuracy := true);
      }
      if IsIllegalVariance(sample.clockClass, sample.variance) {
        newFlags := newFlags.(variance := true);
      }
    }

    /** One known sample after the first. */
    method TestSample(from: int, sample: Sample, flags: Flags) returns (newFlags: Flags)
      requires Known(from) && Known(sample.clockClass)
      requires Countable(clockClassCount, from, sample.clockClass)
      modifies this`clockClassCount
      ensures clockClassCount == Counted(old(clockClassCount), from, sample.clockClass)
      ensures newFlags == FlagsAfter(flags, from, sample)
    {
      newFlags := CheckSample(from, sample, flags);
      CountSample(from, sample.clockClass);
    }

    /** One pass over the data. */
    method Test(data: seq<Sample>, ghost states: set<int>) returns (r: Outcome<Verdict>)
      requires forall x :: Known(x) ==> x in states
      requires Tally() == ZeroCounters(states) || (named && NeedsCounters(data, durationMin))
      modifies this`transitionCount, this`clockClassCount
      ensures r.Panicked? <==> named && NeedsCounters(data, durationMin)
      ensures r.Done? ==> r.value == VerdictOf(data, durationMin)
      ensures r.Done? ==> Tally() == CountersAfter(data, durationMin, states)
    {
      if |data| == 0 {
        return Done(NoData);
      }
      if data[|data| - 1].timestamp - data[0].timestamp < durationMin {
        return Done(ShortDuration);
      }
      if (|data| - 1) as real < durationMin {
        return Done(ShortSamples);
      }
      r := TestSamples(data, states);
    }

    /** The loop over the samples. Once an analysis was read, the counters are no longer found by
        class, and the second known sample fails. */
    method TestSamples(data: seq<Sample>, ghost states: set<int>) returns (r: Outcome<Verdict>)
      requires forall x :: Known(x) ==> x in states
      requires LongEnough(data, durationMin)
      requires Tally() == ZeroCounters(states) || (named && NeedsCounters(data, durationMin))
      modifies this`transitionCount, this`clockClassCount
      ensures r.Panicked? <==> named && NeedsCounters(data, durationMin)
      ensures r.Done? ==> r.value == VerdictOf(data, durationMin)
      ensures r.Done? ==> Tally() == CountersAfter(data, durationMin, states)
    {
      var state := None;
      var flags := Flags(false, false, false);
      ghost var lost := named && NeedsCounters(data, durationMin);
      for i := 0 to |data|
        invariant KnownPrefix(data) >= i
        invariant state == if i == 0 then None else Some(data[i - 1].clockClass)
        invariant named ==> i <= 1
        invariant lost || Tally() == Classified(data, i, states)
        invariant flags == FlagsOf(data, i)
      {
        var clockClass := data[i].clockClass;
        if state.None? && Known(clockClass) {
          state := Some(clockClass);
        } else {
          if state != Some(clockClass) {
            transitionCount := transitionCount + 1;
          }
          if !Known(clockClass) {
            UnknownAt(data, i, durationMin, states);
            return Done(WrongClockClass(clockClass));
          }
          if named {
            return Panicked;  // the look-up by class fails
          }
          StepAt(data, i, states);
          flags := TestSample(state.value, data[i], flags);
          state := Some(clockClass);
        }
      }
      AllKnown(data, durationMin, states);
      return Done(if flags.transition then IllegalTransition
                  else if flags.accuracy then IllegalClockAccuracy
                  else if flags.variance then IllegalVariance
                  else Passed);
    }
  }

  lemma {:induction false} StepAt(data: seq<Sample>, n: nat, states: set<int>)
    requires 1 <= n < |data| && KnownPrefix(data) >= n && Known(data[n].clockClass)
    requires forall x :: Known(x) ==> x in states
    ensures KnownPrefix(data) >= n + 1
    ensures FlagsOf(data, n + 1) == FlagsAfter(FlagsOf(data, n), data[n - 1].clockClass, data[n])
    ensures
      var c := Classified(data, n, states);
      var (from, next) := (data[n - 1].clockClass, data[n].clockClass);
      && Countable(c.classes, from, next)
      && Classified(data, n + 1, states) ==
           Counters(c.total + (if from != next then 1 else 0), Counted(c.classes, from, next))
  {
    KnownPrefixGrows(data, n);
    CountsAreSquare(ClassesOf(data), n, states);
  }

  lemma {:induction false} UnknownAt(data: seq<Sample>, n: nat, durationMin: real, states: set<int>)
    requires LongEnough(data, durationMin) && n < |data| && KnownPrefix(data) >= n && !Known(data[n].clockClass)
    requires forall x :: Known(x) ==> x in states
    ensures KnownPrefix(data) == n
    ensures VerdictOf(data, durationMin) == WrongClockClass(data[n].clockClass)
    ensures CountersAfter(data, durationMin, states)
         == Classified(data, n, states).(total := Classified(data, n, states).total + 1)
  {
  }

  lemma {:induction false} AllKnown(data: seq<Sample>, durationMin: real, states: set<int>)
    requires LongEnough(data, durationMin) && KnownPrefix(data) >= |data|
    requires forall x :: Known(x) ==> x in states
    ensures CountersAfter(data, durationMin, states) == Classified(data, |data|, states)
    ensures VerdictOf(data, durationMin) ==
              var flags := FlagsOf(data, |data|);
              if flags.transition then IllegalTransition
              else if flags.accuracy then IllegalClockAccuracy
              else if flags.variance then IllegalVariance
              else Passed
  {
    FlagsMean(data, |data|);
  }

  /** The same two samples: with a verdict when it is read first, and with none after the analysis. */
  method AnalysisReadFirst() returns (before: Outcome<Verdict>, after: Outcome<Verdict>)
    ensures before.Done? && after.Panicked?
  {
    var samples := [Sample(0.0, LOCKED, "0x21", "0x4E5D"), Sample(1.0, LOCKED, "0x21", "0x4E5D")];
    var analyzer := new ClockStateAnalyzer(1.0);
    var _ := analyzer.Collect(samples);
    before := analyzer.ReadVerdict();
    analyzer := new ClockStateAnalyzer(1.0);
    var _ := analyzer.Collect(samples);
    var _ := analyzer.ReadAnalysis();
    assert [] + samples == samples;
    assert samples[1..][0].clockClass == LOCKED;
    after := analyzer.ReadVerdict();
  }
}
