/** What the transition matrix of the clock-class test says about the run of classes
    (postprocess/src/vse_sync_pp/analyzers/pmc.py, tests/sync/G.8272/phc/state-transitions/plot.py). */
module ClockFlow {
  import opened ClockState

  // ---- Sums over the matrix

  function RowSum(classes: map<int, ClassCount>, s: int): nat
    requires Square(classes, STATES) && s in STATES
  {
    var row := classes[s].transitions;
    row[FREERUN] + row[LOCKED] + row[HOLDOVER_IN_SPEC]
    + row[HOLDOVER_OUT_OF_SPEC1] + row[HOLDOVER_OUT_OF_SPEC2] + row[HOLDOVER_OUT_OF_SPEC3]
  }

  function Cell(classes: map<int, ClassCount>, s: int, t: int): nat
    requires Square(classes, STATES) && s in STATES && t in STATES
  {
    classes[s].transitions[t]
  }

  function ColumnSum(classes: map<int, ClassCount>, t: int): nat
    requires Square(classes, STATES) && t in STATES
  {
    Cell(classes, FREERUN, t) + Cell(classes, LOCKED, t) + Cell(classes, HOLDOVER_IN_SPEC, t)
    + Cell(classes, HOLDOVER_OUT_OF_SPEC1, t) + Cell(classes, HOLDOVER_OUT_OF_SPEC2, t)
    + Cell(classes, HOLDOVER_OUT_OF_SPEC3, t)
  }

  function MatrixSum(classes: map<int, ClassCount>): nat
    requires Square(classes, STATES)
  {
    RowSum(classes, FREERUN) + RowSum(classes, LOCKED) + RowSum(classes, HOLDOVER_IN_SPEC)
    + RowSum(classes, HOLDOVER_OUT_OF_SPEC1) + RowSum(classes, HOLDOVER_OUT_OF_SPEC2)
    + RowSum(classes, HOLDOVER_OUT_OF_SPEC3)
  }

  function Diagonal(classes: map<int, ClassCount>): nat
    requires Square(classes, STATES)
  {
    Cell(classes, FREERUN, FREERUN) + Cell(classes, LOCKED, LOCKED)
    + Cell(classes, HOLDOVER_IN_SPEC, HOLDOVER_IN_SPEC)
    + Cell(classes, HOLDOVER_OUT_OF_SPEC1, HOLDOVER_OUT_OF_SPEC1)
    + Cell(classes, HOLDOVER_OUT_OF_SPEC2, HOLDOVER_OUT_OF_SPEC2)
    + Cell(classes, HOLDOVER_OUT_OF_SPEC3, HOLDOVER_OUT_OF_SPEC3)
  }

  // ---- The same sums over a run of classes

  /** How often s occurs before the last of the first n classes. */
  function Exits(cs: seq<int>, n: nat, s: int): nat
    requires n <= |cs|
  {
    if n < 2 then 0 else Exits(cs, n - 1, s) + (if cs[n - 2] == s then 1 else 0)
  }

  /** How often a class is followed by itself. */
  function Stays(cs: seq<int>, n: nat): nat
    requires n <= |cs|
  {
    if n < 2 then 0 else Stays(cs, n - 1) + (if cs[n - 2] == cs[n - 1] then 1 else 0)
  }

  ghost predicate KnownRun(cs: seq<int>, n: nat)
    requires n <= |cs|
  {
    forall i :: 0 <= i < n ==> Known(cs[i])
  }

  lemma {:induction false} RowOfPairs(cs: seq<int>, n: nat, s: int)
    requires n <= |cs| && KnownRun(cs, n)
    ensures Pairs(cs, n, s, FREERUN) + Pairs(cs, n, s, LOCKED) + Pairs(cs, n, s, HOLDOVER_IN_SPEC)
            + Pairs(cs, n, s, HOLDOVER_OUT_OF_SPEC1) + Pairs(cs, n, s, HOLDOVER_OUT_OF_SPEC2)
            + Pairs(cs, n, s, HOLDOVER_OUT_OF_SPEC3) == Exits(cs, n, s)
  {
    if n >= 2 {
      RowOfPairs(cs, n - 1, s);
      assert Known(cs[n - 1]);
    }
  }

  lemma {:induction false} ColumnOfPairs(cs: seq<int>, n: nat, t: int)
    requires n <= |cs| && KnownRun(cs, n)
    ensures Pairs(cs, n, FREERUN, t) + Pairs(cs, n, LOCKED, t) + Pairs(cs, n, HOLDOVER_IN_SPEC, t)
            + Pairs(cs, n, HOLDOVER_OUT_OF_SPEC1, t) + Pairs(cs, n, HOLDOVER_OUT_OF_SPEC2, t)
            + Pairs(cs, n, HOLDOVER_OUT_OF_SPEC3, t) == Entries(cs, n, t)
  {
    if n >= 2 {
      ColumnOfPairs(cs, n - 1, t);
      assert Known(cs[n - 2]);
    }
  }

  lemma {:induction false} DiagonalOfPairs(cs: seq<int>, n: nat)
    requires n <= |cs| && KnownRun(cs, n)
    ensures Pairs(cs, n, FREERUN, FREERUN) + Pairs(cs, n, LOCKED, LOCKED)
            + Pairs(cs, n, HOLDOVER_IN_SPEC, HOLDOVER_IN_SPEC)
            + Pairs(cs, n, HOLDOVER_OUT_OF_SPEC1, HOLDOVER_OUT_OF_SPEC1)
            + Pairs(cs, n, HOLDOVER_OUT_OF_SPEC2, HOLDOVER_OUT_OF_SPEC2)
            + Pairs(cs, n, HOLDOVER_OUT_OF_SPEC3, HOLDOVER_OUT_OF_SPEC3) == Stays(cs, n)
  {
    if n >= 2 {
      DiagonalOfPairs(cs, n - 1);
      assert Known(cs[n - 2]);
    }
  }

  lemma {:induction false} AllExits(cs: seq<int>, n: nat)
    requires 1 <= n <= |cs| && KnownRun(cs, n)
    ensures Exits(cs, n, FREERUN) + Exits(cs, n, LOCKED) + Exits(cs, n, HOLDOVER_IN_SPEC)
            + Exits(cs, n, HOLDOVER_OUT_OF_SPEC1) + Exits(cs, n, HOLDOVER_OUT_OF_SPEC2)
            + Exits(cs, n, HOLDOVER_OUT_OF_SPEC3) == n - 1
    ensures Changes(cs, n) + Stays(cs, n) == n - 1
  {
    if n >= 2 {
      AllExits(cs, n - 1);
      assert Known(cs[n - 2]);
    }
  }

  lemma {:induction false} ExitsAndEntries(cs: seq<int>, n: nat, s: int)
    requires 1 <= n <= |cs|
    ensures Exits(cs, n, s) - Entries(cs, n, s) == (if cs[0] == s then 1 else 0) - (if cs[n - 1] == s then 1 else 0)
  {
    if n >= 2 {
      ExitsAndEntries(cs, n - 1, s);
    }
  }

  // ---- The matrix of a test

  /** The matrix after the first n samples, all of known classes. */
  ghost predicate MatrixOf(classes: map<int, ClassCount>, cs: seq<int>, n: nat)
    requires n <= |cs|
  {
    && Square(classes, STATES)
    && forall s :: s in STATES ==> ClassCountIs(classes[s], cs, n, s, STATES)
  }

  lemma {:induction false} TestFillsMatrix(data: seq<Sample>, durationMin: real)
    requires LongEnough(data, durationMin)
    ensures
      var n := KnownPrefix(data);
      var c := CountersAfter(data, durationMin, STATES);
      && KnownRun(ClassesOf(data), n)
      && MatrixOf(c.classes, ClassesOf(data), n)
      && c.total == Changes(ClassesOf(data), n) + (if n < |data| then 1 else 0)
  {
    var n := KnownPrefix(data);
    var cs := ClassesOf(data);
    CountsMean(cs, n, FREERUN, STATES);
    var classes := CountsOf(cs, n, STATES).classes;
    forall s | s in STATES
      ensures ClassCountIs(classes[s], cs, n, s, STATES)
    {
      CountsMean(cs, n, s, STATES);
    }
  }

  lemma {:induction false} RowIs(classes: map<int, ClassCount>, cs: seq<int>, n: nat, s: int)
    requires n <= |cs| && KnownRun(cs, n) && MatrixOf(classes, cs, n) && s in STATES
    ensures RowSum(classes, s) == Exits(cs, n, s)
  {
    RowOfPairs(cs, n, s);
    assert ClassCountIs(classes[s], cs, n, s, STATES);
  }

  lemma {:induction false} CellIs(classes: map<int, ClassCount>, cs: seq<int>, n: nat, s: int, t: int)
    requires n <= |cs| && MatrixOf(classes, cs, n) && s in STATES && t in STATES
    ensures Cell(classes, s, t) == Pairs(cs, n, s, t)
  {
    assert ClassCountIs(classes[s], cs, n, s, STATES);
  }

  lemma {:induction false} ColumnIs(classes: map<int, ClassCount>, cs: seq<int>, n: nat, t: int)
    requires n <= |cs| && KnownRun(cs, n) && MatrixOf(classes, cs, n) && t in STATES
    ensures ColumnSum(classes, t) == Entries(cs, n, t) == classes[t].count
  {
    ColumnOfPairs(cs, n, t);
    CellIs(classes, cs, n, FREERUN, t);
    CellIs(classes, cs, n, LOCKED, t);
    CellIs(classes, cs, n, HOLDOVER_IN_SPEC, t);
    CellIs(classes, cs, n, HOLDOVER_OUT_OF_SPEC1, t);
    CellIs(classes, cs, n, HOLDOVER_OUT_OF_SPEC2, t);
    CellIs(classes, cs, n, HOLDOVER_OUT_OF_SPEC3, t);
    assert ClassCountIs(classes[t], cs, n, t, STATES);
  }

  lemma {:induction false} DiagonalIs(classes: map<int, ClassCount>, cs: seq<int>, n: nat)
    requires n <= |cs| && KnownRun(cs, n) && MatrixOf(classes, cs, n)
    ensures Diagonal(classes) == Stays(cs, n)
  {
    DiagonalOfPairs(cs, n);
    CellIs(classes, cs, n, FREERUN, FREERUN);
    CellIs(classes, cs, n, LOCKED, LOCKED);
    CellIs(classes, cs, n, HOLDOVER_IN_SPEC, HOLDOVER_IN_SPEC);
    CellIs(classes, cs, n, HOLDOVER_OUT_OF_SPEC1, HOLDOVER_OUT_OF_SPEC1);
    CellIs(classes, cs, n, HOLDOVER_OUT_OF_SPEC2, HOLDOVER_OUT_OF_SPEC2);
    CellIs(classes, cs, n, HOLDOVER_OUT_OF_SPEC3, HOLDOVER_OUT_OF_SPEC3);
  }

  lemma {:induction false} MatrixSumIs(classes: map<int, ClassCount>, cs: seq<int>, n: nat)
    requires 1 <= n <= |cs| && KnownRun(cs, n) && MatrixOf(classes, cs, n)
    ensures MatrixSum(classes) == n - 1
    ensures Diagonal(classes) + Changes(cs, n) == n - 1
  {
    AllExits(cs, n);
    RowIs(classes, cs, n, FREERUN);
    RowIs(classes, cs, n, LOCKED);
    RowIs(classes, cs, n, HOLDOVER_IN_SPEC);
    RowIs(classes, cs, n, HOLDOVER_OUT_OF_SPEC1);
    RowIs(classes, cs, n, HOLDOVER_OUT_OF_SPEC2);
    RowIs(classes, cs, n, HOLDOVER_OUT_OF_SPEC3);
    DiagonalIs(classes, cs, n);
  }

  /** The flow through a class: every sample but the first enters one, every sample but the last
      leaves one. n samples make n - 1 transitions, and the changes are those off the diagonal.
      A sample of an unknown class ends the test and is one more change. */
  lemma {:induction false} FlowIsConserved(data: seq<Sample>, durationMin: real, s: int)
    requires LongEnough(data, durationMin) && KnownPrefix(data) >= 1 && s in STATES
    ensures
      var n := KnownPrefix(data);
      var c := CountersAfter(data, durationMin, STATES);
      && Square(c.classes, STATES)
      && MatrixSum(c.classes) == n - 1
      && c.total == MatrixSum(c.classes) - Diagonal(c.classes) + (if n < |data| then 1 else 0)
      && ColumnSum(c.classes, s) == c.classes[s].count
      && RowSum(c.classes, s) - ColumnSum(c.classes, s)
         == (if data[0].clockClass == s then 1 else 0) - (if data[n - 1].clockClass == s then 1 else 0)
  {
    TestFillsMatrix(data, durationMin);
    var cs := ClassesOf(data);
    FlowThrough(CountersAfter(data, durationMin, STATES).classes, cs, KnownPrefix(data), s);
    assert cs[0] == data[0].clockClass && cs[KnownPrefix(data) - 1] == data[KnownPrefix(data) - 1].clockClass;
  }

  lemma {:induction false} FlowThrough(classes: map<int, ClassCount>, cs: seq<int>, n: nat, s: int)
    requires 1 <= n <= |cs| && KnownRun(cs, n) && MatrixOf(classes, cs, n) && s in STATES
    ensures MatrixSum(classes) == n - 1 && Changes(cs, n) == MatrixSum(classes) - Diagonal(classes)
    ensures ColumnSum(classes, s) == classes[s].count
    ensures RowSum(classes, s) - ColumnSum(classes, s)
         == (if cs[0] == s then 1 else 0) - (if cs[n - 1] == s then 1 else 0)
  {
    MatrixSumIs(classes, cs, n);
    ColumnIs(classes, cs, n, s);
    RowIs(classes, cs, n, s);
    ExitsAndEntries(cs, n, s);
  }

  // ---- The heat map

  /** The classes in the order of the heat map's rows (from) and columns (to). */
  const AXIS := [FREERUN, LOCKED, HOLDOVER_IN_SPEC,
                 HOLDOVER_OUT_OF_SPEC1, HOLDOVER_OUT_OF_SPEC2, HOLDOVER_OUT_OF_SPEC3]

  /** The cells drawn in red when they hold a count. */
  const RED_CELLS := {(0, 2), (0, 3), (0, 4), (0, 5),
                      (1, 0), (1, 3), (1, 4), (1, 5),
                      (2, 0),
                      (3, 0), (3, 2),
                      (4, 0), (4, 2),
                      (5, 0), (5, 2)}

  ghost predicate Red(classes: map<int, ClassCount>, row: int, column: int)
    requires Square(classes, STATES)
  {
    && 0 <= row < 6 && 0 <= column < 6
    && (row, column) in RED_CELLS
    && Cell(classes, AXIS[row], AXIS[column]) >= 1
  }

  lemma {:induction false} RedIsIllegal(row: nat, column: nat)
    requires row < 6 && column < 6
    ensures Known(AXIS[row]) && Known(AXIS[column])
    ensures (row, column) in RED_CELLS <==> IsIllegalTransition(AXIS[row], AXIS[column])
  {
  }

  function OnAxis(clockClass: int): (i: nat)
    requires Known(clockClass)
    ensures i < 6 && AXIS[i] == clockClass
  {
    if clockClass == FREERUN then 0
    else if clockClass == LOCKED then 1
    else if clockClass == HOLDOVER_IN_SPEC then 2
    else if clockClass == HOLDOVER_OUT_OF_SPEC1 then 3
    else if clockClass == HOLDOVER_OUT_OF_SPEC2 then 4
    else 5
  }

  lemma {:induction false} CountedPair(cs: seq<int>, n: nat, s: int, t: int) returns (i: int)
    requires n <= |cs|
    ensures Pairs(cs, n, s, t) >= 1 ==> 1 <= i < n && cs[i - 1] == s && cs[i] == t
  {
    i := 0;
    if n >= 2 {
      if cs[n - 2] == s && cs[n - 1] == t {
        i := n - 1;
      } else {
        i := CountedPair(cs, n - 1, s, t);
      }
    }
  }

  lemma {:induction false} PairIsCounted(cs: seq<int>, n: nat, i: nat)
    requires 1 <= i < n <= |cs|
    ensures Pairs(cs, n, cs[i - 1], cs[i]) >= 1
  {
    if i < n - 1 {
      PairIsCounted(cs, n - 1, i);
    }
  }

  lemma {:induction false} RedMeansIllegal(classes: map<int, ClassCount>, data: seq<Sample>, n: nat, row: int, column: int)
    requires n <= |data| && KnownTo(data, n) && MatrixOf(classes, ClassesOf(data), n) && Red(classes, row, column)
    ensures !LegalTransitions(data, n)
  {
    RedIsIllegal(row, column);
    CellIs(classes, ClassesOf(data), n, AXIS[row], AXIS[column]);
    var i := CountedPair(ClassesOf(data), n, AXIS[row], AXIS[column]);
    assert IsIllegalTransition(data[i - 1].clockClass, data[i].clockClass);
  }

  lemma {:induction false} IllegalShowsRed(classes: map<int, ClassCount>, data: seq<Sample>, n: nat)
    returns (row: int, column: int)
    requires n <= |data| && KnownTo(data, n) && MatrixOf(classes, ClassesOf(data), n) && !LegalTransitions(data, n)
    ensures Red(classes, row, column)
  {
    var cs := ClassesOf(data);
    var i := IllegalStep(data, n);
    row, column := OnAxis(cs[i - 1]), OnAxis(cs[i]);
    IllegalPairIsRed(classes, cs, n, i, row, column);
  }

  lemma {:induction false} IllegalStep(data: seq<Sample>, n: nat) returns (i: nat)
    requires n <= |data| && KnownTo(data, n) && !LegalTransitions(data, n)
    ensures 1 <= i < n && Known(data[i - 1].clockClass) && Known(data[i].clockClass)
    ensures IsIllegalTransition(data[i - 1].clockClass, data[i].clockClass)
  {
    i :| 1 <= i < n && IsIllegalTransition(data[i - 1].clockClass, data[i].clockClass);
  }

  lemma {:induction false} IllegalPairIsRed(classes: map<int, ClassCount>, cs: seq<int>, n: nat, i: nat, row: nat, column: nat)
    requires 1 <= i < n <= |cs| && MatrixOf(classes, cs, n)
    requires row < 6 && column < 6 && AXIS[row] == cs[i - 1] && AXIS[column] == cs[i]
    requires IsIllegalTransition(cs[i - 1], cs[i])
    ensures Red(classes, row, column)
  {
    PairIsCounted(cs, n, i);
    RedIsIllegal(row, column);
    CellIs(classes, cs, n, cs[i - 1], cs[i]);
  }

  /** A red cell shows if and only if some sample's class may not follow the one before. */
  lemma {:induction false} RedIffIllegal(data: seq<Sample>, durationMin: real)
    requires LongEnough(data, durationMin)
    ensures
      var n := KnownPrefix(data);
      var classes := CountersAfter(data, durationMin, STATES).classes;
      && Square(classes, STATES)
      && ((exists row, column :: Red(classes, row, column)) <==> !LegalTransitions(data, n))
  {
    var n := KnownPrefix(data);
    var classes := CountersAfter(data, durationMin, STATES).classes;
    TestFillsMatrix(data, durationMin);
    if row, column :| Red(classes, row, column) {
      RedMeansIllegal(classes, data, n, row, column);
    }
    if !LegalTransitions(data, n) {
      var row, column := IllegalShowsRed(classes, data, n);
    }
  }

  // ---- What an accepted run can do

  ghost predicate Accepted(data: seq<Sample>, durationMin: real) {
    VerdictOf(data, durationMin) == Passed
  }

  /** The same letters, but for upper and lower case. */
  predicate SameLetter(c: char, d: char) {
    c == d || ('a' <= c <= 'z' && c as int - d as int == 32) || ('a' <= d <= 'z' && d as int - c as int == 32)
  }

  predicate SameButCase(s: string, t: string) {
    |s| == |t| && forall i :: 0 <= i < |s| ==> SameLetter(s[i], t[i])
  }

  lemma {:induction false} UpperIff(s: string, t: string)
    ensures Upper(s) == Upper(t) <==> SameButCase(s, t)
  {
    UpperAt(s);
    UpperAt(t);
    if Upper(s) == Upper(t) {
      forall i | 0 <= i < |s|
        ensures SameLetter(s[i], t[i])
      {
        assert Upper(s)[i] == Upper(t)[i];
      }
    }
  }

  lemma {:induction false} UpperAt(s: string)
    ensures |Upper(s)| == |s|
    ensures forall i :: 0 <= i < |s| ==> Upper(s)[i] == if 'a' <= s[i] <= 'z' then (s[i] as int - 32) as char else s[i]
  {
    if s != "" {
      UpperAt(s[1..]);
    }
  }

  /** The accuracy and the variance that go with class 6, and with every other class. */
  predicate AccuracyFits(d: Sample) {
    SameButCase(d.accuracy, if d.clockClass == 6 then "0x21" else "0xFE")
  }

  predicate VarianceFits(d: Sample) {
    SameButCase(d.variance, if d.clockClass == 6 then "0x4E5D" else "0xFFFF")
  }

  lemma {:induction false} AttributesIff(d: Sample)
    requires Known(d.clockClass)
    ensures IsIllegalClockAccuracy(d.clockClass, d.accuracy) <==> !AccuracyFits(d)
    ensures IsIllegalVariance(d.clockClass, d.variance) <==> !VarianceFits(d)
  {
    UpperIff(d.accuracy, if d.clockClass == 6 then "0x21" else "0xFE");
    UpperIff(d.variance, if d.clockClass == 6 then "0x4E5D" else "0xFFFF");
  }

  ghost predicate AccuraciesFit(data: seq<Sample>) {
    forall i :: 1 <= i < |data| ==> AccuracyFits(data[i])
  }

  ghost predicate VariancesFit(data: seq<Sample>) {
    forall i :: 1 <= i < |data| ==> VarianceFits(data[i])
  }

  lemma {:induction false} LegalAttributesIff(data: seq<Sample>)
    requires KnownTo(data, |data|)
    ensures LegalAccuracies(data, |data|) <==> AccuraciesFit(data)
    ensures LegalVariances(data, |data|) <==> VariancesFit(data)
  {
    forall i | 0 <= i < |data|
      ensures IsIllegalClockAccuracy(data[i].clockClass, data[i].accuracy) <==> !AccuracyFits(data[i])
      ensures IsIllegalVariance(data[i].clockClass, data[i].variance) <==> !VarianceFits(data[i])
    {
      AttributesIff(data[i]);
    }
  }

  /** The pairs of classes that may follow one another. */
  predicate MayFollow(c: int, d: int) {
    match c
    case 248 => d in {248, 6}
    case 6 => d in {6, 7}
    case 7 => d in {6, 7, 140, 150, 160}
    case _ => c in {140, 150, 160} && d in {6, 140, 150, 160}
  }

  ghost predicate Follows(data: seq<Sample>) {
    forall i :: 1 <= i < |data| ==> MayFollow(data[i - 1].clockClass, data[i].clockClass)
  }

  ghost predicate InClasses(data: seq<Sample>) {
    forall i :: 0 <= i < |data| ==> data[i].clockClass in {6, 7, 140, 150, 160, 248}
  }

  lemma {:induction false} LegalTransitionsIff(data: seq<Sample>)
    ensures KnownTo(data, |data|) <==> InClasses(data)
    ensures KnownTo(data, |data|) ==> (LegalTransitions(data, |data|) <==> Follows(data))
  {
    forall i | 0 <= i < |data|
      ensures Known(data[i].clockClass) <==> data[i].clockClass in {6, 7, 140, 150, 160, 248}
    {
    }
    if KnownTo(data, |data|) {
      forall i | 1 <= i < |data|
        ensures IsIllegalTransition(data[i - 1].clockClass, data[i].clockClass)
                <==> !MayFollow(data[i - 1].clockClass, data[i].clockClass)
      {
        TransitionIff(data[i - 1].clockClass, data[i].clockClass);
      }
    }
  }

  lemma {:induction false} TransitionIff(c: int, d: int)
    requires Known(c) && Known(d)
    ensures IsIllegalTransition(c, d) <==> !MayFollow(c, d)
  {
  }

  /** As many seconds from the first to the last sample, and as many samples after the first. */
  predicate Lasts(data: seq<Sample>, durationMin: real) {
    && |data| > 0
    && data[0].timestamp + durationMin <= data[|data| - 1].timestamp
    && durationMin + 1.0 <= |data| as real
  }

  /** A run passes if and only if it lasts, all classes are known ones, each may follow the one before,
      and from the second sample on the attributes are those of the class, in upper or lower case. */
  lemma {:induction false} AcceptedIff(data: seq<Sample>, durationMin: real)
    ensures Accepted(data, durationMin) <==>
      Lasts(data, durationMin) && InClasses(data) && Follows(data) && AccuraciesFit(data) && VariancesFit(data)
  {
    LegalTransitionsIff(data);
    if KnownTo(data, |data|) {
      LegalAttributesIff(data);
    }
  }

  /** Of several flaws, the verdict names one whose kind comes first: a transition before an accuracy,
      and that before a variance. */
  lemma {:induction false} FlawIff(data: seq<Sample>, durationMin: real)
    requires Lasts(data, durationMin) && InClasses(data)
    ensures VerdictOf(data, durationMin) == IllegalTransition <==> !Follows(data)
    ensures VerdictOf(data, durationMin) == IllegalClockAccuracy <==> Follows(data) && !AccuraciesFit(data)
    ensures VerdictOf(data, durationMin) == IllegalVariance <==>
              Follows(data) && AccuraciesFit(data) && !VariancesFit(data)
  {
    LegalTransitionsIff(data);
    LegalAttributesIff(data);
  }

  /** A sample of an unknown class hides all flaws before and behind it; a run that does not last hides
      everything, its time before its number of samples. */
  lemma {:induction false} HidingIff(data: seq<Sample>, durationMin: real)
    ensures VerdictOf(data, durationMin) == NoData <==> |data| == 0
    ensures VerdictOf(data, durationMin) == ShortDuration <==>
              |data| > 0 && data[|data| - 1].timestamp < data[0].timestamp + durationMin
    ensures VerdictOf(data, durationMin) == ShortSamples <==>
              |data| > 0 && data[0].timestamp + durationMin <= data[|data| - 1].timestamp && |data| as real < durationMin + 1.0
    ensures forall c :: VerdictOf(data, durationMin) == WrongClockClass(c) <==> Lasts(data, durationMin) && FirstUnknown(data, c)
  {
    var n := KnownPrefix(data);
    UnknownIsFirst(data);
    if n == |data| {
      forall c
        ensures !FirstUnknown(data, c)
      {
      }
    }
  }

  ghost predicate FirstUnknown(data: seq<Sample>, c: int) {
    exists n :: 0 <= n < |data| && IsUnknownAt(data, n) && data[n].clockClass == c
             && forall i :: 0 <= i < n ==> !IsUnknownAt(data, i)
  }

  predicate IsUnknownAt(data: seq<Sample>, i: nat)
    requires i < |data|
  {
    data[i].clockClass !in {6, 7, 140, 150, 160, 248}
  }

  lemma {:induction false} UnknownIsFirst(data: seq<Sample>)
    ensures
      var n := KnownPrefix(data);
      && (forall i :: 0 <= i < n ==> !IsUnknownAt(data, i))
      && (n < |data| ==> IsUnknownAt(data, n) && forall c :: FirstUnknown(data, c) <==> c == data[n].clockClass)
  {
    var n := KnownPrefix(data);
    forall i | 0 <= i < |data|
      ensures IsUnknownAt(data, i) <==> !Known(data[i].clockClass)
    {
    }
  }

  /** FREERUN is never entered again once left. */
  lemma {:induction false} FreerunIsNotReentered(data: seq<Sample>, durationMin: real, i: nat, j: nat)
    requires Accepted(data, durationMin) && i <= j < |data| && data[j].clockClass == FREERUN
    ensures data[i].clockClass == FREERUN
    decreases j - i
  {
    if i < j {
      FreerunIsNotReentered(data, durationMin, i + 1, j);
    }
  }

  /** While a run keeps out of class `gate`, it stays in any set of classes that can be left only
      through `gate`. */
  lemma {:induction false} StaysInside(data: seq<Sample>, durationMin: real, i: nat, j: nat, inside: set<int>, gate: int)
    requires Accepted(data, durationMin) && i <= j < |data| && data[i].clockClass in inside
    requires forall s :: s in inside ==> Known(s) && Successors(s) <= inside + {gate}
    requires forall k :: i < k <= j ==> data[k].clockClass != gate
    ensures data[j].clockClass in inside
  {
    if i < j {
      StaysInside(data, durationMin, i, j - 1, inside, gate);
      assert !IsIllegalTransition(data[j - 1].clockClass, data[j].clockClass);
    }
  }

  ghost predicate Passes(data: seq<Sample>, i: nat, j: nat, gate: int) {
    exists k :: i < k < j < |data| && data[k].clockClass == gate
  }

  /** From out-of-spec holdover a run comes back to in-spec holdover only through LOCKED, and it
      gets from LOCKED to out-of-spec holdover only through in-spec holdover. */
  lemma {:induction false} HoldoverGates(data: seq<Sample>, durationMin: real, i: nat, j: nat)
    requires Accepted(data, durationMin) && i < j < |data|
    ensures data[i].clockClass in OUT_OF_SPEC && data[j].clockClass == HOLDOVER_IN_SPEC ==> Passes(data, i, j, LOCKED)
    ensures data[i].clockClass == LOCKED && data[j].clockClass in OUT_OF_SPEC ==>
              Passes(data, i, j, HOLDOVER_IN_SPEC)
  {
    if data[i].clockClass in OUT_OF_SPEC && data[j].clockClass == HOLDOVER_IN_SPEC && !Passes(data, i, j, LOCKED) {
      StaysInside(data, durationMin, i, j, OUT_OF_SPEC, LOCKED);
    }
    if data[i].clockClass == LOCKED && data[j].clockClass in OUT_OF_SPEC && !Passes(data, i, j, HOLDOVER_IN_SPEC) {
      StaysInside(data, durationMin, i, j, {LOCKED}, HOLDOVER_IN_SPEC);
    }
  }
}
