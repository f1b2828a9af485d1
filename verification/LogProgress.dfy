/** When a flush is due, how the oldest generation of the store advances under repeated flushing, and
    when it does not (collection_tools/pkg/loglines/lines.go). */
module LogProgress {
  import opened LogLines
  import opened Outcomes
  import opened DedupSlices
  import opened LogWindows
  import opened LogGenerations
  import opened LogStreaming
  import opened LogFlushes

  // ---- Consecutive generations

  lemma {:induction false} EmitKeepsConsecutive(log: seq<Line>, s: State, s': State)
    requires Inv(log, s) && EmitStep(s, s') && Consecutive(s.gens) && NoTwins(s.added, s.gens.oldest)
    ensures Inv(log, s') && Consecutive(s'.gens) && NoTwins(s'.added, s'.gens.oldest)
    ensures s'.gens.oldest == s.gens.oldest + KEEP_GENERATIONS < s'.gens.latest == s.gens.latest
  {
    InvEmit(log, s, s');
    EmitMovesToTop(log, s, s');
    FifthIsTop(log, s, s'.gens.oldest);
  }

  ghost predicate Emits(states: seq<State>) {
    states != [] && forall i :: 0 <= i < |states| - 1 ==> EmitStep(states[i], states[i + 1])
  }

  lemma {:induction false} EmitsAdvance(log: seq<Line>, states: seq<State>, n: nat)
    requires Emits(states) && n < |states| && Inv(log, states[0]) && Consecutive(states[0].gens)
    requires NoTwins(states[0].added, states[0].gens.oldest)
    ensures Inv(log, states[n]) && Consecutive(states[n].gens) && NoTwins(states[n].added, states[n].gens.oldest)
    ensures states[n].gens.latest == states[0].gens.latest
    ensures states[n].gens.oldest == states[0].gens.oldest + n * KEEP_GENERATIONS
    ensures n > 0 ==> states[n].gens.oldest < states[n].gens.latest
  {
    if n > 0 {
      EmitsAdvance(log, states, n - 1);
      assert EmitStep(states[n - 1], states[n - 1 + 1]);
      EmitKeepsConsecutive(log, states[n - 1], states[n]);
    }
  }

  /** Repeated flushing stops: after any run that leaves consecutive generations without twins, at most one flush
      can follow for every five generations stored. */
  lemma {:induction false} RepeatedFlushingStops(log: seq<Line>, run: seq<State>, emits: seq<State>)
    requires IsLog(log) && IsRun(log, run) && Emits(emits) && emits[0] == run[|run| - 1]
    requires Consecutive(emits[0].gens) && NoTwins(emits[0].added, emits[0].gens.oldest)
    ensures
      var g := emits[0].gens;
      (|emits| - 1) * KEEP_GENERATIONS <= g.latest - g.oldest || |emits| == 1
  {
    InvRun(log, run, |run| - 1);
    EmitsAdvance(log, emits, |emits| - 1);
  }

  // ---- A gap behind the oldest generation

  lemma {:induction false} EmittedSoFar(log: seq<Line>, s: State, w: Window)
    requires Inv(log, s) && w in s.added && w.generation == s.gens.oldest && w.from <= |log|
    ensures s.emitted == Pick(log, s.added, 0, w.from)
  {
    var held :| InvWith(log, s, held);
    var first := held[s.gens.oldest][0];
    assert AllFrom(held[s.gens.oldest], s.gens.oldest, s.added);
    assert InOrder(first, w);
  }

  lemma {:induction false} OldestWindow(log: seq<Line>, s: State) returns (w: Window)
    requires Inv(log, s) && s.gens.store != map[]
    ensures w in s.added && w.generation == s.gens.oldest && w.from <= |log|
  {
    var held :| InvWith(log, s, held);
    w := held[s.gens.oldest][0];
    assert AllFrom(held[s.gens.oldest], s.gens.oldest, s.added);
    assert ValidWindow(log, w);
  }

  /** When no stored generation is in reach of the oldest one, a flush that is due emits nothing,
      leaves the same generations, and is due again at once. */
  lemma {:induction false} FlushWithoutReach(log: seq<Line>, run: seq<State>, s': State)
    requires IsLog(log) && IsRun(log, run)
    requires EmitStep(run[|run| - 1], s') && !InReach(run[|run| - 1].gens)
    ensures s'.emitted == run[|run| - 1].emitted
    ensures s'.gens.store.Keys == run[|run| - 1].gens.store.Keys
    ensures s'.gens.ShouldFlush() && !InReach(s'.gens)
  {
    InvRun(log, run, |run| - 1);
    KeysStay(log, run[|run| - 1], s');
    SameOldestEmitsNothing(log, run[|run| - 1], s');
  }

  lemma {:induction false} KeysStay(log: seq<Line>, s: State, s': State)
    requires Inv(log, s) && EmitStep(s, s') && !InReach(s.gens)
    ensures s'.gens.oldest == s.gens.oldest && s'.gens.store.Keys == s.gens.store.Keys
    ensures s'.gens.ShouldFlush() && !InReach(s'.gens)
  {
    EmitMovesToTop(log, s, s');
    NumbersOf(log, s);
    DueByKeys(s.gens, s'.gens);
  }

  lemma {:induction false} DueByKeys(g: Gens, g': Gens)
    requires g'.oldest == g.oldest && g'.latest == g.latest
    requires forall k :: k in g'.store <==> k in g.store
    ensures g'.store.Keys == g.store.Keys && g'.ShouldFlush() == g.ShouldFlush()
  {
    assert |g'.store.Keys| == |g'.store| && |g.store.Keys| == |g.store|;
  }

  lemma {:induction false} SameOldestEmitsNothing(log: seq<Line>, s: State, s': State)
    requires Inv(log, s) && EmitStep(s, s') && s'.gens.oldest == s.gens.oldest && s.gens.store != map[]
    ensures s'.emitted == s.emitted
  {
    InvEmit(log, s, s');
    var w := OldestWindow(log, s);
    EmittedSoFar(log, s, w);
    EmittedSoFar(log, s', w);
  }

  // ---- When a flush is due

  /** The generations of the windows that arrived, from the oldest one stored on. */
  ghost function Live(s: State): set<uint32> {
    set w | w in s.added && w.generation >= s.gens.oldest :: w.generation
  }

  lemma {:induction false} StoredIsLive(log: seq<Line>, s: State, held: map<uint32, seq<Window>>, k: uint32)
    requires InvWith(log, s, held) && k in s.gens.store
    ensures k in Live(s)
  {
    var w := held[k][0];
    assert AllFrom(held[k], k, s.added);
    assert w in s.added && w.generation == k;
  }

  lemma {:induction false} LiveIsStored(log: seq<Line>, s: State)
    requires Inv(log, s)
    ensures s.gens.store.Keys == Live(s)
  {
    var held: map<uint32, seq<Window>> :| InvWith(log, s, held);
    forall k | k in s.gens.store
      ensures k in Live(s)
    {
      StoredIsLive(log, s, held, k);
    }
    forall w | w in s.added && w.generation >= s.gens.oldest
      ensures w.generation in s.gens.store
    {
      LiveHasSlices(s, held, w);
    }
  }

  lemma {:induction false} LiveHasSlices(s: State, held: map<uint32, seq<Window>>, w: Window)
    requires StillHeld(s.gens, held, s.added) && s.gens.store.Keys == held.Keys
    requires w in s.added && w.generation >= s.gens.oldest
    ensures w.generation in s.gens.store
  {
    assert OutlastedIn(held, w);
  }

  /** Two of the windows lie more than five generations apart. */
  ghost predicate FarApart(s: State) {
    exists j, k :: j in Live(s) && k in Live(s) && j + 5 < k
  }

  lemma {:induction false} DueOfNumbers(s: State)
    requires Numbers(s.gens) && s.gens.store.Keys == Live(s)
    ensures s.gens.ShouldFlush() <==> |Live(s)| >= 6 && FarApart(s)
  {
    var g := s.gens;
    assert |g.store.Keys| == |g.store|;
    if g.store == map[] {
      assert |g.store| == 0;
    } else {
      WrapInRange(g.latest - g.oldest);
      assert g.oldest in Live(s) && g.latest in Live(s);
    }
  }

  /** After any run, a flush is due, and can be made, if and only if windows of at least six generations
      have arrived from the oldest stored one on, two of them more than five generations apart. */
  lemma {:induction false} FlushIsDueIff(log: seq<Line>, run: seq<State>)
    requires IsLog(log) && IsRun(log, run)
    ensures
      var s := run[|run| - 1];
      && s.gens.store.Keys == Live(s)
      && (s.gens.ShouldFlush() <==> |Live(s)| >= 6 && FarApart(s))
      && ((exists s' :: EmitStep(s, s')) <==> |Live(s)| >= 6 && FarApart(s))
  {
    var s := run[|run| - 1];
    InvRun(log, run, |run| - 1);
    LiveIsStored(log, s);
    NumbersOf(log, s);
    DueOfNumbers(s);
    if s.gens.ShouldFlush() {
      var s' := DueFlushEmits(log, s);
    }
  }

  lemma {:induction false} DueFlushEmits(log: seq<Line>, s: State) returns (s': State)
    requires Inv(log, s) && s.gens.ShouldFlush()
    ensures EmitStep(s, s')
  {
    var g', r := FlushExists(s.gens);
    DueFlushSucceeds(log, s, g', r);
    s' := State(g', s.added, s.emitted + r.value.lines);
  }

  // ---- Stores of one line for each generation

  /** The numbers of generations, from 0 on. */
  ghost predicate Rising(numbers: seq<uint32>) {
    && (numbers != [] ==> numbers[0] == 0)
    && forall i, j :: 0 <= i < j < |numbers| ==> numbers[i] < numbers[j]
  }

  ghost function OneLine(numbers: seq<uint32>, k: nat): Window
    requires k < |numbers|
  {
    Window(k, k + 1, numbers[k])
  }

  /** After k polls of one line each. */
  ghost function LineByLine(log: seq<Line>, numbers: seq<uint32>, k: nat): State
    requires k <= |numbers| && k <= |log|
  {
    if k == 0 then State(NO_GENERATIONS, {}, [])
    else
      var s := LineByLine(log, numbers, k - 1);
      State(s.gens.Added(SliceOf(log, OneLine(numbers, k - 1))), s.added + {OneLine(numbers, k - 1)}, [])
  }

  lemma {:induction false} LinesAdded(log: seq<Line>, numbers: seq<uint32>, k: nat)
    requires k <= |numbers| && k <= |log|
    ensures forall w :: w in LineByLine(log, numbers, k).added <==> exists i :: 0 <= i < k && w == OneLine(numbers, i)
  {
    if k > 0 {
      LinesAdded(log, numbers, k - 1);
    }
  }

  ghost predicate Among(numbers: seq<uint32>, k: nat, key: uint32)
    requires k <= |numbers|
  {
    exists i :: 0 <= i < k && key == numbers[i]
  }

  /** The store has the first k numbers as its generations. */
  ghost predicate StoreOf(g: Gens, numbers: seq<uint32>, k: nat)
    requires k <= |numbers|
  {
    && (forall key :: key in g.store <==> Among(numbers, k, key))
    && |g.store| == k && g.oldest == 0 && g.latest == (if k == 0 then 0 else numbers[k - 1])
  }

  lemma {:induction false} StoreOfNext(g: Gens, slice: LineSlice, numbers: seq<uint32>, k: nat)
    requires k < |numbers| && Rising(numbers) && StoreOf(g, numbers, k) && slice.generation == numbers[k]
    ensures StoreOf(g.Added(slice), numbers, k + 1)
  {
    var after := g.Added(slice).store;
    assert !Among(numbers, k, numbers[k]);
    assert forall key :: key in after <==> key in g.store || key == numbers[k];
    OneMoreKey(g.store, after, numbers[k]);
    forall key: uint32
      ensures Among(numbers, k + 1, key) <==> Among(numbers, k, key) || key == numbers[k]
    {
      if Among(numbers, k, key) {
        var i :| 0 <= i < k && key == numbers[i];
        assert 0 <= i < k + 1;
      }
    }
  }

  lemma {:induction false} LinesStored(log: seq<Line>, numbers: seq<uint32>, k: nat)
    requires k <= |numbers| && k <= |log| && Rising(numbers)
    ensures StoreOf(LineByLine(log, numbers, k).gens, numbers, k)
  {
    if k > 0 {
      LinesStored(log, numbers, k - 1);
      var slice := SliceOf(log, OneLine(numbers, k - 1));
      assert slice.generation == numbers[k - 1];
      StoreOfNext(LineByLine(log, numbers, k - 1).gens, slice, numbers, k - 1);
    }
  }

  lemma {:induction false} OneMoreKey(before: map<uint32, seq<LineSlice>>, after: map<uint32, seq<LineSlice>>, key: uint32)
    requires key !in before && forall g :: g in after <==> g in before || g == key
    ensures |after| == |before| + 1
  {
    assert after.Keys == before.Keys + {key};
    assert |after.Keys| == |after| && |before.Keys| == |before|;
  }

  lemma {:induction false} LinesDisciplined(log: seq<Line>, numbers: seq<uint32>, k: nat)
    requires k <= |numbers| && k <= |log| && Rising(numbers)
    ensures Disciplined(LineByLine(log, numbers, k).added)
  {
    LinesAdded(log, numbers, k);
    forall v, w | v in LineByLine(log, numbers, k).added && w in LineByLine(log, numbers, k).added
      ensures InOrder(v, w)
    {
      var i :| 0 <= i < k && v == OneLine(numbers, i);
      var j :| 0 <= j < k && w == OneLine(numbers, j);
      assert i < j ==> numbers[i] < numbers[j];
      assert j < i ==> numbers[j] < numbers[i];
    }
  }

  lemma {:induction false} LineStep(log: seq<Line>, numbers: seq<uint32>, k: nat)
    requires IsLog(log) && k < |numbers| && k < |log| && Rising(numbers)
    ensures AddStep(log, LineByLine(log, numbers, k), LineByLine(log, numbers, k + 1), OneLine(numbers, k))
  {
    LinesDisciplined(log, numbers, k + 1);
    LinesStored(log, numbers, k);
    LinesAdded(log, numbers, k);
    if k > 0 {
      assert OneLine(numbers, 0) in LineByLine(log, numbers, k).added;
    }
  }

  lemma {:induction false} LinesRun(log: seq<Line>, numbers: seq<uint32>) returns (run: seq<State>)
    requires IsLog(log) && |numbers| <= |log| && Rising(numbers)
    ensures IsRun(log, run) && run[|run| - 1] == LineByLine(log, numbers, |numbers|)
  {
    run := seq(|numbers| + 1, k requires 0 <= k <= |numbers| => LineByLine(log, numbers, k));
    forall i | 0 <= i < |run| - 1
      ensures LogStreaming.Next(log, run[i], run[i + 1])
    {
      LineStep(log, numbers, i);
    }
  }

  lemma {:induction false} SpanIsExact(g: Gens, numbers: seq<uint32>)
    requires numbers != [] && Rising(numbers) && StoreOf(g, numbers, |numbers|)
    ensures Wrap(g.latest - g.oldest) == numbers[|numbers| - 1]
  {
    WrapInRange(numbers[|numbers| - 1]);
  }

  lemma {:induction false} NoneInReach(g: Gens, numbers: seq<uint32>)
    requires StoreOf(g, numbers, |numbers|) && forall i :: 0 < i < |numbers| ==> numbers[i] > 5
    requires numbers != [] && numbers[0] == 0
    ensures !InReach(g)
  {
    forall k | k in g.store
      ensures !(g.oldest < k <= g.oldest + KEEP_GENERATIONS)
    {
      assert Among(numbers, |numbers|, k);
    }
  }

  lemma {:induction false} GappedNumbers(numbers: seq<uint32>)
    requires numbers == [0, 7, 8, 9, 10, 11]
    ensures Rising(numbers) && forall i :: 0 < i < |numbers| ==> numbers[i] > 5
  {
  }

  /** In any log of six lines, six polls of one line each, of generations 0 and 7 to 11, lead to a
      store in which a flush is due and no generation is in reach. */
  lemma {:induction false} GapIsReachable(log: seq<Line>) returns (run: seq<State>)
    requires IsLog(log) && |log| >= 6
    ensures IsRun(log, run)
    ensures var g := run[|run| - 1].gens; g.ShouldFlush() && !InReach(g)
  {
    var numbers: seq<uint32> := [0, 7, 8, 9, 10, 11];
    GappedNumbers(numbers);
    run := LinesRun(log, numbers);
    LinesStored(log, numbers, 6);
    SpanIsExact(run[|run| - 1].gens, numbers);
    NoneInReach(run[|run| - 1].gens, numbers);
  }

  /** Three polls of generations 0, 3 and 6 lead to a store of these, in which no flush is due. */
  lemma {:induction false} SpreadIsNotDue(log: seq<Line>) returns (run: seq<State>)
    requires IsLog(log) && |log| >= 3
    ensures IsRun(log, run)
    ensures
      var s := run[|run| - 1];
      && s.gens.store.Keys == {0, 3, 6} && s.gens.oldest == 0 && s.gens.latest == 6
      && !s.gens.ShouldFlush() && forall s' :: !EmitStep(s, s')
  {
    var numbers: seq<uint32> := [0, 3, 6];
    run := LinesRun(log, numbers);
    LinesStored(log, numbers, 3);
    ThreeKeys(run[|run| - 1].gens, numbers);
    FlushIsDueIff(log, run);
    assert |Live(run[|run| - 1])| == 3;
  }

  lemma {:induction false} ThreeKeys(g: Gens, numbers: seq<uint32>)
    requires numbers == [0, 3, 6] && StoreOf(g, numbers, 3)
    ensures g.store.Keys == {0, 3, 6} && g.latest == 6 && |g.store.Keys| == 3
  {
    forall k: uint32
      ensures k in g.store <==> k in {0, 3, 6}
    {
      assert numbers[0] == 0 && numbers[1] == 3 && numbers[2] == 6;
      assert k in g.store <==> Among(numbers, 3, k);
    }
    assert |g.store.Keys| == |g.store|;
  }

  // ---- A slice that comes too late

  lemma {:induction false} PickHas(log: seq<Line>, ws: set<Window>, lo: nat, hi: nat, i: nat)
    requires lo <= i < hi <= |log| && Covered(ws, i)
    ensures log[i] in Pick(log, ws, lo, hi)
    decreases hi
  {
    if i < hi - 1 {
      PickHas(log, ws, lo, hi - 1, i);
    }
  }

  /** When a slice comes whose generation lies before the oldest one, a line of it that was emitted
      is in the last lines again. */
  lemma {:induction false} LateSliceRepeats(log: seq<Line>, run: seq<State>, w: Window, v: Window, r: Outcome<LineSlice>)
    requires IsLog(log) && IsRun(log, run) && ValidWindow(log, w)
    requires
      var s := run[|run| - 1];
      && Disciplined(s.added + {w}) && Covered(s.added, w.from)
      && v in s.added && v.generation == s.gens.oldest && w.from < v.from
      && FlushAllResult(s.gens.Added(SliceOf(log, w)), r)
    ensures r.Done? && log[w.from] in run[|run| - 1].emitted && log[w.from] in r.value.lines
  {
    var s := run[|run| - 1];
    InvRun(log, run, |run| - 1);
    var held :| InvWith(log, s, held);
    assert ValidWindow(log, v);
    EmittedSoFar(log, s, v);
    PickHas(log, s.added, 0, v.from, w.from);
    HoldsWith(log, s.gens, held, w);
    StillHeldWith(s.gens, held, s.added, w, SliceOf(log, w));
    FlushHasWindow(log, s.gens.Added(SliceOf(log, w)), HeldWith(held, w), s.added + {w}, w, r);
  }

  lemma {:induction false} FlushHasWindow(log: seq<Line>, g: Gens, held: map<uint32, seq<Window>>, added: set<Window>,
      w: Window, r: Outcome<LineSlice>)
    requires IsLog(log) && Holds(log, g.store, held) && HeldFrom(held, added) && Disciplined(added)
    requires w.generation in held && w in held[w.generation] && ValidWindow(log, w)
    requires FlushAllResult(g, r)
    ensures r.Done? && log[w.from] in r.value.lines
  {
    assert w.generation in g.store;
    var flushed :| StoreFlushedTo(g.store, TWO_TO_THE_32, flushed) && r == Joined(flushed);
    var keys, ls, m := FlushOfWindows(log, g.store, held, added, TWO_TO_THE_32, flushed, w.generation);
    JoinedLines(flushed, r);
    LongestCovers(held, added, keys, ls, w);
    PickHas(log, AsSet(ls), 0, |log|, w.from);
  }

  lemma {:induction false} LongestCovers(held: map<uint32, seq<Window>>, added: set<Window>, keys: seq<uint32>, ls: seq<Window>,
      w: Window)
    requires HeldFrom(held, added) && Disciplined(added) && AreLongest(held, keys, ls)
    requires w.generation in keys && w.generation in held && w in held[w.generation] && w.from < w.to
    ensures Covered(AsSet(ls), w.from)
  {
    var j :| 0 <= j < |keys| && keys[j] == w.generation;
    LongestOf(held, added, keys, ls, j);
    assert AllFrom(held[keys[j]], keys[j], added);
    assert InOrder(ls[j], w);
    CoveredByMember(ls, j, w.from);
  }

  // ---- A run in which it can come

  lemma {:induction false} OneEach(g: Gens, numbers: seq<uint32>)
    requires |numbers| == 7 && (forall i :: 0 <= i < 7 ==> numbers[i] == i) && StoreOf(g, numbers, 7)
    ensures Consecutive(g) && g.ShouldFlush()
  {
    SpanIsExact(g, numbers);
    forall k: uint32 | 0 <= k <= 6
      ensures k in g.store
    {
      assert k == numbers[k] && Among(numbers, 7, k);
    }
  }

  lemma {:induction false} NoTwinLines(log: seq<Line>, numbers: seq<uint32>, k: nat)
    requires k <= |numbers| && k <= |log|
    ensures NoTwins(LineByLine(log, numbers, k).added, 0)
  {
    LinesAdded(log, numbers, k);
  }

  lemma {:induction false} SeventhIsDue(log: seq<Line>, numbers: seq<uint32>, run: seq<State>) returns (s': State)
    requires IsLog(log) && IsRun(log, run) && |log| >= 7
    requires |numbers| == 7 && Rising(numbers) && forall i :: 0 <= i < 7 ==> numbers[i] == i
    requires run[|run| - 1] == LineByLine(log, numbers, 7)
    ensures EmitStep(run[|run| - 1], s') && s'.gens.oldest == 5
  {
    InvRun(log, run, |run| - 1);
    s' := SeventhEmits(log, numbers, run[|run| - 1]);
  }

  lemma {:induction false} SeventhEmits(log: seq<Line>, numbers: seq<uint32>, s: State) returns (s': State)
    requires Inv(log, s) && |log| >= 7
    requires |numbers| == 7 && Rising(numbers) && forall i :: 0 <= i < 7 ==> numbers[i] == i
    requires s == LineByLine(log, numbers, 7)
    ensures EmitStep(s, s') && s'.gens.oldest == 5
  {
    LinesStored(log, numbers, 7);
    OneEach(s.gens, numbers);
    NoTwinLines(log, numbers, 7);
    s' := DueFlushEmits(log, s);
    EmitMovesByFive(log, s, s');
  }

  /** In any log of seven lines, seven polls of one line each and a flush lead to a state in which
      the first poll's line, read again, comes too late: every requirement of LateSliceRepeats is met. */
  lemma {:induction false} LateSliceIsReachable(log: seq<Line>) returns (run: seq<State>, w: Window, v: Window)
    requires IsLog(log) && |log| >= 7
    ensures IsRun(log, run) && ValidWindow(log, w)
    ensures
      var s := run[|run| - 1];
      && Disciplined(s.added + {w}) && Covered(s.added, w.from)
      && v in s.added && v.generation == s.gens.oldest && w.from < v.from
  {
    var numbers: seq<uint32> := [0, 1, 2, 3, 4, 5, 6];
    var before := LinesRun(log, numbers);
    var s' := SeventhIsDue(log, numbers, before);
    run, w, v := before + [s'], Window(0, 1, 0), Window(5, 6, 5);
    RunGoesOn(log, before, s');
    AddedAgain(log, numbers, w, v);
  }

  lemma {:induction false} AddedAgain(log: seq<Line>, numbers: seq<uint32>, w: Window, v: Window)
    requires IsLog(log) && |log| >= 7 && numbers == [0, 1, 2, 3, 4, 5, 6]
    requires w == Window(0, 1, 0) && v == Window(5, 6, 5)
    ensures
      var added := LineByLine(log, numbers, 7).added;
      Disciplined(added + {w}) && Covered(added, w.from) && v in added
  {
    LinesAdded(log, numbers, 7);
    var added := LineByLine(log, numbers, 7).added;
    assert w == OneLine(numbers, 0) && v == OneLine(numbers, 5);
    assert w in added && w.from <= 0 < w.to;
    assert added + {w} == added;
    LineStep(log, numbers, 6);
  }

  lemma {:induction false} RunGoesOn(log: seq<Line>, run: seq<State>, s': State)
    requires IsRun(log, run) && EmitStep(run[|run| - 1], s')
    ensures IsRun(log, run + [s'])
  {
    var more := run + [s'];
    forall i | 0 <= i < |more| - 1
      ensures LogStreaming.Next(log, more[i], more[i + 1])
    {
      if i < |run| - 1 {
        assert LogStreaming.Next(log, run[i], run[i + 1]);
      }
    }
  }
}
