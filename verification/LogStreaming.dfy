/** Whole runs of the generation store: what it emits is every covered log line once, in order. */
module LogStreaming {
  import opened LogLines
  import opened Outcomes
  import opened DedupSlices
  import opened LogWindows
  import opened LogGenerations

  // ---- The discipline of the polls

  /** Polls of one generation start at the same line; the windows of a later generation neither start
      nor end earlier. */
  ghost predicate Disciplined(ws: set<Window>) {
    forall v, w {:trigger InOrder(v, w)} :: v in ws && w in ws ==> InOrder(v, w)
  }

  ghost predicate InOrder(v: Window, w: Window) {
    && (v.generation == w.generation ==> v.from == w.from)
    && (v.generation < w.generation ==> v.from <= w.from && v.to <= w.to)
  }

  // ---- One flush over windows

  ghost predicate OneGeneration(ws: seq<Window>) {
    forall i :: 0 <= i < |ws| ==> ws[i].from == ws[0].from && ws[i].generation == ws[0].generation
  }

  /** All windows of one generation give one slice: that of the longest window. */
  lemma {:induction false} GenerationOfWindows(log: seq<Line>, ws: seq<Window>, r: Outcome<LineSlice>) returns (longest: Window)
    requires IsLog(log) && AllValid(log, ws) && ws != []
    requires OneGeneration(ws)
    requires GenerationDeduped(SlicesOf(log, ws), r)
    ensures longest in ws && forall w :: w in ws ==> w.to <= longest.to
    ensures r == Done(SliceOf(log, longest))
  {
    var ordered :| IsSorting(SlicesOf(log, ws), ordered) && r == Joined(DedupOrdered(ordered));
    longest := FoldOfWindows(log, ws, ordered);
    NothingBeforeStart(log, ws, longest.from);
    var (first, last) := DedupOrdered(ordered).value;
    assert first.lines + last.lines == last.lines;
  }

  lemma {:induction false} NothingBeforeStart(log: seq<Line>, ws: seq<Window>, start: nat)
    requires OneGeneration(ws) && ws != [] && start == ws[0].from <= |log|
    ensures Pick(log, AsSet(ws), 0, start) == []
  {
    forall i: nat
      ensures i < start ==> !Covered(AsSet(ws), i)
    {
    }
    PickNone(log, AsSet(ws), 0, start);
  }

  /** The stored windows of each generation. */
  ghost predicate Holds(log: seq<Line>, store: map<uint32, seq<LineSlice>>, held: map<uint32, seq<Window>>) {
    && store.Keys == held.Keys
    && forall k :: k in held ==>
         held[k] != [] && AllValid(log, held[k]) && store[k] == SlicesOf(log, held[k])
  }

  ghost predicate AllFrom(ws: seq<Window>, k: uint32, added: set<Window>) {
    forall i :: 0 <= i < |ws| ==> ws[i] in added && ws[i].generation == k
  }

  ghost predicate HeldFrom(held: map<uint32, seq<Window>>, added: set<Window>) {
    forall k :: k in held ==> AllFrom(held[k], k, added)
  }

  lemma {:induction false} HeldIsOneGeneration(held: map<uint32, seq<Window>>, added: set<Window>, k: uint32)
    requires HeldFrom(held, added) && Disciplined(added) && k in held
    ensures OneGeneration(held[k])
  {
    assert AllFrom(held[k], k, added);
    forall i | 0 <= i < |held[k]|
      ensures held[k][i].from == held[k][0].from && held[k][i].generation == held[k][0].generation
    {
      assert InOrder(held[k][i], held[k][0]);
    }
  }

  /** One longest window for each of the generations. */
  ghost predicate AreLongest(held: map<uint32, seq<Window>>, keys: seq<uint32>, ls: seq<Window>) {
    && |ls| == |keys|
    && forall i :: 0 <= i < |keys| ==>
         keys[i] in held && ls[i] in held[keys[i]] && forall w :: w in held[keys[i]] ==> w.to <= ls[i].to
  }

  lemma {:induction false} LongestOfOne(log: seq<Line>, store: map<uint32, seq<LineSlice>>, held: map<uint32, seq<Window>>,
      added: set<Window>, k: uint32, slice: LineSlice) returns (longest: Window)
    requires IsLog(log) && Holds(log, store, held) && HeldFrom(held, added) && Disciplined(added)
    requires k in held && GenerationDeduped(store[k], Done(slice))
    ensures longest in held[k] && (forall w :: w in held[k] ==> w.to <= longest.to)
    ensures ValidWindow(log, longest) && slice == SliceOf(log, longest)
  {
    HeldIsOneGeneration(held, added, k);
    longest := GenerationOfWindows(log, held[k], Done(slice));
  }

  lemma {:induction false} TailsAreGroups(store: map<uint32, seq<LineSlice>>, keys: seq<uint32>,
      groups: seq<seq<LineSlice>>, slices: seq<LineSlice>)
    requires keys != [] && AreGroups(store, keys, groups) && AllDeduped(groups, slices)
    ensures AreGroups(store, keys[1..], groups[1..]) && AllDeduped(groups[1..], slices[1..])
  {
  }

  lemma {:induction false} LongestOfEach(log: seq<Line>, store: map<uint32, seq<LineSlice>>, held: map<uint32, seq<Window>>,
      added: set<Window>, keys: seq<uint32>, groups: seq<seq<LineSlice>>, slices: seq<LineSlice>) returns (ls: seq<Window>)
    requires IsLog(log) && Holds(log, store, held) && HeldFrom(held, added) && Disciplined(added)
    requires AreGroups(store, keys, groups) && AllDeduped(groups, slices)
    ensures AreLongest(held, keys, ls) && AllValid(log, ls) && slices == SlicesOf(log, ls)
    decreases |keys|
  {
    ls := [];
    if keys != [] {
      var longest := LongestOfOne(log, store, held, added, keys[0], slices[0]);
      TailsAreGroups(store, keys, groups, slices);
      var rest := LongestOfEach(log, store, held, added, keys[1..], groups[1..], slices[1..]);
      ls := [longest] + rest;
      ConsLongest(log, held, keys, slices, longest, rest);
    }
  }

  lemma {:induction false} ConsLongest(log: seq<Line>, held: map<uint32, seq<Window>>, keys: seq<uint32>,
      slices: seq<LineSlice>, longest: Window, rest: seq<Window>)
    requires keys != [] && |slices| == |keys|
    requires AreLongest(held, keys[1..], rest) && AllValid(log, rest) && slices[1..] == SlicesOf(log, rest)
    requires keys[0] in held && longest in held[keys[0]] && (forall w :: w in held[keys[0]] ==> w.to <= longest.to)
    requires ValidWindow(log, longest) && slices[0] == SliceOf(log, longest)
    ensures
      var ls := [longest] + rest;
      AreLongest(held, keys, ls) && AllValid(log, ls) && slices == SlicesOf(log, ls)
  {
    ConsKeys(held, keys, longest, rest);
    ConsSlices(log, longest, rest);
    assert slices == [slices[0]] + slices[1..];
  }

  lemma {:induction false} ConsKeys(held: map<uint32, seq<Window>>, keys: seq<uint32>, longest: Window, rest: seq<Window>)
    requires keys != [] && AreLongest(held, keys[1..], rest)
    requires keys[0] in held && longest in held[keys[0]] && (forall w :: w in held[keys[0]] ==> w.to <= longest.to)
    ensures AreLongest(held, keys, [longest] + rest)
  {
    var ls := [longest] + rest;
    assert forall i :: 0 < i < |keys| ==> keys[i] == keys[1..][i - 1] && ls[i] == rest[i - 1];
  }

  lemma {:induction false} ConsSlices(log: seq<Line>, longest: Window, rest: seq<Window>)
    requires AllValid(log, rest) && ValidWindow(log, longest)
    ensures AllValid(log, [longest] + rest)
    ensures SlicesOf(log, [longest] + rest) == [SliceOf(log, longest)] + SlicesOf(log, rest)
  {
    assert ([longest] + rest)[1..] == rest;
  }

  lemma {:induction false} NoGenerationPanics(log: seq<Line>, store: map<uint32, seq<LineSlice>>, held: map<uint32, seq<Window>>,
      added: set<Window>, keys: seq<uint32>, groups: seq<seq<LineSlice>>, i: nat)
    requires IsLog(log) && Holds(log, store, held) && HeldFrom(held, added) && Disciplined(added)
    requires AreGroups(store, keys, groups) && i < |groups|
    ensures !GenerationDeduped(groups[i], Panicked)
  {
    if GenerationDeduped(groups[i], Panicked) {
      HeldIsOneGeneration(held, added, keys[i]);
      var longest := GenerationOfWindows(log, held[keys[i]], Panicked);
    }
  }

  /** The window at m ends the log: none of the others starts or ends later. */
  ghost predicate IsLast(ls: seq<Window>, m: nat) {
    m < |ls| && forall i :: 0 <= i < |ls| ==> ls[i].from <= ls[m].from && ls[i].to <= ls[m].to
  }

  /** A flush of some generations, the lowest first: no panic, the last slice is the window that
      ends the log, and the result before it is what else the windows cover. */
  lemma {:induction false} FlushOfWindows(log: seq<Line>, store: map<uint32, seq<LineSlice>>, held: map<uint32, seq<Window>>,
      added: set<Window>, bound: int, flushed: Outcome<(LineSlice, LineSlice)>, some: uint32)
    returns (keys: seq<uint32>, ls: seq<Window>, m: nat)
    requires IsLog(log) && Holds(log, store, held) && HeldFrom(held, added) && Disciplined(added)
    requires StoreFlushedTo(store, bound, flushed)
    requires some in held && some <= bound
    ensures IsSelection(store, bound, keys) && keys != [] && AreLongest(held, keys, ls) && AllValid(log, ls)
    ensures flushed.Done? && IsLast(ls, m)
    ensures
      var ((first, last), top) := (flushed.value, ls[m]);
      && last == SliceOf(log, top)
      && first.lines == Pick(log, AsSet(ls), 0, top.from)
      && first.lines + last.lines == Pick(log, AsSet(ls), 0, |log|)
  {
    var groups;
    keys, groups :| IsSelection(store, bound, keys) && AreGroups(store, keys, groups) && FlushedTo(groups, flushed);
    assert some in keys;
    ls := LongestOfFlush(log, store, held, added, keys, groups, flushed);
    m := FoldOfLongest(log, held, added, keys, ls, flushed);
  }

  lemma {:induction false} LongestOfFlush(log: seq<Line>, store: map<uint32, seq<LineSlice>>, held: map<uint32, seq<Window>>,
      added: set<Window>, keys: seq<uint32>, groups: seq<seq<LineSlice>>, flushed: Outcome<(LineSlice, LineSlice)>)
    returns (ls: seq<Window>)
    requires IsLog(log) && Holds(log, store, held) && HeldFrom(held, added) && Disciplined(added)
    requires AreGroups(store, keys, groups) && FlushedTo(groups, flushed)
    ensures AreLongest(held, keys, ls) && AllValid(log, ls) && SlicesDeduped(SlicesOf(log, ls), flushed)
  {
    forall i | 0 <= i < |groups|
      ensures !GenerationDeduped(groups[i], Panicked)
    {
      NoGenerationPanics(log, store, held, added, keys, groups, i);
    }
    var slices :| AllDeduped(groups, slices) && SlicesDeduped(slices, flushed);
    ls := LongestOfEach(log, store, held, added, keys, groups, slices);
  }

  lemma {:induction false} FoldOfLongest(log: seq<Line>, held: map<uint32, seq<Window>>, added: set<Window>,
      keys: seq<uint32>, ls: seq<Window>, flushed: Outcome<(LineSlice, LineSlice)>) returns (m: nat)
    requires IsLog(log) && HeldFrom(held, added) && Disciplined(added)
    requires AreLongest(held, keys, ls) && AllValid(log, ls) && ls != []
    requires forall i, j :: 0 <= i < j < |keys| ==> keys[i] < keys[j]
    requires SlicesDeduped(SlicesOf(log, ls), flushed)
    ensures flushed.Done? && IsLast(ls, m)
    ensures
      var ((first, last), top) := (flushed.value, ls[m]);
      && last == SliceOf(log, top)
      && first.lines == Pick(log, AsSet(ls), 0, top.from)
      && first.lines + last.lines == Pick(log, AsSet(ls), 0, |log|)
  {
    var ordered :| IsSorting(SlicesOf(log, ls), ordered) && flushed == DedupOrdered(ordered);
    LongestAreDisciplined(held, added, keys, ls);
    var last := FoldOfWindows(log, ls, ordered);
    m :| 0 <= m < |ls| && ls[m] == last;
    assert forall i :: 0 <= i < |ls| ==> ls[i] in ls;
  }

  lemma {:induction false} LongestAreDisciplined(held: map<uint32, seq<Window>>, added: set<Window>, keys: seq<uint32>, ls: seq<Window>)
    requires HeldFrom(held, added) && Disciplined(added) && AreLongest(held, keys, ls)
    requires forall i, j :: 0 <= i < j < |keys| ==> keys[i] < keys[j]
    ensures forall i, j :: 0 <= i < j < |ls| ==> ls[i].from <= ls[j].from && ls[i].to <= ls[j].to
    ensures EndsDoNotDecrease(AsSet(ls))
  {
    assert forall i :: 0 <= i < |ls| ==> ls[i] in added && ls[i].generation == keys[i];
    forall i, j | 0 <= i < j < |ls|
      ensures ls[i].from <= ls[j].from && ls[i].to <= ls[j].to
    {
      assert InOrder(ls[i], ls[j]);
    }
  }

  // ---- Runs

  datatype State = State(gens: Gens, added: set<Window>, emitted: seq<Line>)

  ghost predicate Init(s: State) {
    s == State(NO_GENERATIONS, {}, [])
  }

  /** A poll's slice arrives: never of a generation below the oldest, the first one of
      generation 0. */
  ghost predicate AddStep(log: seq<Line>, s: State, s': State, w: Window) {
    && ValidWindow(log, w)
    && Disciplined(s.added + {w})
    && (if s.added == {} then w.generation == 0 else w.generation >= s.gens.oldest)
    && s' == State(s.gens.Added(SliceOf(log, w)), s.added + {w}, s.emitted)
  }

  ghost predicate EmitStep(s: State, s': State) {
    && s.gens.ShouldFlush()
    && s'.added == s.added
    && exists r :: FlushStep(s.gens, s'.gens, r) && r.Done? && s'.emitted == s.emitted + r.value.lines
  }

  ghost predicate Next(log: seq<Line>, s: State, s': State) {
    || (exists w :: AddStep(log, s, s', w))
    || EmitStep(s, s')
  }

  ghost predicate IsRun(log: seq<Line>, run: seq<State>) {
    && run != [] && Init(run[0])
    && forall i :: 0 <= i < |run| - 1 ==> Next(log, run[i], run[i + 1])
  }

  // ---- What every reachable state keeps

  /** The numbers of the generations stored. */
  ghost predicate Numbers(g: Gens) {
    if g.store == map[] then g.oldest == g.latest == 0
    else g.oldest in g.store && g.latest in g.store && forall k :: k in g.store ==> g.oldest <= k <= g.latest
  }

  /** Everything from the oldest generation on is still covered by a stored window. */
  ghost predicate StillHeld(g: Gens, held: map<uint32, seq<Window>>, added: set<Window>) {
    forall w {:trigger OutlastedIn(held, w)} :: w in added && w.generation >= g.oldest ==> OutlastedIn(held, w)
  }

  ghost predicate OutlastedIn(held: map<uint32, seq<Window>>, w: Window) {
    w.generation in held && Outlasted(held[w.generation], w)
  }

  ghost predicate Outlasted(ws: seq<Window>, w: Window) {
    exists i :: 0 <= i < |ws| && w.to <= ws[i].to
  }

  ghost predicate HeldInv(log: seq<Line>, s: State, held: map<uint32, seq<Window>>) {
    && Holds(log, s.gens.store, held)
    && HeldFrom(held, s.added)
    && StillHeld(s.gens, held, s.added)
    && (s.added == {} ==> s.gens.store == map[] && s.emitted == [])
    && (s.added != {} ==>
          s.gens.oldest in held && s.emitted == Pick(log, s.added, 0, held[s.gens.oldest][0].from))
  }

  ghost predicate AllInLog(log: seq<Line>, ws: set<Window>) {
    forall w :: w in ws ==> ValidWindow(log, w)
  }

  lemma {:induction false} AllInLogWith(log: seq<Line>, ws: set<Window>, w: Window)
    requires AllInLog(log, ws) && ValidWindow(log, w)
    ensures AllInLog(log, ws + {w})
  {
  }

  ghost predicate InvWith(log: seq<Line>, s: State, held: map<uint32, seq<Window>>) {
    && IsLog(log)
    && Disciplined(s.added)
    && AllInLog(log, s.added)
    && Numbers(s.gens)
    && HeldInv(log, s, held)
  }

  ghost predicate Inv(log: seq<Line>, s: State) {
    exists held :: InvWith(log, s, held)
  }

  lemma {:induction false} InvInit(log: seq<Line>, s: State)
    requires IsLog(log) && Init(s)
    ensures Inv(log, s)
  {
    assert InvWith(log, s, map[]);
  }

  ghost function HeldWith(held: map<uint32, seq<Window>>, w: Window): map<uint32, seq<Window>> {
    held[w.generation := (if w.generation in held then held[w.generation] else []) + [w]]
  }

  lemma {:induction false} SlicesOfConcat(log: seq<Line>, ws: seq<Window>, w: Window)
    requires AllValid(log, ws) && ValidWindow(log, w)
    ensures AllValid(log, ws + [w]) && SlicesOf(log, ws + [w]) == SlicesOf(log, ws) + [SliceOf(log, w)]
  {
  }

  lemma {:induction false} HoldsWith(log: seq<Line>, g: Gens, held: map<uint32, seq<Window>>, w: Window)
    requires Holds(log, g.store, held) && ValidWindow(log, w)
    ensures Holds(log, g.Added(SliceOf(log, w)).store, HeldWith(held, w))
  {
    SlicesOfConcat(log, if w.generation in held then held[w.generation] else [], w);
    var (store', held') := (g.Added(SliceOf(log, w)).store, HeldWith(held, w));
    forall k | k in held' && k != w.generation
      ensures held'[k] != [] && AllValid(log, held'[k]) && store'[k] == SlicesOf(log, held'[k])
    {
      assert held'[k] == held[k] && store'[k] == g.store[k];
    }
  }

  lemma {:induction false} StillHeldWith(g: Gens, held: map<uint32, seq<Window>>, added: set<Window>, w: Window, slice: LineSlice)
    requires HeldFrom(held, added) && StillHeld(g, held, added) && slice.generation == w.generation
    ensures HeldFrom(HeldWith(held, w), added + {w})
    ensures StillHeld(g.Added(slice), HeldWith(held, w), added + {w})
  {
    var ws := if w.generation in held then held[w.generation] else [];
    assert (ws + [w])[|ws|] == w;
    assert Outlasted(ws + [w], w);
    forall v | v in added + {w} && v.generation >= g.oldest
      ensures OutlastedIn(HeldWith(held, w), v)
    {
      if v != w {
        assert OutlastedIn(held, v);
        var i :| 0 <= i < |held[v.generation]| && v.to <= held[v.generation][i].to;
        assert HeldWith(held, w)[v.generation][i] == held[v.generation][i];
      }
    }
    forall k | k in held
      ensures AllFrom(held[k], k, added + {w})
    {
      assert AllFrom(held[k], k, added);
    }
  }

  /** What was emitted lies before every later window. */
  lemma {:induction false} EmittedWith(log: seq<Line>, added: set<Window>, w: Window, hi: nat)
    requires hi <= |log| && hi <= w.from
    ensures Pick(log, added + {w}, 0, hi) == Pick(log, added, 0, hi)
  {
    forall i: nat | i < hi
      ensures Covered(added + {w}, i) <==> Covered(added, i)
    {
      if Covered(added, i) {
        var v :| v in added && v.from <= i < v.to;
        assert v in added + {w};
      }
    }
    PickSame(log, added + {w}, added, 0, hi);
  }

  lemma {:induction false} HeadOfHeld(held: map<uint32, seq<Window>>, w: Window, k: uint32)
    requires k in held && held[k] != []
    ensures HeldWith(held, w)[k][0] == held[k][0]
  {
  }

  lemma {:induction false} EmittedFirst(log: seq<Line>, w: Window)
    requires ValidWindow(log, w)
    ensures Pick(log, {} + {w}, 0, w.from) == []
  {
    PickNone(log, {} + {w}, 0, w.from);
  }

  ghost predicate EmittedUpTo(log: seq<Line>, s: State, held: map<uint32, seq<Window>>) {
    && s.gens.oldest in held
    && held[s.gens.oldest] != []
    && held[s.gens.oldest][0].from <= |log|
    && s.emitted == Pick(log, s.added, 0, held[s.gens.oldest][0].from)
  }

  lemma {:induction false} EmittedAfterAdd(log: seq<Line>, s: State, s': State, held: map<uint32, seq<Window>>, w: Window)
    requires HeldInv(log, s, held) && s.added != {}
    requires AddStep(log, s, s', w)
    ensures EmittedUpTo(log, s', HeldWith(held, w))
  {
    var v := held[s.gens.oldest][0];
    assert AllFrom(held[s.gens.oldest], s.gens.oldest, s.added);
    HeadOfHeld(held, w, s.gens.oldest);
    assert v in s.added + {w} && w in s.added + {w} && InOrder(v, w);
    EmittedWith(log, s.added, w, v.from);
  }

  lemma {:induction false} NumbersAfterAdd(g: Gens, slice: LineSlice)
    requires Numbers(g) && if g.store == map[] then slice.generation == 0 else slice.generation >= g.oldest
    ensures Numbers(g.Added(slice))
  {
    var added := g.Added(slice);
    assert slice.generation in added.store;
  }

  lemma {:induction false} HeldInvAdd(log: seq<Line>, s: State, s': State, held: map<uint32, seq<Window>>, w: Window)
    returns (held': map<uint32, seq<Window>>)
    requires HeldInv(log, s, held) && AddStep(log, s, s', w) && Numbers(s.gens)
    ensures HeldInv(log, s', held')
  {
    held' := HeldWith(held, w);
    HoldsWith(log, s.gens, held, w);
    StillHeldWith(s.gens, held, s.added, w, SliceOf(log, w));
    assert w in s'.added;
    assert EmittedUpTo(log, s', held') by {
      if s.added == {} {
        EmittedFirst(log, w);
        assert held'[w.generation] == [w];
      } else {
        EmittedAfterAdd(log, s, s', held, w);
      }
    }
  }

  lemma {:induction false} InvAdd(log: seq<Line>, s: State, s': State, w: Window)
    requires Inv(log, s) && AddStep(log, s, s', w)
    ensures Inv(log, s')
  {
    var held :| InvWith(log, s, held);
    var held' := HeldInvAdd(log, s, s', held, w);
    NumbersAdd(log, s, held, s', w);
    AllInLogWith(log, s.added, w);
    assert InvWith(log, s', held');
  }

  lemma {:induction false} NumbersAdd(log: seq<Line>, s: State, held: map<uint32, seq<Window>>, s': State, w: Window)
    requires HeldInv(log, s, held) && Numbers(s.gens) && AddStep(log, s, s', w)
    ensures Numbers(s'.gens)
  {
    if s.added != {} {
      assert s.gens.oldest in s.gens.store;
    }
    NumbersAfterAdd(s.gens, SliceOf(log, w));
  }

  // ---- What a flush emits

  /** From the oldest generation's first line up to `hi`, the longest windows of the flushed
      generations cover what all windows so far cover. */
  ghost predicate SameCover(added: set<Window>, ls: seq<Window>, lo: nat, hi: nat) {
    forall i: nat :: lo <= i < hi ==> (Covered(AsSet(ls), i) <==> Covered(added, i))
  }

  /** The flushed generations are all those from `oldest` to that of the last window. */
  ghost predicate Flushed(held: map<uint32, seq<Window>>, keys: seq<uint32>, ls: seq<Window>, oldest: uint32) {
    && AreLongest(held, keys, ls)
    && keys != [] && keys[0] == oldest
    && (forall i, j :: 0 <= i < j < |keys| ==> keys[i] < keys[j])
    && (forall k :: k in held && k <= keys[|keys| - 1] ==> k in keys)
  }

  lemma {:induction false} LongestOf(held: map<uint32, seq<Window>>, added: set<Window>, keys: seq<uint32>, ls: seq<Window>, j: nat)
    requires HeldFrom(held, added) && AreLongest(held, keys, ls) && j < |ls|
    ensures ls[j] in added && ls[j].generation == keys[j] && ls[j] in AsSet(ls)
  {
    assert AllFrom(held[keys[j]], keys[j], added);
  }

  lemma {:induction false} LongestOutlasts(held: map<uint32, seq<Window>>, added: set<Window>, keys: seq<uint32>, ls: seq<Window>,
      j: nat, w: Window)
    requires HeldFrom(held, added) && AreLongest(held, keys, ls) && j < |ls|
    requires keys[j] == w.generation && Outlasted(held[keys[j]], w)
    ensures w.to <= ls[j].to
  {
    var m :| 0 <= m < |held[keys[j]]| && w.to <= held[keys[j]][m].to;
    assert held[keys[j]][m] in held[keys[j]];
  }

  lemma {:induction false} OutlastingIndex(g: Gens, held: map<uint32, seq<Window>>, added: set<Window>,
      keys: seq<uint32>, ls: seq<Window>, w: Window) returns (j: nat)
    requires HeldFrom(held, added) && StillHeld(g, held, added) && Flushed(held, keys, ls, g.oldest)
    requires w in added && w.generation <= keys[|keys| - 1]
    ensures j < |ls|
    ensures (w.generation < keys[j] && j == 0) || (w.generation == keys[j] && w.to <= ls[j].to)
  {
    j := 0;
    if w.generation >= g.oldest {
      assert OutlastedIn(held, w);
      assert w.generation in keys;
      j :| 0 <= j < |keys| && keys[j] == w.generation;
      LongestOutlasts(held, added, keys, ls, j, w);
    }
  }

  /** A window that covers a line in the flushed part is outlasted by a longest one. */
  lemma {:induction false} CoveredByLongest(g: Gens, held: map<uint32, seq<Window>>, added: set<Window>,
      keys: seq<uint32>, ls: seq<Window>, w: Window, i: nat)
    requires HeldFrom(held, added) && StillHeld(g, held, added) && Disciplined(added)
    requires Flushed(held, keys, ls, g.oldest)
    requires w in added && w.from <= i < w.to && ls[0].from <= i
    requires w.generation <= keys[|keys| - 1]
    ensures Covered(AsSet(ls), i)
  {
    var j := OutlastingIndex(g, held, added, keys, ls, w);
    LongestOf(held, added, keys, ls, j);
    OlderIsOutlasted(added, w, ls[j], i);
    CoveredByMember(ls, j, i);
  }

  lemma {:induction false} OlderIsOutlasted(added: set<Window>, w: Window, l: Window, i: nat)
    requires Disciplined(added) && w in added && l in added
    requires w.generation < l.generation || (w.generation == l.generation && w.to <= l.to)
    requires w.from <= i < w.to && (w.generation < l.generation ==> l.from <= i)
    ensures l.from <= i < l.to
  {
    assert InOrder(w, l);
  }

  lemma {:induction false} CoveredByMember(ls: seq<Window>, j: nat, i: nat)
    requires j < |ls| && ls[j].from <= i < ls[j].to
    ensures Covered(AsSet(ls), i)
  {
    assert ls[j] in AsSet(ls);
  }

  lemma {:induction false} FlushedCover(g: Gens, held: map<uint32, seq<Window>>, added: set<Window>,
      keys: seq<uint32>, ls: seq<Window>, hi: nat)
    requires HeldFrom(held, added) && StillHeld(g, held, added) && Disciplined(added)
    requires Flushed(held, keys, ls, g.oldest)
    requires forall w :: w in added && w.generation > keys[|keys| - 1] ==> hi <= w.from
    ensures SameCover(added, ls, ls[0].from, hi)
  {
    forall i: nat | ls[0].from <= i < hi
      ensures Covered(AsSet(ls), i) <==> Covered(added, i)
    {
      if Covered(added, i) {
        var w :| w in added && w.from <= i < w.to;
        CoveredByLongest(g, held, added, keys, ls, w, i);
      }
      if Covered(AsSet(ls), i) {
        var w :| w in AsSet(ls) && w.from <= i < w.to;
        LongestIsAdded(held, added, keys, ls, w);
      }
    }
  }

  lemma {:induction false} LongestIsAdded(held: map<uint32, seq<Window>>, added: set<Window>,
      keys: seq<uint32>, ls: seq<Window>, w: Window)
    requires HeldFrom(held, added) && AreLongest(held, keys, ls) && w in AsSet(ls)
    ensures w in added
  {
    var j :| 0 <= j < |ls| && ls[j] == w;
    assert AllFrom(held[keys[j]], keys[j], added);
  }

  /** What was emitted before and what is flushed now join without overlap. */
  lemma {:induction false} EmittedJoin(log: seq<Line>, added: set<Window>, ls: seq<Window>, hi: nat)
    requires ls != [] && (forall j :: 0 <= j < |ls| ==> ls[0].from <= ls[j].from)
    requires ls[0].from <= hi <= |log|
    requires SameCover(added, ls, ls[0].from, hi)
    ensures Pick(log, added, 0, ls[0].from) + Pick(log, AsSet(ls), 0, hi) == Pick(log, added, 0, hi)
  {
    var lo := ls[0].from;
    PickSplit(log, added, 0, lo, hi);
    PickSplit(log, AsSet(ls), 0, lo, hi);
    PickNone(log, AsSet(ls), 0, lo);
    PickSame(log, AsSet(ls), added, lo, hi);
  }

  // ---- A flush keeps the invariant

  lemma {:induction false} WrapInRange(x: int)
    requires 0 <= x < TWO_TO_THE_32
    ensures Wrap(x) == x
  {
  }

  /** When a flush is due, neither the age nor the bound of the flush wraps around. */
  lemma {:induction false} NoWrap(g: Gens)
    requires Numbers(g) && g.ShouldFlush()
    ensures g.oldest in g.store && g.latest in g.store
    ensures Wrap(g.oldest + KEEP_GENERATIONS) == g.oldest + KEEP_GENERATIONS < g.latest
  {
    assert g.store == map[] ==> |g.store| == 0;

    WrapInRange(g.latest - g.oldest);
    WrapInRange(g.oldest + KEEP_GENERATIONS);
  }

  /** The flushed keys run from the oldest generation to the highest one up to the bound. */
  lemma {:induction false} SelectionIsFlushed(g: Gens, held: map<uint32, seq<Window>>, bound: int, keys: seq<uint32>, ls: seq<Window>)
    requires g.store.Keys == held.Keys && Numbers(g) && g.oldest in held && g.oldest <= bound
    requires IsSelection(g.store, bound, keys) && AreLongest(held, keys, ls) && keys != []
    ensures Flushed(held, keys, ls, g.oldest)
    ensures forall k :: k in held && k > keys[|keys| - 1] ==> k > bound
    ensures keys[|keys| - 1] <= bound
  {
    var n := |keys| - 1;
    assert g.oldest in keys;
    var z :| 0 <= z < |keys| && keys[z] == g.oldest;
    assert keys[0] in g.store;
    forall k | k in keys
      ensures k <= keys[n]
    {
      var j :| 0 <= j < |keys| && keys[j] == k;
    }
    assert keys[n] in keys;
  }

  ghost function HeldAfter(held: map<uint32, seq<Window>>, top: Window): map<uint32, seq<Window>> {
    (map k | k in held && k >= top.generation :: held[k])[top.generation := [top]]
  }

  lemma {:induction false} HoldsAfter(log: seq<Line>, g: Gens, held: map<uint32, seq<Window>>, top: Window)
    requires Holds(log, g.store, held) && ValidWindow(log, top)
    ensures Holds(log, AfterFlush(g, SliceOf(log, top)).store, HeldAfter(held, top))
  {
    assert SlicesOf(log, [top]) == [SliceOf(log, top)];
  }

  lemma {:induction false} HeldFromAfter(held: map<uint32, seq<Window>>, added: set<Window>, top: Window)
    requires HeldFrom(held, added) && top in added
    ensures HeldFrom(HeldAfter(held, top), added)
  {
    var held' := HeldAfter(held, top);
    forall k | k in held'
      ensures AllFrom(held'[k], k, added)
    {
      assert k != top.generation ==> AllFrom(held[k], k, added);
    }
  }

  lemma {:induction false} StillHeldAfter(g: Gens, g': Gens, held: map<uint32, seq<Window>>, added: set<Window>, top: Window)
    requires StillHeld(g, held, added) && g'.oldest == top.generation >= g.oldest
    requires forall w :: w in added && w.generation == top.generation ==> w.to <= top.to
    ensures StillHeld(g', HeldAfter(held, top), added)
  {
    forall w | w in added && w.generation >= g'.oldest
      ensures OutlastedIn(HeldAfter(held, top), w)
    {
      assert OutlastedIn(held, w);
      if w.generation == top.generation {
        assert [top][0] == top;
      }
    }
  }

  lemma {:induction false} NumbersAfter(g: Gens, last: LineSlice)
    requires Numbers(g) && last.generation in g.store && last.generation < g.latest && g.latest in g.store
    ensures Numbers(AfterFlush(g, last))
  {
    assert last.generation in AfterFlush(g, last).store;
  }

  /** All that one flush does, for a store in an invariant state. */
  lemma {:induction false} FlushResult(log: seq<Line>, s: State, held: map<uint32, seq<Window>>, bound: int,
      flushed: Outcome<(LineSlice, LineSlice)>)
    returns (keys: seq<uint32>, ls: seq<Window>, m: nat)
    requires InvWith(log, s, held) && s.gens.oldest in held && s.gens.oldest <= bound
    requires StoreFlushedTo(s.gens.store, bound, flushed)
    ensures Flushed(held, keys, ls, s.gens.oldest) && AllValid(log, ls)
    ensures keys[|keys| - 1] <= bound
    ensures forall k :: k in held && k > keys[|keys| - 1] ==> k > bound
    ensures flushed.Done? && IsLast(ls, m)
    ensures
      var ((first, last), top) := (flushed.value, ls[m]);
      && last == SliceOf(log, top)
      && first.lines == Pick(log, AsSet(ls), 0, top.from)
      && first.lines + last.lines == Pick(log, AsSet(ls), 0, |log|)
  {
    keys, ls, m := FlushOfWindows(log, s.gens.store, held, s.added, bound, flushed, s.gens.oldest);
    SelectionIsFlushed(s.gens, held, bound, keys, ls);
  }

  /** The step from a store's window set to the next after a flush. */
  lemma {:induction false} HeldInvFlush(log: seq<Line>, s: State, s': State, held: map<uint32, seq<Window>>,
      keys: seq<uint32>, ls: seq<Window>, m: nat)
    returns (held': map<uint32, seq<Window>>)
    requires InvWith(log, s, held) && s.added != {}
    requires Flushed(held, keys, ls, s.gens.oldest) && AllValid(log, ls) && m < |ls|
    requires s'.gens == AfterFlush(s.gens, SliceOf(log, ls[m])) && s'.added == s.added
    requires s'.emitted == s.emitted + Pick(log, AsSet(ls), 0, ls[m].from)
    ensures HeldInv(log, s', held')
  {
    var top := ls[m];
    held' := HeldAfter(held, top);
    LongestOf(held, s.added, keys, ls, m);
    HoldsAfter(log, s.gens, held, top);
    HeldFromAfter(held, s.added, top);
    TopOutlasts(s.gens, held, s.added, keys, ls, m);
    StillHeldAfter(s.gens, s'.gens, held, s.added, top);
    assert held'[top.generation][0] == top;
    EmittedUpToTop(log, s, held, keys, ls, m);
  }

  lemma {:induction false} TopOutlasts(g: Gens, held: map<uint32, seq<Window>>, added: set<Window>,
      keys: seq<uint32>, ls: seq<Window>, m: nat)
    requires HeldFrom(held, added) && StillHeld(g, held, added) && Flushed(held, keys, ls, g.oldest) && m < |ls|
    ensures ls[m].generation >= g.oldest
    ensures forall w :: w in added && w.generation == ls[m].generation ==> w.to <= ls[m].to
  {
    LongestOf(held, added, keys, ls, m);
    assert keys[0] <= keys[m];
    forall w | w in added && w.generation == ls[m].generation
      ensures w.to <= ls[m].to
    {
      assert OutlastedIn(held, w);
      LongestOutlasts(held, added, keys, ls, m, w);
    }
  }

  /** With the flushed lines, exactly the covered lines before the new oldest generation's first
      line have been emitted. */
  lemma {:induction false} EmittedUpToTop(log: seq<Line>, s: State, held: map<uint32, seq<Window>>,
      keys: seq<uint32>, ls: seq<Window>, m: nat)
    requires InvWith(log, s, held) && s.added != {}
    requires Flushed(held, keys, ls, s.gens.oldest) && AllValid(log, ls) && m < |ls|
    ensures s.emitted + Pick(log, AsSet(ls), 0, ls[m].from) == Pick(log, s.added, 0, ls[m].from)
  {
    LongestStarts(held, s.added, keys, ls);
    LaterStarts(held, s.added, keys, ls, m);
    FlushedCover(s.gens, held, s.added, keys, ls, ls[m].from);
    EmittedJoin(log, s.added, ls, ls[m].from);
    OldestStart(held, s.added, keys, ls, s.gens.oldest);
  }

  lemma {:induction false} OldestStart(held: map<uint32, seq<Window>>, added: set<Window>,
      keys: seq<uint32>, ls: seq<Window>, oldest: uint32)
    requires HeldFrom(held, added) && Disciplined(added) && Flushed(held, keys, ls, oldest)
    requires oldest in held && held[oldest] != []
    ensures held[oldest][0].from == ls[0].from
  {
    LongestOf(held, added, keys, ls, 0);
    assert AllFrom(held[oldest], oldest, added);
    assert InOrder(held[oldest][0], ls[0]);
  }

  lemma {:induction false} LongestStarts(held: map<uint32, seq<Window>>, added: set<Window>, keys: seq<uint32>, ls: seq<Window>)
    requires HeldFrom(held, added) && Disciplined(added) && AreLongest(held, keys, ls) && ls != []
    requires forall i, j :: 0 <= i < j < |keys| ==> keys[i] < keys[j]
    ensures forall j :: 0 <= j < |ls| ==> ls[0].from <= ls[j].from
  {
    forall j | 0 <= j < |ls|
      ensures ls[0].from <= ls[j].from
    {
      LongestOf(held, added, keys, ls, 0);
      LongestOf(held, added, keys, ls, j);
      assert InOrder(ls[0], ls[j]);
    }
  }

  lemma {:induction false} LaterStarts(held: map<uint32, seq<Window>>, added: set<Window>, keys: seq<uint32>, ls: seq<Window>,
      m: nat)
    requires HeldFrom(held, added) && Disciplined(added) && AreLongest(held, keys, ls) && m < |ls|
    requires forall i, j :: 0 <= i < j < |keys| ==> keys[i] < keys[j]
    ensures forall w :: w in added && w.generation > keys[|keys| - 1] ==> ls[m].from <= w.from
  {
    LongestOf(held, added, keys, ls, m);
    assert keys[m] <= keys[|keys| - 1];
    forall w | w in added && w.generation > keys[|keys| - 1]
      ensures ls[m].from <= w.from
    {
      assert InOrder(ls[m], w);
    }
  }

  /** A stored generation in reach of the next flush, from the oldest one on. */
  ghost predicate WithinReach(g: Gens, k: uint32) {
    k in g.store && g.oldest <= k <= g.oldest + KEEP_GENERATIONS && k < g.latest
  }

  /** The highest generation flushed: in reach, and none in reach is higher. */
  ghost predicate IsTop(g: Gens, k: uint32) {
    WithinReach(g, k) && forall j :: j in g.store && j <= g.oldest + KEEP_GENERATIONS ==> j <= k
  }

  /** From the oldest generation on, windows of different generations are different stretches of the
      log: the sort of the slices does not take one for the other. */
  ghost predicate NoTwins(ws: set<Window>, oldest: uint32) {
    forall v, w {:trigger SameStretch(v, w)} :: v in ws && w in ws && SameStretch(v, w) && v.generation >= oldest ==>
      v.generation == w.generation
  }

  ghost predicate SameStretch(v: Window, w: Window) {
    v.from == w.from && v.to == w.to && v.generation <= w.generation
  }

  /** Without twins the window that ends the log is that of the highest generation. */
  lemma {:induction false} LastIsHighest(g: Gens, held: map<uint32, seq<Window>>, added: set<Window>,
      keys: seq<uint32>, ls: seq<Window>, m: nat)
    requires HeldFrom(held, added) && Disciplined(added) && NoTwins(added, g.oldest)
    requires Flushed(held, keys, ls, g.oldest) && IsLast(ls, m)
    ensures m == |ls| - 1
  {
    var n := |ls| - 1;
    LongestOf(held, added, keys, ls, m);
    LongestOf(held, added, keys, ls, n);
    assert keys[0] <= keys[m] <= keys[n];
    assert InOrder(ls[m], ls[n]) && SameStretch(ls[m], ls[n]);
  }

  lemma {:induction false} StoredMeansAdded(log: seq<Line>, s: State, held: map<uint32, seq<Window>>)
    requires HeldInv(log, s, held) && s.gens.oldest in s.gens.store
    ensures s.added != {}
  {
  }

  lemma {:induction false} TopOfDueFlush(g: Gens, held: map<uint32, seq<Window>>, added: set<Window>,
      keys: seq<uint32>, ls: seq<Window>, m: nat)
    requires Numbers(g) && g.ShouldFlush() && g.store.Keys == held.Keys && HeldFrom(held, added)
    requires Flushed(held, keys, ls, g.oldest) && m < |ls|
    requires keys[|keys| - 1] <= g.oldest + KEEP_GENERATIONS
    requires forall k :: k in held && k > keys[|keys| - 1] ==> k > g.oldest + KEEP_GENERATIONS
    ensures WithinReach(g, ls[m].generation)
    ensures m == |ls| - 1 ==> IsTop(g, ls[m].generation)
  {
    NoWrap(g);
    LongestOf(held, added, keys, ls, m);
    assert keys[0] <= keys[m] <= keys[|keys| - 1];
  }

  lemma {:induction false} DueFlush(log: seq<Line>, s: State, held: map<uint32, seq<Window>>, g': Gens, r: Outcome<LineSlice>,
      flushed: Outcome<(LineSlice, LineSlice)>)
    returns (keys: seq<uint32>, ls: seq<Window>, m: nat)
    requires InvWith(log, s, held) && s.gens.ShouldFlush() && FlushesTo(s.gens, g', r, flushed)
    ensures Flushed(held, keys, ls, s.gens.oldest) && AllValid(log, ls) && IsLast(ls, m)
    ensures keys[|keys| - 1] <= s.gens.oldest + KEEP_GENERATIONS
    ensures forall k :: k in held && k > keys[|keys| - 1] ==> k > s.gens.oldest + KEEP_GENERATIONS
    ensures r.Done? && r.value.lines == Pick(log, AsSet(ls), 0, ls[m].from)
    ensures g' == AfterFlush(s.gens, SliceOf(log, ls[m]))
  {
    NoWrap(s.gens);
    keys, ls, m := FlushResult(log, s, held, s.gens.oldest + KEEP_GENERATIONS, flushed);
  }

  /** The oldest generation after a due flush. */
  lemma {:induction false} OldestAfterFlush(log: seq<Line>, s: State, held: map<uint32, seq<Window>>, g': Gens,
      r: Outcome<LineSlice>, flushed: Outcome<(LineSlice, LineSlice)>)
    requires InvWith(log, s, held) && s.gens.ShouldFlush() && FlushesTo(s.gens, g', r, flushed)
    ensures WithinReach(s.gens, g'.oldest) && g'.latest == s.gens.latest
    ensures NoTwins(s.added, s.gens.oldest) ==> IsTop(s.gens, g'.oldest)
  {
    var keys, ls, m := DueFlush(log, s, held, g', r, flushed);
    TopOfDueFlush(s.gens, held, s.added, keys, ls, m);
    if NoTwins(s.added, s.gens.oldest) {
      LastIsHighest(s.gens, held, s.added, keys, ls, m);
    }
  }

  lemma {:induction false} InvEmitWith(log: seq<Line>, s: State, s': State, held: map<uint32, seq<Window>>,
      r: Outcome<LineSlice>, flushed: Outcome<(LineSlice, LineSlice)>)
    requires InvWith(log, s, held) && s.gens.ShouldFlush() && FlushesTo(s.gens, s'.gens, r, flushed) && r.Done?
    requires s'.added == s.added && s'.emitted == s.emitted + r.value.lines
    ensures Inv(log, s')
  {
    var keys, ls, m := DueFlush(log, s, held, s'.gens, r, flushed);
    TopOfDueFlush(s.gens, held, s.added, keys, ls, m);
    StoredMeansAdded(log, s, held);
    var held' := HeldInvFlush(log, s, s', held, keys, ls, m);
    NumbersAfter(s.gens, SliceOf(log, ls[m]));
    assert InvWith(log, s', held');
  }

  lemma {:induction false} InvEmit(log: seq<Line>, s: State, s': State)
    requires Inv(log, s) && EmitStep(s, s')
    ensures Inv(log, s')
  {
    var held :| InvWith(log, s, held);
    var r :| FlushStep(s.gens, s'.gens, r) && r.Done? && s'.emitted == s.emitted + r.value.lines;
    var flushed :| FlushesTo(s.gens, s'.gens, r, flushed);
    InvEmitWith(log, s, s', held, r, flushed);
  }

  // ---- The theorems

  /** Every state of every run satisfies the invariant. */
  lemma {:induction false} InvRun(log: seq<Line>, run: seq<State>, n: nat)
    requires IsLog(log) && IsRun(log, run) && n < |run|
    ensures Inv(log, run[n])
    decreases n
  {
    if n == 0 {
      InvInit(log, run[0]);
    } else {
      InvRun(log, run, n - 1);
      assert Next(log, run[n - 1], run[n - 1 + 1]);
      if EmitStep(run[n - 1], run[n]) {
        InvEmit(log, run[n - 1], run[n]);
      } else {
        var w :| AddStep(log, run[n - 1], run[n], w);
        InvAdd(log, run[n - 1], run[n], w);
      }
    }
  }

  /** A flush that is due never panics. */
  lemma {:induction false} FlushNeverPanics(log: seq<Line>, run: seq<State>, g': Gens, r: Outcome<LineSlice>)
    requires IsLog(log) && IsRun(log, run)
    requires var s := run[|run| - 1]; s.gens.ShouldFlush() && FlushStep(s.gens, g', r)
    ensures r.Done?
  {
    InvRun(log, run, |run| - 1);
    DueFlushSucceeds(log, run[|run| - 1], g', r);
  }

  lemma {:induction false} DueFlushSucceeds(log: seq<Line>, s: State, g': Gens, r: Outcome<LineSlice>)
    requires Inv(log, s) && s.gens.ShouldFlush() && FlushStep(s.gens, g', r)
    ensures r.Done?
  {
    var held :| InvWith(log, s, held);
    var flushed :| FlushesTo(s.gens, g', r, flushed);
    var keys, ls, m := DueFlush(log, s, held, g', r, flushed);
  }

  lemma {:induction false} FlushAllOfHeld(log: seq<Line>, s: State, held: map<uint32, seq<Window>>, r: Outcome<LineSlice>)
    requires InvWith(log, s, held) && s.added != {} && FlushAllResult(s.gens, r)
    ensures r.Done? && s.emitted + r.value.lines == Pick(log, s.added, 0, |log|)
  {
    var keys, ls := FlushOfAll(log, s, held, r);
    LongestStarts(held, s.added, keys, ls);
    FlushedCover(s.gens, held, s.added, keys, ls, |log|);
    EmittedJoin(log, s.added, ls, |log|);
    OldestStart(held, s.added, keys, ls, s.gens.oldest);
  }

  lemma {:induction false} FlushOfAll(log: seq<Line>, s: State, held: map<uint32, seq<Window>>, r: Outcome<LineSlice>)
    returns (keys: seq<uint32>, ls: seq<Window>)
    requires InvWith(log, s, held) && s.added != {} && FlushAllResult(s.gens, r)
    ensures Flushed(held, keys, ls, s.gens.oldest) && AllValid(log, ls)
    ensures forall w :: w in s.added ==> w.generation <= keys[|keys| - 1]
    ensures r.Done? && r.value.lines == Pick(log, AsSet(ls), 0, |log|)
  {
    assert s.gens.oldest in s.gens.store;
    var flushed :| StoreFlushedTo(s.gens.store, TWO_TO_THE_32, flushed) && r == Joined(flushed);
    var m;
    keys, ls, m := FlushResult(log, s, held, TWO_TO_THE_32, flushed);
    JoinedLines(flushed, r);
    NothingLater(s.gens, held, s.added, keys, ls);
  }

  lemma {:induction false} JoinedLines(flushed: Outcome<(LineSlice, LineSlice)>, r: Outcome<LineSlice>)
    requires flushed.Done? && r == Joined(flushed)
    ensures r.Done? && r.value.lines == flushed.value.0.lines + flushed.value.1.lines
  {
  }

  lemma {:induction false} NothingLater(g: Gens, held: map<uint32, seq<Window>>, added: set<Window>,
      keys: seq<uint32>, ls: seq<Window>)
    requires HeldFrom(held, added) && StillHeld(g, held, added) && Flushed(held, keys, ls, g.oldest)
    requires forall k :: k in held ==> k <= keys[|keys| - 1]
    ensures forall w :: w in added ==> w.generation <= keys[|keys| - 1]
  {
    assert keys[0] <= keys[|keys| - 1];
    forall w | w in added
      ensures w.generation <= keys[|keys| - 1]
    {
      assert w.generation >= g.oldest ==> OutlastedIn(held, w);
    }
  }

  lemma {:induction false} FlushAllCompletes(log: seq<Line>, s: State, r: Outcome<LineSlice>)
    requires Inv(log, s) && FlushAllResult(s.gens, r)
    ensures r.Done? && s.emitted + r.value.lines == Pick(log, s.added, 0, |log|)
  {
    var held :| InvWith(log, s, held);
    if s.added == {} {
      PickNone(log, {}, 0, |log|);
    } else {
      FlushAllOfHeld(log, s, held, r);
    }
  }

  /** The streaming theorem. Take any run of arrivals and due flushes over windows of one log,
      ended by FlushAll: the emitted lines and the final ones together are every line that any
      window covered, once, in log order. */
  lemma {:induction false} StreamedOnceInOrder(log: seq<Line>, run: seq<State>, r: Outcome<LineSlice>)
    requires IsLog(log) && IsRun(log, run)
    requires FlushAllResult(run[|run| - 1].gens, r)
    ensures r.Done?
    ensures
      var s := run[|run| - 1];
      s.emitted + r.value.lines == Pick(log, s.added, 0, |log|)
  {
    InvRun(log, run, |run| - 1);
    FlushAllCompletes(log, run[|run| - 1], r);
  }

  /** Some generation after the oldest one is within reach of the next flush. */
  ghost predicate InReach(g: Gens) {
    exists k :: k in g.store && g.oldest < k <= g.oldest + KEEP_GENERATIONS
  }

  lemma {:induction false} TopAdvancesIff(g: Gens, k: uint32)
    requires g.oldest in g.store && IsTop(g, k)
    ensures g.oldest < k <==> InReach(g)
  {
  }

  /** In every reachable state with a stored slice, the oldest and the latest generation are
      stored, all numbers lie between them, and their 32-bit difference is exact. */
  lemma {:induction false} ReachableNumbers(log: seq<Line>, run: seq<State>)
    requires IsLog(log) && IsRun(log, run) && run[|run| - 1].gens.store != map[]
    ensures
      var g := run[|run| - 1].gens;
      && g.oldest in g.store && g.latest in g.store
      && (forall k :: k in g.store ==> g.oldest <= k <= g.latest)
      && Wrap(g.latest - g.oldest) == g.latest - g.oldest >= 0
  {
    var s := run[|run| - 1];
    InvRun(log, run, |run| - 1);
    NumbersOf(log, s);
    WrapInRange(s.gens.latest - s.gens.oldest);
  }

  lemma {:induction false} NumbersOf(log: seq<Line>, s: State)
    requires Inv(log, s)
    ensures Numbers(s.gens)
  {
    var held :| InvWith(log, s, held);
  }

  /** A due flush moves the oldest generation to a stored one in reach, hence never back nor past
      the latest. Without twins that is the highest one in reach, and it is moved on at all exactly
      when a later stored one is in reach. */
  lemma {:induction false} FlushAdvancesIff(log: seq<Line>, run: seq<State>, s': State)
    requires IsLog(log) && IsRun(log, run) && EmitStep(run[|run| - 1], s')
    ensures
      var g := run[|run| - 1].gens;
      && WithinReach(g, s'.gens.oldest) && s'.gens.latest == g.latest
      && (NoTwins(s'.added, g.oldest) ==> IsTop(g, s'.gens.oldest) && (g.oldest < s'.gens.oldest <==> InReach(g)))
  {
    var s := run[|run| - 1];
    InvRun(log, run, |run| - 1);
    EmitMovesToTop(log, s, s');
    if NoTwins(s.added, s.gens.oldest) {
      TopAdvancesIff(s.gens, s'.gens.oldest);
    }
  }

  lemma {:induction false} EmitMovesToTop(log: seq<Line>, s: State, s': State)
    requires Inv(log, s) && EmitStep(s, s')
    ensures WithinReach(s.gens, s'.gens.oldest) && s'.gens.latest == s.gens.latest && s.gens.oldest in s.gens.store
    ensures NoTwins(s.added, s.gens.oldest) ==> IsTop(s.gens, s'.gens.oldest)
    ensures forall k :: k in s'.gens.store <==> k in s.gens.store && k >= s'.gens.oldest
  {
    var held :| InvWith(log, s, held);
    var r :| FlushStep(s.gens, s'.gens, r) && r.Done? && s'.emitted == s.emitted + r.value.lines;
    var flushed :| FlushesTo(s.gens, s'.gens, r, flushed);
    NoWrap(s.gens);
    OldestAfterFlush(log, s, held, s'.gens, r, flushed);
    KeysAfterFlush(s.gens, s'.gens, r, flushed);
  }

  lemma {:induction false} KeysAfterFlush(g: Gens, g': Gens, r: Outcome<LineSlice>, flushed: Outcome<(LineSlice, LineSlice)>)
    requires FlushesTo(g, g', r, flushed) && r.Done? && g'.oldest in g.store
    ensures forall k :: k in g'.store <==> k in g.store && k >= g'.oldest
  {
    assert g' == AfterFlush(g, flushed.value.1);
  }

  ghost predicate Consecutive(g: Gens) {
    forall k: uint32 :: g.oldest <= k <= g.latest ==> k in g.store
  }

  /** With consecutive generations and no twins a flush moves the oldest one on by exactly five. */
  lemma {:induction false} FlushAdvancesByFive(log: seq<Line>, run: seq<State>, s': State)
    requires IsLog(log) && IsRun(log, run) && EmitStep(run[|run| - 1], s')
    requires Consecutive(run[|run| - 1].gens) && NoTwins(s'.added, run[|run| - 1].gens.oldest)
    ensures s'.gens.oldest == run[|run| - 1].gens.oldest + KEEP_GENERATIONS
  {
    InvRun(log, run, |run| - 1);
    EmitMovesByFive(log, run[|run| - 1], s');
  }

  lemma {:induction false} EmitMovesByFive(log: seq<Line>, s: State, s': State)
    requires Inv(log, s) && EmitStep(s, s')
    requires Consecutive(s.gens) && NoTwins(s.added, s.gens.oldest)
    ensures s'.gens.oldest == s.gens.oldest + KEEP_GENERATIONS
  {
    EmitMovesToTop(log, s, s');
    FifthIsTop(log, s, s'.gens.oldest);
  }

  lemma {:induction false} FifthIsTop(log: seq<Line>, s: State, k: uint32)
    requires Inv(log, s) && s.gens.ShouldFlush() && IsTop(s.gens, k)
    requires Consecutive(s.gens)
    ensures k == s.gens.oldest + KEEP_GENERATIONS
  {
    FifthIsStored(log, s);
  }

  lemma {:induction false} FifthIsStored(log: seq<Line>, s: State)
    requires Inv(log, s) && s.gens.ShouldFlush()
    requires Consecutive(s.gens)
    ensures s.gens.oldest + KEEP_GENERATIONS < TWO_TO_THE_32
    ensures s.gens.oldest + KEEP_GENERATIONS in s.gens.store
  {
    NoWrap(s.gens);
    var k: uint32 := s.gens.oldest + KEEP_GENERATIONS;
    assert k in s.gens.store;
  }
}
