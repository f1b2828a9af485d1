/** The store of slices by poll generation (collection_tools/pkg/loglines/lines.go). */
module LogGenerations {
  import opened LogLines
  import opened Outcomes
  import opened DedupSlices

  const KEEP_GENERATIONS := 5

  /** The unsigned 32-bit value of a sum or a difference of two such values. */
  function Wrap(x: int): (r: uint32)
    requires -TWO_TO_THE_32 < x < 2 * TWO_TO_THE_32
    ensures r == x % TWO_TO_THE_32
  {
    if x < 0 then x + TWO_TO_THE_32
    else if x < TWO_TO_THE_32 then x
    else x - TWO_TO_THE_32
  }

  /** The value of a store. */
  datatype Gens = Gens(store: map<uint32, seq<LineSlice>>, latest: uint32, oldest: uint32) {

    predicate ShouldFlush() {
      Wrap(latest - oldest) > KEEP_GENERATIONS && |store| > KEEP_GENERATIONS
    }

    ghost function Added(slice: LineSlice): Gens {
      var g := slice.generation;
      var slices := if g in store then store[g] else [];
      Gens(store[g := slices + [slice]], if latest < g then g else latest, oldest)
    }

    /** Every generation has slices, and they carry its number. */
    ghost predicate WellFormed() {
      forall g :: g in store ==>
        store[g] != [] && forall i :: 0 <= i < |store[g]| ==> store[g][i].generation == g
    }
  }

  const NO_GENERATIONS := Gens(map[], 0, 0)

  // ---- What a flush may return

  /** The generations up to `bound`, in ascending order. */
  ghost predicate IsSelection(store: map<uint32, seq<LineSlice>>, bound: int, keys: seq<uint32>) {
    && (forall i, j :: 0 <= i < j < |keys| ==> keys[i] < keys[j])
    && (forall k :: k in keys <==> k in store && k <= bound)
  }

  ghost predicate AreGroups(store: map<uint32, seq<LineSlice>>, keys: seq<uint32>, groups: seq<seq<LineSlice>>) {
    && |groups| == |keys|
    && forall i :: 0 <= i < |keys| ==> keys[i] in store && groups[i] == store[keys[i]]
  }

  ghost predicate GenerationDeduped(group: seq<LineSlice>, r: Outcome<LineSlice>) {
    exists ordered :: IsSorting(group, ordered) && r == Joined(DedupOrdered(ordered))
  }

  ghost predicate AllDeduped(groups: seq<seq<LineSlice>>, slices: seq<LineSlice>) {
    && |slices| == |groups|
    && forall i :: 0 <= i < |groups| ==> GenerationDeduped(groups[i], Done(slices[i]))
  }

  ghost predicate SlicesDeduped(slices: seq<LineSlice>, r: Outcome<(LineSlice, LineSlice)>) {
    exists ordered :: IsSorting(slices, ordered) && r == DedupOrdered(ordered)
  }

  ghost predicate FlushedTo(groups: seq<seq<LineSlice>>, r: Outcome<(LineSlice, LineSlice)>) {
    || (r.Panicked? && exists i :: 0 <= i < |groups| && GenerationDeduped(groups[i], Panicked))
    || (exists slices :: AllDeduped(groups, slices) && SlicesDeduped(slices, r))
  }

  ghost predicate StoreFlushedTo(store: map<uint32, seq<LineSlice>>, bound: int, r: Outcome<(LineSlice, LineSlice)>) {
    exists keys, groups :: IsSelection(store, bound, keys) && AreGroups(store, keys, groups) && FlushedTo(groups, r)
  }

  ghost function Kept(store: map<uint32, seq<LineSlice>>, from: uint32): map<uint32, seq<LineSlice>> {
    map k | k in store && k >= from :: store[k]
  }

  /** The store after a flush that left `last` as the last slice. */
  ghost function AfterFlush(g: Gens, last: LineSlice): Gens {
    Gens(Kept(g.store, last.generation)[last.generation := [last]], g.latest, last.generation)
  }

  /** A flush that ends in `flushed`: after a panic the store is as it was. */
  ghost predicate FlushesTo(g: Gens, g': Gens, r: Outcome<LineSlice>, flushed: Outcome<(LineSlice, LineSlice)>) {
    && StoreFlushedTo(g.store, Wrap(g.oldest + KEEP_GENERATIONS), flushed)
    && (flushed.Panicked? ==> r == Panicked && g' == g)
    && (flushed.Done? ==> r == Done(flushed.value.0) && g' == AfterFlush(g, flushed.value.1))
  }

  ghost predicate FlushStep(g: Gens, g': Gens, r: Outcome<LineSlice>) {
    exists flushed :: FlushesTo(g, g', r, flushed)
  }

  ghost predicate FlushAllResult(g: Gens, r: Outcome<LineSlice>) {
    if g.store == map[] then r == Done(EMPTY_SLICE)
    else exists out :: StoreFlushedTo(g.store, TWO_TO_THE_32, out) && r == Joined(out)
  }

  lemma {:induction false} AfterFlushIsWellFormed(g: Gens, last: LineSlice)
    requires g.WellFormed()
    ensures AfterFlush(g, last).WellFormed()
  {
    var after := AfterFlush(g, last);
    forall k | k in after.store
      ensures after.store[k] != [] && forall i :: 0 <= i < |after.store[k]| ==> after.store[k][i].generation == k
    {
      if k != last.generation {
        assert after.store[k] == g.store[k];
      }
    }
  }

  // ---- The object

  class Generations {
    var Store: map<uint32, seq<LineSlice>>
    var Latest: uint32
    var Oldest: uint32

    ghost function View(): Gens
      reads this
    {
      Gens(Store, Latest, Oldest)
    }

    constructor ()
      ensures View() == NO_GENERATIONS && View().WellFormed()
    {
      Store, Latest, Oldest := map[], 0, 0;
    }

    method Add(lineSlice: LineSlice)
      requires View().WellFormed()
      modifies this
      ensures View() == old(View()).Added(lineSlice)
      ensures View().WellFormed()
    {
      var genSlice := [];
      if lineSlice.generation in Store {
        genSlice := Store[lineSlice.generation];
      }
      Store := Store[lineSlice.generation := genSlice + [lineSlice]];
      if Latest < lineSlice.generation {
        Latest := lineSlice.generation;
      }
    }

    method ShouldFlush() returns (r: bool)
      ensures r == View().ShouldFlush()
    {
      r := Wrap(Latest - Oldest) > KEEP_GENERATIONS && |Store| > KEEP_GENERATIONS;
    }

    method RemoveOlderThan(keepGen: uint32)
      modifies this
      ensures View() == Gens(Kept(old(Store), keepGen), old(Latest), keepGen)
    {
      var keys := Store.Keys;
      while keys != {}
        invariant keys <= old(Store).Keys
        invariant Store == map k | k in old(Store) && (k in keys || k >= keepGen) :: old(Store)[k]
        invariant Latest == old(Latest) && Oldest == old(Oldest)
        decreases keys
      {
        var g :| g in keys;
        if g < keepGen {
          Store := Store - {g};
        }
        keys := keys - {g};
      }
      Oldest := keepGen;
    }

    /** Collects the generations up to `bound`, in any order. */
    method Collect(bound: int) returns (groups: seq<seq<LineSlice>>, ghost keys: seq<uint32>)
      ensures AreGroups(Store, keys, groups)
      ensures forall i, j :: 0 <= i < j < |keys| ==> keys[i] != keys[j]
      ensures forall k :: k in keys <==> k in Store && k <= bound
    {
      groups, keys := [], [];
      var left := Store.Keys;
      while left != {}
        invariant left <= Store.Keys
        invariant AreGroups(Store, keys, groups)
        invariant forall i, j :: 0 <= i < j < |keys| ==> keys[i] != keys[j]
        invariant forall k :: k in keys <==> k in Store && k !in left && k <= bound
        decreases left
      {
        var g :| g in left;
        if g <= bound {
          groups, keys := groups + [Store[g]], keys + [g];
        }
        left := left - {g};
      }
    }

    method Flush() returns (r: Outcome<LineSlice>)
      requires View().WellFormed()
      modifies this
      ensures FlushStep(old(View()), View(), r)
      ensures View().WellFormed()
    {
      var lastGen := Wrap(Oldest + KEEP_GENERATIONS);
      var gensToFlush, keys := Collect(lastGen);
      var flushed := FlushGroups(Store, lastGen, gensToFlush, keys);
      ghost var before := View();
      if flushed.Panicked? {
        assert FlushesTo(before, View(), Panicked, flushed);
        return Panicked;
      }
      var (result, lastSlice) := flushed.value;
      ReplaceFlushed(lastSlice);
      AfterFlushIsWellFormed(before, lastSlice);
      assert FlushesTo(before, View(), Done(result), flushed);
      r := Done(result);
    }

    method ReplaceFlushed(lastSlice: LineSlice)
      modifies this
      ensures View() == AfterFlush(old(View()), lastSlice)
    {
      RemoveOlderThan(lastSlice.generation);
      Store := Store[lastSlice.generation := [lastSlice]];
    }

    method FlushAll() returns (r: Outcome<LineSlice>)
      requires View().WellFormed()
      ensures FlushAllResult(View(), r)
    {
      var gensToFlush, keys := Collect(TWO_TO_THE_32);
      if |gensToFlush| == 0 {
        assert Store == map[] by {
          assert forall k :: k !in Store;
        }
        return Done(EMPTY_SLICE);
      }
      assert keys[0] in Store;
      var flushed := FlushGroups(Store, TWO_TO_THE_32, gensToFlush, keys);
      r := Joined(flushed);
    }
  }

  // ---- Flushing the collected generations

  /** Sorts by generation, de-duplicates each generation, then all of them. */
  method FlushGroups(ghost store: map<uint32, seq<LineSlice>>, ghost bound: int,
      generations: seq<seq<LineSlice>>, ghost keys: seq<uint32>) returns (r: Outcome<(LineSlice, LineSlice)>)
    requires Gens(store, 0, 0).WellFormed() && AreGroups(store, keys, generations)
    requires forall i, j :: 0 <= i < j < |keys| ==> keys[i] != keys[j]
    requires forall k :: k in keys <==> k in store && k <= bound
    ensures StoreFlushedTo(store, bound, r)
  {
    ghost var sortedKeys;
    var groups;
    groups, sortedKeys := SortGroups(store, generations, keys);
    assert IsSelection(store, bound, sortedKeys);
    r := DedupGroups(groups);
  }

  method DedupGroups(groups: seq<seq<LineSlice>>) returns (r: Outcome<(LineSlice, LineSlice)>)
    ensures FlushedTo(groups, r)
  {
    var dedupGen := [];
    for index := 0 to |groups|
      invariant AllDeduped(groups[..index], dedupGen)
    {
      var gen := new LineSlice[|groups[index]|](i requires 0 <= i < |groups[index]| => groups[index][i]);
      assert gen[..] == groups[index];
      var deduped := DedupGeneration(gen);
      assert GenerationDeduped(groups[index], deduped);
      if deduped.Panicked? {
        return Panicked;
      }
      dedupGen := dedupGen + [deduped.value];
    }
    assert groups[..|groups|] == groups;
    var slices := new LineSlice[|dedupGen|](i requires 0 <= i < |dedupGen| => dedupGen[i]);
    assert slices[..] == dedupGen;
    r := DedupLineSlices(slices);
    assert SlicesDeduped(dedupGen, r);
  }

  method SortGroups(ghost store: map<uint32, seq<LineSlice>>, generations: seq<seq<LineSlice>>, ghost keys: seq<uint32>)
    returns (r: seq<seq<LineSlice>>, ghost sortedKeys: seq<uint32>)
    requires Gens(store, 0, 0).WellFormed() && AreGroups(store, keys, generations)
    requires forall i, j :: 0 <= i < j < |keys| ==> keys[i] != keys[j]
    ensures AreGroups(store, sortedKeys, r)
    ensures forall i, j :: 0 <= i < j < |sortedKeys| ==> sortedKeys[i] < sortedKeys[j]
    ensures forall k :: k in sortedKeys <==> k in keys
  {
    r, sortedKeys := [], [];
    for i := 0 to |generations|
      invariant AreGroups(store, sortedKeys, r)
      invariant forall i, j :: 0 <= i < j < |sortedKeys| ==> sortedKeys[i] < sortedKeys[j]
      invariant forall k :: k in sortedKeys <==> k in keys[..i]
    {
      r, sortedKeys := InsertGroup(store, generations[i], keys[i], r, sortedKeys);
      assert keys[..i + 1] == keys[..i] + [keys[i]];
    }
    assert keys[..|keys|] == keys;
  }

  method InsertGroup(ghost store: map<uint32, seq<LineSlice>>, group: seq<LineSlice>, ghost key: uint32,
      groups: seq<seq<LineSlice>>, ghost keys: seq<uint32>) returns (r: seq<seq<LineSlice>>, ghost newKeys: seq<uint32>)
    requires Gens(store, 0, 0).WellFormed() && AreGroups(store, keys, groups)
    requires forall i, j :: 0 <= i < j < |keys| ==> keys[i] < keys[j]
    requires key in store && group == store[key] && key !in keys
    ensures AreGroups(store, newKeys, r)
    ensures forall i, j :: 0 <= i < j < |newKeys| ==> newKeys[i] < newKeys[j]
    ensures forall k :: k in newKeys <==> k == key || k in keys
  {
    var i := 0;
    while i < |groups| && groups[i][0].generation < group[0].generation
      invariant 0 <= i <= |groups|
      invariant forall k :: 0 <= k < i ==> keys[k] < key
    {
      i := i + 1;
    }
    r := groups[..i] + [group] + groups[i..];
    newKeys := keys[..i] + [key] + keys[i..];
    KeyInserted(keys, key, i);
  }

  lemma {:induction false} KeyInserted(keys: seq<uint32>, key: uint32, i: nat)
    requires i <= |keys| && key !in keys
    requires forall j, k :: 0 <= j < k < |keys| ==> keys[j] < keys[k]
    requires (forall k :: 0 <= k < i ==> keys[k] < key) && (i < |keys| ==> key <= keys[i])
    ensures
      var r := keys[..i] + [key] + keys[i..];
      && (forall j, k :: 0 <= j < k < |r| ==> r[j] < r[k])
      && (forall k :: k in r <==> k == key || k in keys)
  {
    assert keys == keys[..i] + keys[i..];
  }
}
