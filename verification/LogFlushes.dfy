/** Every flush of a store has a result, be it a panic (collection_tools/pkg/loglines/lines.go,
    collection_tools/pkg/loglines/dedup.go). */
module LogFlushes {
  import opened LogLines
  import opened Outcomes
  import opened DedupSlices
  import opened LogGenerations

  lemma {:induction false} SortedKeys(keys: set<uint32>) returns (r: seq<uint32>)
    ensures forall i, j :: 0 <= i < j < |r| ==> r[i] < r[j]
    ensures forall k :: k in r <==> k in keys
  {
    r := [];
    if keys != {} {
      var key :| key in keys;
      var rest := SortedKeys(keys - {key});
      var i := BehindSmaller(rest, key);
      r := rest[..i] + [key] + rest[i..];
      KeyInserted(rest, key, i);
    }
  }

  lemma {:induction false} BehindSmaller(keys: seq<uint32>, key: uint32) returns (i: nat)
    requires forall j, k :: 0 <= j < k < |keys| ==> keys[j] < keys[k]
    ensures i <= |keys| && (forall k :: 0 <= k < i ==> keys[k] < key) && (i < |keys| ==> key <= keys[i])
  {
    i := |keys|;
    if keys != [] && key <= keys[|keys| - 1] {
      i := BehindSmaller(keys[..|keys| - 1], key);
    }
  }

  lemma {:induction false} SortingExists(slices: seq<LineSlice>) returns (ordered: seq<LineSlice>)
    ensures IsSorting(slices, ordered)
  {
    ordered := [];
    if slices != [] {
      var rest := SortingExists(slices[1..]);
      var i := BehindEarlier(rest, slices[0]);
      ordered := rest[..i] + [slices[0]] + rest[i..];
      InsertedInOrder(slices[0], rest, i);
      SortedWithFirst(slices, rest, ordered);
    }
  }

  lemma {:induction false} SortedWithFirst(slices: seq<LineSlice>, rest: seq<LineSlice>, ordered: seq<LineSlice>)
    requires slices != [] && multiset(rest) == multiset(slices[1..]) && IsSorting([slices[0]] + rest, ordered)
    ensures IsSorting(slices, ordered)
  {
    assert slices == [slices[0]] + slices[1..];
  }

  lemma {:induction false} BehindEarlier(ordered: seq<LineSlice>, slice: LineSlice) returns (i: nat)
    ensures i <= |ordered| && (forall k :: 0 <= k < i ==> Earlier(ordered[k], slice))
    ensures i < |ordered| ==> !Earlier(ordered[i], slice)
  {
    i := 0;
    if ordered != [] && Earlier(ordered[0], slice) {
      var behind := BehindEarlier(ordered[1..], slice);
      i := behind + 1;
      assert forall k :: 1 <= k < i ==> ordered[k] == ordered[1..][k - 1];
    }
  }

  /** The results of the first n groups, up to a panic. */
  lemma {:induction false} GroupResults(groups: seq<seq<LineSlice>>, n: nat) returns (slices: seq<LineSlice>, panics: bool)
    requires n <= |groups|
    ensures panics ==> exists i :: 0 <= i < n && GenerationDeduped(groups[i], Panicked)
    ensures !panics ==> |slices| == n && forall i :: 0 <= i < n ==> GenerationDeduped(groups[i], Done(slices[i]))
  {
    slices, panics := [], false;
    if n > 0 {
      slices, panics := GroupResults(groups, n - 1);
      if !panics {
        var ordered := SortingExists(groups[n - 1]);
        var out := Joined(DedupOrdered(ordered));
        assert GenerationDeduped(groups[n - 1], out);
        if out.Panicked? {
          panics := true;
        } else {
          slices := slices + [out.value];
        }
      }
    }
  }

  lemma {:induction false} GroupsHaveResult(groups: seq<seq<LineSlice>>) returns (r: Outcome<(LineSlice, LineSlice)>)
    ensures FlushedTo(groups, r)
  {
    var slices, panics := GroupResults(groups, |groups|);
    if panics {
      r := Panicked;
    } else {
      var ordered := SortingExists(slices);
      r := DedupOrdered(ordered);
      assert AllDeduped(groups, slices) && SlicesDeduped(slices, r);
    }
  }

  /** However the store looks, flushing its generations up to the bound gives something. */
  lemma {:induction false} StoreHasFlush(store: map<uint32, seq<LineSlice>>, bound: int)
    returns (r: Outcome<(LineSlice, LineSlice)>)
    ensures StoreFlushedTo(store, bound, r)
  {
    var keys := SortedKeys(set k | k in store && k <= bound);
    var groups := seq(|keys|, i requires 0 <= i < |keys| => if keys[i] in store then store[keys[i]] else []);
    r := GroupsHaveResult(groups);
    assert IsSelection(store, bound, keys);
    assert forall i :: 0 <= i < |keys| ==> keys[i] in keys;
    assert AreGroups(store, keys, groups);
  }

  lemma {:induction false} FlushExists(g: Gens) returns (g': Gens, r: Outcome<LineSlice>)
    ensures FlushStep(g, g', r)
  {
    var flushed := StoreHasFlush(g.store, Wrap(g.oldest + KEEP_GENERATIONS));
    g', r := g, Panicked;
    if flushed.Done? {
      g', r := AfterFlush(g, flushed.value.1), Done(flushed.value.0);
    }
    assert FlushesTo(g, g', r, flushed);
  }

  lemma {:induction false} FlushAllExists(g: Gens) returns (r: Outcome<LineSlice>)
    ensures FlushAllResult(g, r)
  {
    r := Done(EMPTY_SLICE);
    if g.store != map[] {
      var out := StoreHasFlush(g.store, TWO_TO_THE_32);
      r := Joined(out);
    }
  }
}
