/** De-duplicating many slices: sorted by time, folded from the last to the first. */
module DedupSlices {
  import opened LogLines
  import opened Outcomes
  import opened Dedup

  // ---- Sorting

  /** By start time and, for the same start, by end time. */
  predicate Earlier(s: LineSlice, t: LineSlice) {
    if s.start == t.start then s.end < t.end else s.start < t.start
  }

  ghost predicate TimeOrdered(slices: seq<LineSlice>) {
    forall i, j :: 0 <= i < j < |slices| ==> !Earlier(slices[j], slices[i])
  }

  /** The slices, in an order that sorting may leave them in. */
  ghost predicate IsSorting(slices: seq<LineSlice>, ordered: seq<LineSlice>) {
    TimeOrdered(ordered) && multiset(ordered) == multiset(slices)
  }

  method InsertSlice(slice: LineSlice, ordered: seq<LineSlice>) returns (r: seq<LineSlice>)
    requires TimeOrdered(ordered)
    ensures IsSorting([slice] + ordered, r)
  {
    var i := 0;
    while i < |ordered| && Earlier(ordered[i], slice)
      invariant 0 <= i <= |ordered|
      invariant forall k :: 0 <= k < i ==> Earlier(ordered[k], slice)
    {
      i := i + 1;
    }
    r := ordered[..i] + [slice] + ordered[i..];
    InsertedInOrder(slice, ordered, i);
  }

  lemma {:induction false} InsertedInOrder(slice: LineSlice, ordered: seq<LineSlice>, i: nat)
    requires TimeOrdered(ordered) && i <= |ordered|
    requires forall k :: 0 <= k < i ==> Earlier(ordered[k], slice)
    requires i < |ordered| ==> !Earlier(ordered[i], slice)
    ensures IsSorting([slice] + ordered, ordered[..i] + [slice] + ordered[i..])
  {
    assert ordered == ordered[..i] + ordered[i..];
    forall k | i <= k < |ordered|
      ensures !Earlier(ordered[k], slice)
    {
      assert k == i || !Earlier(ordered[k], ordered[i]);
    }
    InsertionKeepsOrder(slice, ordered, i);
  }

  lemma {:induction false} InsertionKeepsOrder(slice: LineSlice, ordered: seq<LineSlice>, i: nat)
    requires TimeOrdered(ordered) && i <= |ordered|
    requires forall k :: 0 <= k < i ==> !Earlier(slice, ordered[k])
    requires forall k :: i <= k < |ordered| ==> !Earlier(ordered[k], slice)
    ensures TimeOrdered(ordered[..i] + [slice] + ordered[i..])
  {
    var r := ordered[..i] + [slice] + ordered[i..];
    assert forall k :: 0 <= k < i ==> r[k] == ordered[k];
    assert forall k :: i < k < |r| ==> r[k] == ordered[k - 1];
  }

  method SortSlices(slices: array<LineSlice>)
    modifies slices
    ensures IsSorting(old(slices[..]), slices[..])
  {
    var ordered := [];
    for i := 0 to slices.Length
      invariant slices[..] == old(slices[..])
      invariant IsSorting(slices[..i], ordered)
    {
      assert slices[..i + 1] == slices[..i] + [slices[i]];
      ordered := InsertSlice(slices[i], ordered);
    }
    assert slices[..slices.Length] == slices[..];
    SameLength(slices[..], ordered);
    forall i | 0 <= i < slices.Length {
      slices[i] := ordered[i];
    }
    assert slices[..] == ordered;
  }

  lemma {:induction false} SameLength(s: seq<LineSlice>, t: seq<LineSlice>)
    requires multiset(s) == multiset(t)
    ensures |s| == |t|
  {
    assert |multiset(s)| == |s| && |multiset(t)| == |t|;
  }

  // ---- The fold

  /** Works back through ordered[..index]: `res` are the lines before the last slice so far,
      `reference` all lines so far. */
  function FoldBack(ordered: seq<LineSlice>, index: nat, res: seq<Line>, reference: seq<Line>): Outcome<seq<Line>>
    requires index <= |ordered|
  {
    if index == 0 then Done(res)
    else
      var d :- DedupAB(ordered[index - 1].lines, reference);
      FoldBack(ordered, index - 1, d.a + res, d.a + d.b)
  }

  function DedupOrdered(ordered: seq<LineSlice>): Outcome<(LineSlice, LineSlice)> {
    var n := |ordered|;
    if n == 0 then Panicked  // the index expression lineSlices[len-1]
    else if n == 1 then Done((EMPTY_SLICE, ordered[0]))
    else
      var (lastButOne, last) := (ordered[n - 2], ordered[n - 1]);
      var d :- DedupAB(lastButOne.lines, last.lines);
      var res :- FoldBack(ordered, n - 2, d.a, d.a + d.b);
      Done((MakeSliceFromLines(res, lastButOne.generation), MakeSliceFromLines(d.b, last.generation)))
  }

  lemma {:induction false} DedupOrderedIs(ordered: seq<LineSlice>, d: Pair)
    requires |ordered| >= 2 && DedupAB(ordered[|ordered| - 2].lines, ordered[|ordered| - 1].lines) == Done(d)
    ensures
      var (lastButOne, last) := (ordered[|ordered| - 2], ordered[|ordered| - 1]);
      DedupOrdered(ordered) ==
        match FoldBack(ordered, |ordered| - 2, d.a, d.a + d.b)
        case Panicked => Panicked
        case Done(res) =>
          Done((MakeSliceFromLines(res, lastButOne.generation), MakeSliceFromLines(d.b, last.generation)))
  {
  }

  /** Sorts its argument in place, and returns the lines before the last slice and those of
      the last slice. */
  method DedupLineSlices(lineSlices: array<LineSlice>) returns (r: Outcome<(LineSlice, LineSlice)>)
    modifies lineSlices
    ensures IsSorting(old(lineSlices[..]), lineSlices[..])
    ensures r == DedupOrdered(lineSlices[..])
  {
    SortSlices(lineSlices);
    var n := lineSlices.Length;
    ghost var ordered := lineSlices[..];
    if n == 0 {
      return Panicked;
    }
    if n == 1 {
      return Done((EMPTY_SLICE, lineSlices[0]));
    }
    var last, lastButOne := lineSlices[n - 1], lineSlices[n - 2];
    var d :- DedupAB(lastButOne.lines, last.lines);
    if n == 2 {
      if |d.a| == 0 {
        return Done((LineSlice([], ZERO_TIME, ZERO_TIME, lastButOne.generation),
                     MakeSliceFromLines(d.b, last.generation)));
      }
      return Done((MakeSliceFromLines(d.a, lastButOne.generation), MakeSliceFromLines(d.b, last.generation)));
    }
    DedupOrderedIs(ordered, d);
    var resLines :- FoldSlices(lineSlices, d);
    return Done((MakeSliceFromLines(resLines, lastButOne.generation), MakeSliceFromLines(d.b, last.generation)));
  }

  /** The loop over the slices before the last two, from the last of them to the first. */
  method FoldSlices(lineSlices: array<LineSlice>, d: Pair) returns (r: Outcome<seq<Line>>)
    requires lineSlices.Length >= 2
    ensures r == FoldBack(lineSlices[..], lineSlices.Length - 2, d.a, d.a + d.b)
  {
    var n := lineSlices.Length;
    ghost var ordered := lineSlices[..];
    var resLines, reference := d.a, d.a + d.b;
    var index := n - 3;
    while index >= 0
      invariant -1 <= index <= n - 3
      invariant FoldBack(ordered, n - 2, d.a, d.a + d.b) == FoldBack(ordered, index + 1, resLines, reference)
    {
      assert lineSlices[index] == ordered[index];
      var next :- DedupAB(lineSlices[index].lines, reference);
      resLines := next.a + resLines;
      reference := next.a + next.b;
      index := index - 1;
    }
    return Done(resLines);
  }

  /** One slice of all the lines of a generation. */
  function Joined(deduped: Outcome<(LineSlice, LineSlice)>): Outcome<LineSlice> {
    var (first, last) :- deduped;
    Done(MakeSliceFromLines(first.lines + last.lines, last.generation))
  }

  method DedupGeneration(lineSlices: array<LineSlice>) returns (r: Outcome<LineSlice>)
    modifies lineSlices
    ensures IsSorting(old(lineSlices[..]), lineSlices[..])
    ensures r == Joined(DedupOrdered(lineSlices[..]))
  {
    var deduped := DedupLineSlices(lineSlices);
    r := Joined(deduped);
  }
}
