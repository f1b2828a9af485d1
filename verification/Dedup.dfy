/** The de-duplicator of overlapping log slices (collection_tools/pkg/loglines/dedup.go). */
module Dedup {
  import opened LogLines
  import opened Outcomes

  // ---- The three searches

  /** The first position, from `i` on, of a line with the text of `needle`, or -1. */
  function LineIndexFrom(needle: Line, list: seq<Line>, i: nat): (index: int)
    requires i <= |list|
    ensures index == -1 || i <= index < |list|
    ensures index == -1 ==> forall k :: i <= k < |list| ==> list[k].full != needle.full
    ensures index != -1 ==> list[index].full == needle.full
    ensures forall k :: i <= k < index ==> list[k].full != needle.full
    decreases |list| - i
  {
    if i == |list| then -1
    else if list[i].full == needle.full then i
    else LineIndexFrom(needle, list, i + 1)
  }

  function LineIndex(needle: Line, list: seq<Line>): (index: int)
    ensures -1 <= index < |list|
    ensures index == -1 ==> forall k :: 0 <= k < |list| ==> list[k].full != needle.full
    ensures index != -1 ==> list[index].full == needle.full
    ensures forall k :: 0 <= k < index ==> list[k].full != needle.full
  {
    LineIndexFrom(needle, list, 0)
  }

  /** The first position, from `i` on, at which both have a line and the lines differ, or -1. */
  function IssueFrom(x: seq<Line>, y: seq<Line>, i: nat): (index: int)
    ensures index == -1 || (i <= index < |x| && index < |y| && x[index].full != y[index].full)
    ensures forall k :: i <= k < |x| && k < |y| && (index == -1 || k < index) ==> x[k].full == y[k].full
    decreases |x| - i
  {
    if i >= |x| || i >= |y| then -1
    else if x[i].full != y[i].full then i
    else IssueFrom(x, y, i + 1)
  }

  function FirstIssueIndex(x: seq<Line>, y: seq<Line>): (index: int)
    ensures -1 <= index < |x| && index < |y|
    ensures index >= 0 ==> x[index].full != y[index].full
    ensures forall k :: 0 <= k < |x| && k < |y| && (index == -1 || k < index) ==> x[k].full == y[k].full
  {
    IssueFrom(x, y, 0)
  }

  /** The first line of `a` at or after `offset` that is in `b`: its offset and its position in `b`,
      or (|a|, -1). */
  function NextMatchingFrom(a: seq<Line>, b: seq<Line>, offset: nat): (r: (nat, int))
    requires offset <= |a|
    ensures offset <= r.0 <= |a| && -1 <= r.1 < |b|
    ensures r.1 == -1 <==> r.0 == |a|
    ensures r.0 < |a| ==> r.1 == LineIndex(a[r.0], b)
    ensures forall k :: offset <= k < r.0 ==> LineIndex(a[k], b) == -1
    decreases |a| - offset
  {
    if offset == |a| then (offset, -1)
    else
      var index := LineIndex(a[offset], b);
      if index != -1 then (offset, index) else NextMatchingFrom(a, b, offset + 1)
  }

  method FindLineIndex(needle: Line, list: seq<Line>) returns (index: int)
    ensures index == LineIndex(needle, list)
  {
    for i := 0 to |list|
      invariant forall k :: 0 <= k < i ==> list[k].full != needle.full
    {
      if list[i].full == needle.full {
        FirstPosition(needle, list, i);
        return i;
      }
    }
    return -1;
  }

  lemma {:induction false} FirstPosition(needle: Line, list: seq<Line>, i: nat)
    requires i < |list| && list[i].full == needle.full
    requires forall k :: 0 <= k < i ==> list[k].full != needle.full
    ensures LineIndex(needle, list) == i
  {
  }

  method FindFirstIssueIndex(x: seq<Line>, y: seq<Line>) returns (index: int)
    ensures index == FirstIssueIndex(x, y)
  {
    for i := 0 to |x|
      invariant i <= |y|
      invariant forall k :: 0 <= k < i ==> x[k].full == y[k].full
    {
      if i >= |y| {
        break;
      }
      if x[i].full != y[i].full {
        return i;
      }
    }
    return -1;
  }

  method FindNextMatching(a: seq<Line>, b: seq<Line>) returns (offset: nat, index: int)
    requires a != []
    ensures (offset, index) == NextMatchingFrom(a, b, 0)
  {
    offset := 0;
    index := FindLineIndex(a[offset], b);
    if index == -1 {
      offset := 1;
      while offset < |a|
        invariant 1 <= offset <= |a|
        invariant index == -1
        invariant NextMatchingFrom(a, b, 0) == NextMatchingFrom(a, b, offset)
      {
        index := FindLineIndex(a[offset], b);
        if index != -1 {
          break;
        }
        offset := offset + 1;
      }
    }
  }

  // ---- Repairing one overlap

  ghost predicate ShareLine(x: seq<Line>, y: seq<Line>) {
    exists i :: 0 <= i < |x| && LineIndex(x[i], y) != -1
  }

  datatype Fix = Fix(x: seq<Line>, y: seq<Line>, changed: bool)

  /** The run y[i..i + off], spliced into x at i, continuing with x from i + idx. */
  function Splice(x: seq<Line>, y: seq<Line>, i: nat, off: nat, idx: int): seq<Line>
    requires i <= |x| && i + off <= |y| && 0 <= i + idx <= |x|
  {
    x[..i] + y[i..i + off] + x[i + idx..]
  }

  /** Inserts the run of lines that one side misses at position `i` into that side.

      The precondition is the bound of the slice expressions: without any match the code
      cuts at `i - 1`, so at position 0 there has to be one. */
  function FixLines(x: seq<Line>, y: seq<Line>, i: nat): (r: Fix)
    requires i < |x| && i < |y|
    requires i == 0 ==> ShareLine(x, y)
    ensures !r.changed ==> r.x == x && r.y == y
    ensures !r.changed && x[i].full != y[i].full ==> LineIndex(x[i], y[i..]) != -1 && LineIndex(y[i], x[i..]) != -1
  {
    if x[i].full == y[i].full then Fix(x, y, false)
    else if LineIndex(y[i], x[i..]) == -1 then
      var (yOffset, xIndex) := NextMatchingFrom(y[i..], x[i..], 0);
      MatchAtTheStart(x, y, i);
      Fix(Splice(x, y, i, yOffset, xIndex), y, true)
    else if LineIndex(x[i], y[i..]) == -1 then
      var (xOffset, yIndex) := NextMatchingFrom(x[i..], y[i..], 0);
      MatchExists(x, y, i);
      Fix(x, Splice(y, x, i, xOffset, yIndex), true)
    else Fix(x, y, false)
  }

  /** At position 0 some line of `y` is found in `x`, so no slice starts at -1. */
  lemma {:induction false} MatchAtTheStart(x: seq<Line>, y: seq<Line>, i: nat)
    requires i < |x| && i < |y|
    requires i == 0 ==> ShareLine(x, y)
    ensures NextMatchingFrom(y[i..], x[i..], 0).1 == -1 ==> i > 0
  {
    if i == 0 {
      assert x[i..] == x && y[i..] == y;
      var j :| 0 <= j < |x| && LineIndex(x[j], y) != -1;
      assert y[LineIndex(x[j], y)].full == x[j].full;
    }
  }

  /** When the line of `y` at `i` is in the rest of `x`, the search from `x` finds a line. */
  lemma {:induction false} MatchExists(x: seq<Line>, y: seq<Line>, i: nat)
    requires i < |x| && i < |y|
    requires LineIndex(y[i], x[i..]) != -1
    ensures NextMatchingFrom(x[i..], y[i..], 0).1 >= 0
  {
    assert x[i..][LineIndex(y[i], x[i..])].full == y[i..][0].full;
  }

  /** Splicing the run y[i..i + off] into x before x[i + idx], which is the line y[i + off],
      moves the first issue past that line. */
  lemma {:induction false} SpliceProgress(x: seq<Line>, y: seq<Line>, i: nat, off: nat, idx: int)
    requires i < |x| && i + off <= |y| && -1 <= idx < |x| - i && 0 <= i + idx && 0 < off
    requires forall k :: 0 <= k < i ==> x[k].full == y[k].full
    requires idx == -1 ==> i + off == |y|
    requires idx != -1 ==> i + off < |y| && x[i + idx].full == y[i + off].full
    ensures
      var newX := Splice(x, y, i, off, idx);
      var j := FirstIssueIndex(newX, y);
      j != -1 ==> i < j && |newX| - j < |x| - i && |y| - j < |y| - i
  {
    var newX := Splice(x, y, i, off, idx);
    assert forall k :: 0 <= k < i + off ==> newX[k].full == y[k].full;
    assert idx != -1 ==> newX[i + off] == x[i + idx];
  }

  lemma {:induction false} FirstIssueSymmetric(x: seq<Line>, y: seq<Line>)
    ensures FirstIssueIndex(x, y) == FirstIssueIndex(y, x)
  {
  }

  /** The first issue lies further on than `i`, and fewer lines follow it on either side. */
  ghost predicate MovesOn(x: seq<Line>, y: seq<Line>, i: nat, newX: seq<Line>, newY: seq<Line>) {
    var j := FirstIssueIndex(newX, newY);
    j != -1 ==> i < j && |newX| - j < |x| - i && |newY| - j < |y| - i
  }

  lemma {:induction false} FillXMovesOn(x: seq<Line>, y: seq<Line>, i: nat)
    requires i == FirstIssueIndex(x, y)
    requires i == 0 ==> ShareLine(x, y)
    requires LineIndex(y[i], x[i..]) == -1
    ensures var r := FixLines(x, y, i); r.changed && MovesOn(x, y, i, r.x, r.y)
  {
    var (off, idx) := NextMatchingFrom(y[i..], x[i..], 0);
    MatchAtTheStart(x, y, i);
    assert y[i..][0] == y[i];
    assert idx != -1 ==> x[i..][idx] == x[i + idx] && y[i..][off] == y[i + off];
    SpliceProgress(x, y, i, off, idx);
  }

  lemma {:induction false} FillYMovesOn(x: seq<Line>, y: seq<Line>, i: nat)
    requires i == FirstIssueIndex(x, y)
    requires i == 0 ==> ShareLine(x, y)
    requires LineIndex(y[i], x[i..]) != -1
    requires LineIndex(x[i], y[i..]) == -1
    ensures var r := FixLines(x, y, i); r.changed && MovesOn(x, y, i, r.x, r.y)
  {
    var (off, idx) := NextMatchingFrom(x[i..], y[i..], 0);
    MatchExists(x, y, i);
    assert x[i..][0] == x[i];
    assert y[i..][idx] == y[i + idx] && x[i..][off] == x[i + off];
    SpliceProgress(y, x, i, off, idx);
    FirstIssueSymmetric(x, Splice(y, x, i, off, idx));
  }

  /** Each fix moves the first issue forward, by more than it makes either side longer. */
  lemma {:induction false} FixMakesProgress(x: seq<Line>, y: seq<Line>, i: nat)
    requires i == FirstIssueIndex(x, y)
    requires i == 0 ==> ShareLine(x, y)
    ensures var r := FixLines(x, y, i); r.changed ==> MovesOn(x, y, i, r.x, r.y)
  {
    if LineIndex(y[i], x[i..]) == -1 {
      FillXMovesOn(x, y, i);
    } else if LineIndex(x[i], y[i..]) == -1 {
      FillYMovesOn(x, y, i);
    }
  }

  lemma {:induction false} FixKeepsLines(x: seq<Line>, y: seq<Line>, i: nat)
    requires i < |x| && i < |y| && (i == 0 ==> ShareLine(x, y))
    ensures var r := FixLines(x, y, i); r.x != [] && r.y != []
  {
  }

  /** A first issue at position 0 can be repaired only around a line in common. */
  ghost predicate Repairable(x: seq<Line>, y: seq<Line>) {
    FirstIssueIndex(x, y) == 0 ==> ShareLine(x, y)
  }

  datatype Repair = Repaired(x: seq<Line>, y: seq<Line>) | Unresolved(x: seq<Line>, y: seq<Line>)

  /** Fixes issue after issue until none is left, or until one cannot be fixed. */
  function RepairOverlap(x: seq<Line>, y: seq<Line>): (r: Repair)
    requires Repairable(x, y)
    ensures r.Repaired? ==> FirstIssueIndex(r.x, r.y) == -1
    ensures r.Repaired? && x != [] && y != [] ==> r.x != [] && r.y != []
    ensures
      var (i, j) := (FirstIssueIndex(x, y), FirstIssueIndex(r.x, r.y));
      r.Unresolved? ==> 0 <= i <= j && |r.y| - j <= |y| - i && (i < j ==> |r.y| - j < |y| - i)
    decreases
      var i := FirstIssueIndex(x, y);
      if i == -1 then -1 else (|x| - i) + (|y| - i)
  {
    var i := FirstIssueIndex(x, y);
    if i == -1 then Repaired(x, y)
    else
      var fix := FixLines(x, y, i);
      FixMakesProgress(x, y, i);
      FixKeepsLines(x, y, i);
      if fix.changed then RepairOverlap(fix.x, fix.y) else Unresolved(x, y)
  }

  // ---- De-duplicating two overlapping slices

  datatype Pair = Pair(a: seq<Line>, b: seq<Line>)

  /** The two situations in which DedupAB sends the pair to repair; in both there is a line
      in common and an issue to repair. */
  predicate NeedsRepair(a: seq<Line>, b: seq<Line>): (r: bool)
    requires a != [] && b != []
    ensures r ==> ShareLine(a, b) && FirstIssueIndex(a, b) != -1
  {
    var bFirst := LineIndex(b[0], a);
    var r := if bFirst == -1 then LineIndex(a[|a| - 1], b) != -1 else FirstIssueIndex(a[bFirst..], b) >= 0;
    assert bFirst != -1 ==> a[bFirst].full == b[0].full;
    assert a[0..] == a;
    r
  }

  /** Repairs the overlap and de-duplicates the result, which then needs no further repair:
      the earlier slice comes out empty. */
  function OverlapProcessed(x: seq<Line>, y: seq<Line>): (r: Repair)
    requires x != [] && y != [] && Repairable(x, y)
    ensures FirstIssueIndex(x, y) != -1 ==>
              r == match RepairOverlap(x, y)
                   case Repaired(_, newY) => Repaired([], newY)
                   case Unresolved(newX, newY) => Unresolved(newX, newY)
    decreases 1 + |y|, 0
  {
    if FirstIssueIndex(x, y) == -1 then Repaired(x, y)
    else
      match RepairOverlap(x, y)
      case Unresolved(newX, newY) => Unresolved(newX, newY)
      case Repaired(newX, newY) =>
        NoFurtherRepair(newX, newY);
        var deduped := DedupAB(newX, newY).value;
        Repaired(deduped.a, deduped.b)
  }

  method ProcessOverlap(x: seq<Line>, y: seq<Line>) returns (r: Repair)
    requires x != [] && y != [] && Repairable(x, y)
    ensures r == OverlapProcessed(x, y)
  {
    var newX, newY := x, y;
    var issueIndex := FindFirstIssueIndex(newX, newY);
    if issueIndex == -1 {
      return Repaired(newX, newY);
    }
    while issueIndex != -1
      invariant issueIndex == FirstIssueIndex(newX, newY)
      invariant Repairable(newX, newY)
      invariant RepairOverlap(newX, newY) == RepairOverlap(x, y)
      decreases if issueIndex == -1 then -1 else (|newX| - issueIndex) + (|newY| - issueIndex)
    {
      FixMakesProgress(newX, newY, issueIndex);
      var fix := FixLines(newX, newY, issueIndex);
      newX, newY := fix.x, fix.y;
      issueIndex := FindFirstIssueIndex(newX, newY);
      if !fix.changed && issueIndex != -1 {
        return Unresolved(newX, newY);
      }
    }
    NoFurtherRepair(newX, newY);
    var deduped := DedupAB(newX, newY).value;
    return Repaired(deduped.a, deduped.b);
  }

  lemma {:induction false} NoFurtherRepair(x: seq<Line>, y: seq<Line>)
    requires x != [] && y != [] && FirstIssueIndex(x, y) == -1
    ensures LineIndex(y[0], x) == 0 && !NeedsRepair(x, y)
  {
    FirstPosition(y[0], x, 0);
    assert x[0..] == x;
  }

  function HandleIncompleteOverlap(a: seq<Line>, b: seq<Line>): Outcome<Pair>
    requires a != [] && b != [] && NeedsRepair(a, b)
    decreases 1 + |b|, 1
  {
    match OverlapProcessed(a, b)
    case Repaired(newA, newB) => Done(Pair(newA, newB))
    case Unresolved(newA, newB) =>
      var issueIndex := FirstIssueIndex(newA, newB);
      DedupAB(newA[..issueIndex], newB[issueIndex..])
  }

  /** The earlier slice without what the later one repeats, and the later one. */
  function DedupAB(a: seq<Line>, b: seq<Line>): Outcome<Pair>
    decreases if a != [] && b != [] && NeedsRepair(a, b) then 1 + |b| else 0, 2
  {
    if a == [] || b == [] then Panicked  // the index expressions b[0] and a[len(a)-1]
    else
      var bFirst := LineIndex(b[0], a);
      if bFirst == -1 then
        if LineIndex(a[|a| - 1], b) == -1 then Done(Pair(a, b))
        else HandleIncompleteOverlap(a, b)
      else if FirstIssueIndex(a[bFirst..], b) >= 0 then HandleIncompleteOverlap(a, b)
      else Done(Pair(a[..bFirst], b))
  }
}
