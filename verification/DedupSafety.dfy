/** What holds of DedupAB on all inputs, reordered or repeated lines included. */
module DedupSafety {
  import opened LogLines
  import opened Outcomes
  import opened Dedup
  import Layouts = DedupLayout

  /** After repair the result is the repaired later slice alone, or that of one retry. */
  lemma {:induction false} AfterRepair(a: seq<Line>, b: seq<Line>, r: Repair, k: int)
    requires a != [] && b != [] && NeedsRepair(a, b)
    requires r == RepairOverlap(a, b) && k == FirstIssueIndex(r.x, r.y)
    ensures r.Repaired? ==> DedupAB(a, b) == Done(Pair([], r.y))
    ensures r.Unresolved? ==> 0 <= k && DedupAB(a, b) == DedupAB(r.x[..k], r.y[k..])
    ensures r.Unresolved? && k == 0 ==> DedupAB(a, b).Panicked?
    ensures r.Unresolved? && 0 < k ==> |r.y[k..]| < |b|
  {
  }

  // ---- No line is invented

  ghost predicate From(lines: seq<Line>, a: seq<Line>, b: seq<Line>) {
    forall k :: 0 <= k < |lines| ==> lines[k] in a || lines[k] in b
  }

  lemma {:induction false} SpliceIsFrom(x: seq<Line>, y: seq<Line>, i: nat, off: nat, idx: int, a: seq<Line>, b: seq<Line>)
    requires i <= |x| && i + off <= |y| && 0 <= i + idx <= |x|
    requires From(x, a, b) && From(y, a, b)
    ensures From(Splice(x, y, i, off, idx), a, b)
  {
  }

  lemma {:induction false} FixIsFrom(x: seq<Line>, y: seq<Line>, i: nat, a: seq<Line>, b: seq<Line>)
    requires i < |x| && i < |y| && (i == 0 ==> ShareLine(x, y))
    requires From(x, a, b) && From(y, a, b)
    ensures var fix := FixLines(x, y, i); From(fix.x, a, b) && From(fix.y, a, b)
  {
    if LineIndex(y[i], x[i..]) == -1 {
      var (off, idx) := NextMatchingFrom(y[i..], x[i..], 0);
      MatchAtTheStart(x, y, i);
      SpliceIsFrom(x, y, i, off, idx, a, b);
    } else if LineIndex(x[i], y[i..]) == -1 {
      var (off, idx) := NextMatchingFrom(x[i..], y[i..], 0);
      MatchExists(x, y, i);
      SpliceIsFrom(y, x, i, off, idx, a, b);
    }
  }

  lemma {:induction false} RepairIsFrom(x: seq<Line>, y: seq<Line>, a: seq<Line>, b: seq<Line>)
    requires Repairable(x, y)
    requires From(x, a, b) && From(y, a, b)
    ensures var r := RepairOverlap(x, y); From(r.x, a, b) && From(r.y, a, b)
    decreases
      var i := FirstIssueIndex(x, y);
      if i == -1 then -1 else (|x| - i) + (|y| - i)
  {
    var i := FirstIssueIndex(x, y);
    if i != -1 {
      FixIsFrom(x, y, i, a, b);
      FixMakesProgress(x, y, i);
      var fix := FixLines(x, y, i);
      if fix.changed {
        RepairIsFrom(fix.x, fix.y, a, b);
      }
    }
  }

  lemma {:induction false} FromParts(lines: seq<Line>, x: seq<Line>, y: seq<Line>, k: nat, a: seq<Line>, b: seq<Line>)
    requires k <= |x| && k <= |y| && From(lines, x[..k], y[k..])
    requires From(x, a, b) && From(y, a, b)
    ensures From(lines, a, b)
  {
    forall j | 0 <= j < |lines|
      ensures lines[j] in a || lines[j] in b
    {
      assert lines[j] in x || lines[j] in y;
    }
  }

  lemma {:induction false} EmptyIsFrom(a: seq<Line>, b: seq<Line>)
    ensures From([], a, b) && From(a, a, b) && From(b, a, b)
    ensures forall k :: 0 <= k <= |a| ==> From(a[..k], a, b)
  {
  }

  lemma {:induction false} WithoutRepair(a: seq<Line>, b: seq<Line>)
    requires a == [] || b == [] || !NeedsRepair(a, b)
    ensures
      var r := DedupAB(a, b);
      r.Done? ==> r.value.b == b && exists k :: 0 <= k <= |a| && r.value.a == a[..k]
  {
    assert a[..|a|] == a;
  }

  /** Whatever the inputs, every line of the result is a line of one of them. */
  lemma {:induction false} NoLineIsInvented(a: seq<Line>, b: seq<Line>)
    ensures
      var r := DedupAB(a, b);
      r.Done? ==> From(r.value.a, a, b) && From(r.value.b, a, b)
    decreases |b|
  {
    EmptyIsFrom(a, b);
    if a != [] && b != [] && NeedsRepair(a, b) {
      RepairIsFrom(a, b, a, b);
      var r := RepairOverlap(a, b);
      var k := FirstIssueIndex(r.x, r.y);
      AfterRepair(a, b, r, k);
      if r.Unresolved? && k > 0 {
        NoLineIsInvented(r.x[..k], r.y[k..]);
        var d := DedupAB(r.x[..k], r.y[k..]);
        if d.Done? {
          FromParts(d.value.a, r.x, r.y, k, a, b);
          FromParts(d.value.b, r.x, r.y, k, a, b);
        }
      }
    } else {
      WithoutRepair(a, b);
    }
  }

  // ---- When the program panics

  lemma {:induction false} SpliceIsDistinct(x: seq<Line>, y: seq<Line>, i: nat, off: nat, idx: nat)
    requires Distinct(x) && Distinct(y)
    requires i + idx <= |x| && i + off <= |y|
    requires forall k :: 0 <= k < i ==> x[k].full == y[k].full
    requires forall k :: i <= k < i + off ==> LineIndex(y[k], x[i..]) == -1
    ensures Distinct(Splice(x, y, i, off, idx))
  {
    var z := Splice(x, y, i, off, idx);
    assert forall k :: 0 <= k < i ==> z[k] == x[k];
    assert forall k :: i <= k < i + off ==> z[k] == y[k];
    assert forall k :: i + off <= k < |z| ==> z[k] == x[k - off + idx] && z[k] == x[i..][k - off + idx - i];
  }

  lemma {:induction false} FillXIsDistinct(x: seq<Line>, y: seq<Line>, i: nat)
    requires Distinct(x) && Distinct(y) && Repairable(x, y) && i == FirstIssueIndex(x, y)
    requires LineIndex(y[i], x[i..]) == -1
    ensures
      var fix := FixLines(x, y, i);
      fix.y == y && (FirstIssueIndex(fix.x, y) != -1 ==> Distinct(fix.x))
  {
    var (off, idx) := NextMatchingFrom(y[i..], x[i..], 0);
    Layouts.FixFillsX(x, y, i, off, idx);
    FilledXIsDistinct(x, y, i, off, idx);
  }

  lemma {:induction false} FilledXIsDistinct(x: seq<Line>, y: seq<Line>, i: nat, off: nat, idx: int)
    requires Distinct(x) && Distinct(y) && i < |x| && i < |y| && 0 <= i + idx
    requires forall k :: 0 <= k < i ==> x[k].full == y[k].full
    requires (off, idx) == NextMatchingFrom(y[i..], x[i..], 0)
    ensures FirstIssueIndex(Splice(x, y, i, off, idx), y) != -1 ==> Distinct(Splice(x, y, i, off, idx))
  {
    if idx >= 0 {
      forall k | i <= k < i + off
        ensures LineIndex(y[k], x[i..]) == -1
      {
        assert y[i..][k - i] == y[k];
      }
      SpliceIsDistinct(x, y, i, off, idx);
    } else {
      NoMatchNoIssue(x, y, i);
    }
  }

  /** A fix with a further match keeps both sides free of repeats. */
  lemma {:induction false} FixIsDistinct(x: seq<Line>, y: seq<Line>)
    requires Distinct(x) && Distinct(y) && Repairable(x, y) && FirstIssueIndex(x, y) != -1
    ensures
      var fix := FixLines(x, y, FirstIssueIndex(x, y));
      FirstIssueIndex(fix.x, fix.y) != -1 ==> Distinct(fix.x) && Distinct(fix.y)
  {
    var i := FirstIssueIndex(x, y);
    if LineIndex(y[i], x[i..]) == -1 {
      FillXIsDistinct(x, y, i);
    } else if LineIndex(x[i], y[i..]) == -1 {
      var (off, idx) := NextMatchingFrom(x[i..], y[i..], 0);
      MatchExists(x, y, i);
      assert forall k :: i <= k < i + off ==> x[k] == x[i..][k - i];
      SpliceIsDistinct(y, x, i, off, idx);
    }
  }

  lemma {:induction false} NoMatchNoIssue(x: seq<Line>, y: seq<Line>, i: nat)
    requires 0 < i < |x| && i < |y|
    requires forall k :: 0 <= k < i ==> x[k].full == y[k].full
    ensures FirstIssueIndex(Splice(x, y, i, |y| - i, -1), y) == -1
  {
    var z := Splice(x, y, i, |y| - i, -1);
    assert forall k :: 0 <= k < i ==> z[k] == x[k];
    assert forall k :: i <= k < |y| ==> z[k] == y[k];
  }

  lemma {:induction false} UnresolvedIsDistinct(x: seq<Line>, y: seq<Line>)
    requires Distinct(x) && Distinct(y) && Repairable(x, y)
    ensures var r := RepairOverlap(x, y); r.Unresolved? ==> Distinct(r.y)
    decreases
      var i := FirstIssueIndex(x, y);
      if i == -1 then -1 else (|x| - i) + (|y| - i)
  {
    var i := FirstIssueIndex(x, y);
    if i != -1 {
      FixMakesProgress(x, y, i);
      FixIsDistinct(x, y);
      var fix := FixLines(x, y, i);
      if fix.changed && FirstIssueIndex(fix.x, fix.y) != -1 {
        UnresolvedIsDistinct(fix.x, fix.y);
      }
    }
  }

  /** The lines before and after the split have nothing in common: the retry returns them. */
  lemma {:induction false} RetryReturns(newA: seq<Line>, newB: seq<Line>, k: nat)
    requires 0 < k < |newA| && k < |newB| && Distinct(newB)
    requires forall j :: 0 <= j < k ==> newA[j].full == newB[j].full
    ensures DedupAB(newA[..k], newB[k..]) == Done(Pair(newA[..k], newB[k..]))
  {
    var a, b := newA[..k], newB[k..];
    assert forall j :: 0 <= j < |b| ==> b[j] == newB[j + k];
    assert LineIndex(b[0], a) == -1;
    assert LineIndex(a[|a| - 1], b) == -1;
  }

  /** Both slices start with a line of the other, and the overlap has an issue. */
  ghost predicate HeadsCross(a: seq<Line>, b: seq<Line>)
    requires a != [] && b != []
  {
    && a[0].full != b[0].full
    && LineIndex(a[0], b) != -1
    && LineIndex(b[0], a) != -1
    && FirstIssueIndex(a[LineIndex(b[0], a)..], b) != -1
  }

  /** Without repeated lines, the program panics on empty slices and on slices whose first
      lines come in the opposite order in the other slice, with a further difference. */
  lemma {:induction false} PanicsIff(a: seq<Line>, b: seq<Line>)
    requires Distinct(a) && Distinct(b)
    ensures DedupAB(a, b).Panicked? <==> a == [] || b == [] || HeadsCross(a, b)
  {
    if a != [] && b != [] && NeedsRepair(a, b) {
      assert a[0..] == a && b[0..] == b;
      UnresolvedIsDistinct(a, b);
      UnresolvedAtStart(a, b);
      var r := RepairOverlap(a, b);
      var k := FirstIssueIndex(r.x, r.y);
      AfterRepair(a, b, r, k);
      if r.Unresolved? {
        if k > 0 {
          RetryReturns(r.x, r.y, k);
        }
      }
    }
  }

  lemma {:induction false} UnresolvedAtStart(a: seq<Line>, b: seq<Line>)
    requires a != [] && b != [] && NeedsRepair(a, b)
    ensures
      var r := RepairOverlap(a, b);
      r.Unresolved? && FirstIssueIndex(r.x, r.y) == 0 <==> HeadsCross(a, b)
  {
    var i := FirstIssueIndex(a, b);
    FixMakesProgress(a, b, i);
    assert a[0..] == a && b[0..] == b;
  }

  /** The smallest such pair: three lines, and the first two of them in reverse. */
  lemma {:induction false} ReversedHeadsPanic(u: Line, v: Line, w: Line)
    requires Distinct([u, v, w])
    ensures DedupAB([u, v, w], [v, u]).Panicked?
  {
    var a, b := [u, v, w], [v, u];
    assert a[0].full != a[1].full && a[0].full != a[2].full && a[1].full != a[2].full;
    assert LineIndex(b[0], a) == 1;
    assert a[1..] == [v, w];
    assert [v, w][1].full != b[1].full;
    PanicsIff(a, b);
  }

  // ---- What every panic needs

  /** Two different texts that, from i on, come in one order in x and in the other in y. */
  ghost predicate CrossFrom(x: seq<Line>, y: seq<Line>, i: nat) {
    exists p, q, k, l :: i <= p < q < |x| && i <= k < l < |y| && CrossAt(x, y, p, q, k, l)
  }

  ghost predicate CrossAt(x: seq<Line>, y: seq<Line>, p: nat, q: nat, k: nat, l: nat)
    requires p < |x| && q < |x| && k < |y| && l < |y|
  {
    x[p].full == y[l].full && x[q].full == y[k].full && x[p].full != x[q].full
  }

  lemma {:induction false} UnfixedCrosses(x: seq<Line>, y: seq<Line>, i: nat)
    requires i < |x| && i < |y| && x[i].full != y[i].full
    requires LineIndex(x[i], y[i..]) != -1 && LineIndex(y[i], x[i..]) != -1
    ensures CrossFrom(x, y, i)
  {
    var q, l := i + LineIndex(y[i], x[i..]), i + LineIndex(x[i], y[i..]);
    assert x[i..][q - i] == x[q] && y[i..][l - i] == y[l];
    assert CrossAt(x, y, i, q, i, l);
  }

  /** The issue behind a splice is an issue of the lines that the splice moved. */
  lemma {:induction false} IssueBehindSplice(x: seq<Line>, y: seq<Line>, i: nat, off: nat, idx: int)
    requires i < |x| && i + off <= |y| && -1 <= idx < |x| - i && 0 <= i + idx
    requires forall k :: 0 <= k < i ==> x[k].full == y[k].full
    ensures
      var j := FirstIssueIndex(Splice(x, y, i, off, idx), y);
      j != -1 ==> i + off <= j
  {
    var z := Splice(x, y, i, off, idx);
    assert forall k :: 0 <= k < i + off ==> z[k].full == y[k].full;
  }

  lemma {:induction false} CrossBeforeSplice(x: seq<Line>, y: seq<Line>, i: nat, off: nat, idx: nat, j: nat)
    requires i + idx <= |x| && i + off <= |y| && i + off <= j
    requires CrossFrom(Splice(x, y, i, off, idx), y, j)
    ensures CrossFrom(x, y, i)
  {
    var z := Splice(x, y, i, off, idx);
    var p, q, k, l :| j <= p < q < |z| && j <= k < l < |y| && CrossAt(z, y, p, q, k, l);
    BehindSplice(x, y, i, off, idx, p);
    BehindSplice(x, y, i, off, idx, q);
    assert CrossAt(x, y, p - off + idx, q - off + idx, k, l);
  }

  lemma {:induction false} BehindSplice(x: seq<Line>, y: seq<Line>, i: nat, off: nat, idx: nat, p: nat)
    requires i + idx <= |x| && i + off <= |y| && i + off <= p < |Splice(x, y, i, off, idx)|
    ensures p - off + idx < |x| && Splice(x, y, i, off, idx)[p] == x[p - off + idx]
  {
  }

  lemma {:induction false} CrossIsSymmetric(x: seq<Line>, y: seq<Line>, i: nat)
    requires CrossFrom(x, y, i)
    ensures CrossFrom(y, x, i)
  {
    var p, q, k, l :| i <= p < q < |x| && i <= k < l < |y| && CrossAt(x, y, p, q, k, l);
    assert CrossAt(y, x, k, l, p, q);
  }

  lemma {:induction false} CrossBeforeFill(x: seq<Line>, y: seq<Line>, i: nat, off: nat, idx: int, j: nat)
    requires i < |x| && i + off <= |y| && i < |y| && -1 <= idx < |x| - i && 0 <= i + idx
    requires forall k :: 0 <= k < i ==> x[k].full == y[k].full
    requires idx == -1 ==> off == |y| - i
    requires j == FirstIssueIndex(Splice(x, y, i, off, idx), y) && CrossFrom(Splice(x, y, i, off, idx), y, j)
    ensures CrossFrom(x, y, i)
  {
    IssueBehindSplice(x, y, i, off, idx);
    if idx == -1 {
      NoMatchNoIssue(x, y, i);
    } else {
      CrossBeforeSplice(x, y, i, off, idx, j);
    }
  }

  lemma {:induction false} CrossBeforeFillX(x: seq<Line>, y: seq<Line>, i: nat, newX: seq<Line>, j: nat)
    requires Repairable(x, y) && i == FirstIssueIndex(x, y) && LineIndex(y[i], x[i..]) == -1
    requires newX == FixLines(x, y, i).x && j == FirstIssueIndex(newX, y) && CrossFrom(newX, y, j)
    ensures CrossFrom(x, y, i)
  {
    var (off, idx) := NextMatchingFrom(y[i..], x[i..], 0);
    MatchAtTheStart(x, y, i);
    CrossBeforeFill(x, y, i, off, idx, j);
  }

  lemma {:induction false} CrossBeforeFillY(x: seq<Line>, y: seq<Line>, i: nat, newY: seq<Line>, j: nat)
    requires Repairable(x, y) && i == FirstIssueIndex(x, y)
    requires LineIndex(y[i], x[i..]) != -1 && LineIndex(x[i], y[i..]) == -1
    requires newY == FixLines(x, y, i).y && j == FirstIssueIndex(newY, x) && CrossFrom(newY, x, j)
    ensures CrossFrom(y, x, i)
  {
    var (off, idx) := NextMatchingFrom(x[i..], y[i..], 0);
    MatchExists(x, y, i);
    CrossBeforeFill(y, x, i, off, idx, j);
  }

  /** Whatever crosses behind a fix did so before it. */
  lemma {:induction false} CrossBeforeFix(x: seq<Line>, y: seq<Line>, i: nat, fix: Fix, j: nat)
    requires Repairable(x, y) && i == FirstIssueIndex(x, y) && fix == FixLines(x, y, i) && fix.changed
    requires j == FirstIssueIndex(fix.x, fix.y) && CrossFrom(fix.x, fix.y, j)
    ensures CrossFrom(x, y, i)
  {
    if LineIndex(y[i], x[i..]) == -1 {
      CrossBeforeFillX(x, y, i, fix.x, j);
    } else {
      FirstIssueSymmetric(fix.x, fix.y);
      CrossIsSymmetric(fix.x, fix.y, j);
      CrossBeforeFillY(x, y, i, fix.y, j);
      CrossIsSymmetric(y, x, i);
    }
  }

  lemma {:induction false} UnresolvedCrosses(x: seq<Line>, y: seq<Line>)
    requires Repairable(x, y) && RepairOverlap(x, y).Unresolved?
    ensures FirstIssueIndex(x, y) != -1 && CrossFrom(x, y, FirstIssueIndex(x, y))
    decreases
      var i := FirstIssueIndex(x, y);
      if i == -1 then -1 else (|x| - i) + (|y| - i)
  {
    var i := FirstIssueIndex(x, y);
    var fix := FixLines(x, y, i);
    FixMakesProgress(x, y, i);
    if fix.changed {
      UnresolvedCrosses(fix.x, fix.y);
      CrossBeforeFix(x, y, i, fix, FirstIssueIndex(fix.x, fix.y));
    } else {
      UnfixedCrosses(x, y, i);
    }
  }

  /** Whatever the inputs, repeated lines included, the program panics only on an empty slice or when
      two lines that both slices have come in opposite orders. */
  lemma {:induction false} PanicNeedsCrossing(a: seq<Line>, b: seq<Line>)
    requires DedupAB(a, b).Panicked?
    ensures a == [] || b == [] || CrossFrom(a, b, 0)
  {
    if a != [] && b != [] && NeedsRepair(a, b) {
      var r := RepairOverlap(a, b);
      AfterRepair(a, b, r, FirstIssueIndex(r.x, r.y));
      UnresolvedCrosses(a, b);
      CrossFromStart(a, b, FirstIssueIndex(a, b));
    }
  }

  lemma {:induction false} CrossFromStart(x: seq<Line>, y: seq<Line>, i: nat)
    requires CrossFrom(x, y, i)
    ensures CrossFrom(x, y, 0)
  {
    var p, q, k, l :| i <= p < q < |x| && i <= k < l < |y| && CrossAt(x, y, p, q, k, l);
    assert CrossAt(x, y, p, q, k, l);
  }
}
