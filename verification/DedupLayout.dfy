/** What DedupAB returns for two slices of one log, line by line.

    A layout shows two slices side by side: gap by gap, the lines that only one of them has,
    closed by a line that both have, and after the last common line the two tails. */
module DedupLayout {
  import opened LogLines
  import opened Outcomes
  import opened Dedup

  datatype Gap<T> = Gap(onlyA: seq<T>, onlyB: seq<T>, common: T)

  datatype Layout<T> = Layout(gaps: seq<Gap<T>>, tailA: seq<T>, tailB: seq<T>) {
    /** The earlier slice. */
    ghost function A(): seq<T> { SideA(gaps) + tailA }

    /** The later slice. */
    ghost function B(): seq<T> { SideB(gaps) + tailB }

    /** Every line of both, once. */
    ghost function All(): seq<T> { AllOf(gaps) + tailA + tailB }

    /** In each gap the lines of the later slice or, if it has none there, those of the
        earlier one; after the last common line, the lines of the later slice. */
    ghost function Kept(): seq<T> { KeptOf(gaps) + tailB }

    /** No gap has lines of both slices, and the earlier slice ends with a common line. */
    ghost predicate OneSided() {
      tailA == [] && forall g | g in gaps :: g.onlyA == [] || g.onlyB == []
    }

    /** The later slice starts, or the earlier one ends, with a common line. */
    ghost predicate Anchored() {
      gaps != [] && (gaps[0].onlyB == [] || tailA == [])
    }
  }

  ghost function SideA<T>(gaps: seq<Gap<T>>): seq<T> {
    if gaps == [] then [] else gaps[0].onlyA + [gaps[0].common] + SideA(gaps[1..])
  }

  ghost function SideB<T>(gaps: seq<Gap<T>>): seq<T> {
    if gaps == [] then [] else gaps[0].onlyB + [gaps[0].common] + SideB(gaps[1..])
  }

  ghost function AllOf<T>(gaps: seq<Gap<T>>): seq<T> {
    if gaps == [] then [] else gaps[0].onlyA + gaps[0].onlyB + [gaps[0].common] + AllOf(gaps[1..])
  }

  ghost function KeptOf<T>(gaps: seq<Gap<T>>): seq<T> {
    if gaps == [] then []
    else (if gaps[0].onlyB != [] then gaps[0].onlyB else gaps[0].onlyA) + [gaps[0].common] + KeptOf(gaps[1..])
  }

  // ---- Facts about texts that occur once

  lemma {:induction false} DistinctPieces(p: seq<Line>, u: seq<Line>, v: seq<Line>, c: Line, t: seq<Line>)
    requires Distinct(p + u + v + [c] + t)
    ensures Distinct(p + u + [c] + t) && Distinct(p + v + [c] + t)
    ensures Fulls(u) !! Fulls(v) && Fulls(u) !! Fulls(t) && Fulls(v) !! Fulls(t)
    ensures c.full !in Fulls(u) + Fulls(v) + Fulls(t)
  {
    SplitLast(p + u + v, c, t);
    SplitLast(p + u, c, t);
    SplitLast(p + v, c, t);
    DistinctConcat(p + u, v);
    DistinctConcat(p, u);
    DistinctConcat(p, v);
    FullsConcat(p + u, v);
    FullsConcat(p, u);
    FullsConcat(p, v);
  }

  lemma {:induction false} SplitLast(s: seq<Line>, c: Line, t: seq<Line>)
    ensures Distinct(s + [c] + t) <==>
              Distinct(s) && Distinct(t) && c.full !in Fulls(s) + Fulls(t) && Fulls(s) !! Fulls(t)
  {
    DistinctConcat(s + [c], t);
    DistinctConcat(s, [c]);
    FullsConcat(s, [c]);
    assert Fulls([c]) == {c.full};
  }

  lemma {:induction false} SidesOfGaps(gaps: seq<Gap<Line>>, tailA: seq<Line>, tailB: seq<Line>)
    ensures Fulls(SideA(gaps) + tailA) <= Fulls(AllOf(gaps) + tailA + tailB)
    ensures Fulls(SideB(gaps) + tailB) <= Fulls(AllOf(gaps) + tailA + tailB)
  {
    SidesInAll(gaps);
  }

  lemma {:induction false} SidesInAll<T>(gaps: seq<Gap<T>>)
    ensures forall line :: line in SideA(gaps) || line in SideB(gaps) <==> line in AllOf(gaps)
    ensures forall line :: line in KeptOf(gaps) ==> line in AllOf(gaps)
    ensures forall line :: line in SideB(gaps) ==> line in KeptOf(gaps)
  {
    if gaps != [] {
      SidesInAll(gaps[1..]);
    }
  }

  /** No line of `u` has a text that occurs in `w`. */
  ghost predicate NoneIn(u: seq<Line>, w: seq<Line>) {
    forall i :: 0 <= i < |u| ==> LineIndex(u[i], w) == -1
  }

  lemma {:induction false} DisjointMeansNoneIn(u: seq<Line>, w: seq<Line>)
    requires Fulls(u) !! Fulls(w)
    ensures NoneIn(u, w)
  {
    forall i | 0 <= i < |u|
      ensures LineIndex(u[i], w) == -1
    {
      assert u[i].full in Fulls(u);
      assert forall k :: 0 <= k < |w| ==> w[k].full in Fulls(w);
    }
  }

  // ---- One fix closes one gap

  lemma {:induction false} MatchingAt(u: seq<Line>, c: Line, v: seq<Line>, w: seq<Line>, z: seq<Line>)
    requires NoneIn(u, w + [c] + z) && LineIndex(c, w) == -1
    ensures NextMatchingFrom(u + [c] + v, w + [c] + z, 0) == (|u|, |w|)
    ensures LineIndex(c, w + [c] + z) == |w|
  {
    var a, b := u + [c] + v, w + [c] + z;
    assert b[|w|] == c && forall k :: 0 <= k < |w| ==> b[k] == w[k];
    FirstPosition(c, b, |w|);
    var r := NextMatchingFrom(a, b, 0);
    assert a[|u|] == c && forall k :: 0 <= k < |u| ==> a[k] == u[k];
  }

  lemma {:induction false} IssueAt(p: seq<Line>, x: seq<Line>, y: seq<Line>)
    requires x != [] && y != [] && x[0].full != y[0].full
    ensures FirstIssueIndex(p + x, p + y) == |p|
  {
    assert (p + x)[|p|] == x[0] && (p + y)[|p|] == y[0];
  }

  lemma {:induction false} AfterPrefix(p: seq<Line>, x: seq<Line>)
    ensures (p + x)[|p|..] == x
    ensures x != [] ==> (p + x)[|p|] == x[0]
  {
  }

  lemma {:induction false} SpliceAt(p: seq<Line>, x: seq<Line>, y: seq<Line>, off: nat, idx: nat)
    requires off <= |y| && idx <= |x|
    ensures Splice(p + x, p + y, |p|, off, idx) == p + y[..off] + x[idx..]
  {
  }

  lemma {:induction false} SharedAt(p: seq<Line>, x: seq<Line>, y: seq<Line>, i: nat, j: nat)
    requires i < |x| && j < |y| && x[i].full == y[j].full
    ensures ShareLine(p + x, p + y)
  {
    assert (p + x)[|p| + i] == x[i] && (p + y)[|p| + j] == y[j];
  }

  /** The first branch of FixLines. */
  lemma {:induction false} FixFillsX(x: seq<Line>, y: seq<Line>, i: nat, off: nat, idx: int)
    requires i < |x| && i < |y| && (i == 0 ==> ShareLine(x, y))
    requires LineIndex(y[i], x[i..]) == -1
    requires NextMatchingFrom(y[i..], x[i..], 0) == (off, idx)
    ensures 0 <= i + idx && FixLines(x, y, i) == Fix(Splice(x, y, i, off, idx), y, true)
  {
    MatchAtTheStart(x, y, i);
    assert x[i] == x[i..][0];
  }

  /** The second branch of FixLines. */
  lemma {:induction false} FixFillsY(x: seq<Line>, y: seq<Line>, i: nat, off: nat, idx: nat)
    requires i < |x| && i < |y| && (i == 0 ==> ShareLine(x, y))
    requires LineIndex(y[i], x[i..]) != -1 && LineIndex(x[i], y[i..]) == -1
    requires off <= |x| - i && idx <= |y| - i && NextMatchingFrom(x[i..], y[i..], 0) == (off, idx)
    ensures FixLines(x, y, i) == Fix(x, Splice(y, x, i, off, idx), true)
  {
    assert y[i] == y[i..][0];
  }

  /** The first branch at the end of a common prefix. */
  lemma {:induction false} FillX(p: seq<Line>, x: seq<Line>, y: seq<Line>, off: nat, idx: nat)
    requires x != [] && y != [] && LineIndex(y[0], x) == -1
    requires off < |y| && NextMatchingFrom(y, x, 0) == (off, idx)
    ensures FirstIssueIndex(p + x, p + y) == |p|
    ensures ShareLine(p + x, p + y)
    ensures FixLines(p + x, p + y, |p|) == Fix(p + y[..off] + x[idx..], p + y, true)
  {
    IssueAt(p, x, y);
    SharedAt(p, x, y, idx, off);
    AfterPrefix(p, x);
    AfterPrefix(p, y);
    FixFillsX(p + x, p + y, |p|, off, idx);
    SpliceAt(p, x, y, off, idx);
  }

  /** The second branch at the end of a common prefix. */
  lemma {:induction false} FillY(p: seq<Line>, x: seq<Line>, y: seq<Line>, off: nat, idx: nat)
    requires x != [] && y != [] && LineIndex(x[0], y) == -1 && LineIndex(y[0], x) != -1
    requires off < |x| && NextMatchingFrom(x, y, 0) == (off, idx)
    ensures FirstIssueIndex(p + x, p + y) == |p|
    ensures ShareLine(p + x, p + y)
    ensures FixLines(p + x, p + y, |p|) == Fix(p + x, p + x[..off] + y[idx..], true)
  {
    IssueAt(p, x, y);
    SharedAt(p, x, y, off, idx);
    AfterPrefix(p, x);
    AfterPrefix(p, y);
    FixFillsY(p + x, p + y, |p|, off, idx);
    SpliceAt(p, y, x, off, idx);
  }

  lemma {:induction false} FillFromB(p: seq<Line>, onlyA: seq<Line>, onlyB: seq<Line>, c: Line, restA: seq<Line>, restB: seq<Line>)
    requires onlyB != []
    requires NoneIn(onlyB, onlyA + [c] + restA) && LineIndex(c, onlyA) == -1
    ensures
      var x, y := p + (onlyA + [c] + restA), p + (onlyB + [c] + restB);
      && FirstIssueIndex(x, y) == |p|
      && ShareLine(x, y)
      && FixLines(x, y, |p|) == Fix(p + onlyB + [c] + restA, y, true)
  {
    MatchingAt(onlyB, c, restB, onlyA, restA);
    FillXWith(p, onlyA + [c] + restA, onlyB + [c] + restB, onlyB, [c] + restA);
    assert p + onlyB + ([c] + restA) == p + onlyB + [c] + restA;
  }

  lemma {:induction false} FillXWith(p: seq<Line>, x: seq<Line>, y: seq<Line>, run: seq<Line>, end: seq<Line>)
    requires x != [] && run != [] && end != [] && |run| < |y| && |end| <= |x|
    requires y[..|run|] == run && x[|x| - |end|..] == end && LineIndex(run[0], x) == -1
    requires NextMatchingFrom(y, x, 0) == (|run|, |x| - |end|)
    ensures FirstIssueIndex(p + x, p + y) == |p| && ShareLine(p + x, p + y)
    ensures FixLines(p + x, p + y, |p|) == Fix(p + run + end, p + y, true)
  {
    assert y[0] == run[0];
    FillX(p, x, y, |run|, |x| - |end|);
  }

  lemma {:induction false} FillFromA(p: seq<Line>, onlyA: seq<Line>, c: Line, restA: seq<Line>, restB: seq<Line>)
    requires onlyA != []
    requires NoneIn(onlyA, [c] + restB) && LineIndex(c, onlyA) == -1
    ensures
      var x, y := p + (onlyA + [c] + restA), p + ([c] + restB);
      && FirstIssueIndex(x, y) == |p|
      && ShareLine(x, y)
      && FixLines(x, y, |p|) == Fix(x, p + onlyA + [c] + restB, true)
  {
    var X, Y := onlyA + [c] + restA, [c] + restB;
    assert X[0] == onlyA[0] && X[|onlyA|] == c == Y[0];
    assert [] + [c] + restB == Y;
    MatchingAt(onlyA, c, restA, [], restB);
    FillY(p, X, Y, |onlyA|, 0);
    assert X[..|onlyA|] == onlyA && Y[0..] == Y;
    assert p + onlyA + ([c] + restB) == p + onlyA + [c] + restB;
  }

  /** Without a further match the rest of `y` is put before the last common line of `x`. */
  lemma {:induction false} FillXWithoutMatch(p: seq<Line>, x: seq<Line>, y: seq<Line>)
    requires p != [] && x != [] && y != [] && NoneIn(y, x)
    ensures FirstIssueIndex(p + x, p + y) == |p|
    ensures FixLines(p + x, p + y, |p|) == Fix(p + y + [p[|p| - 1]] + x, p + y, true)
  {
    IssueAt(p, x, y);
    AfterPrefix(p, x);
    AfterPrefix(p, y);
    var (off, idx) := NextMatchingFrom(y, x, 0);
    FixFillsX(p + x, p + y, |p|, off, idx);
    assert Splice(p + x, p + y, |p|, |y|, -1) == p + y + [p[|p| - 1]] + x;
  }

  lemma {:induction false} PrefixHasNoIssue(y: seq<Line>, t: seq<Line>)
    ensures FirstIssueIndex(y + t, y) == -1 && FirstIssueIndex(y, y + t) == -1
  {
  }

  lemma {:induction false} RepairStep(x: seq<Line>, y: seq<Line>, i: nat, fix: Fix)
    requires i == FirstIssueIndex(x, y) && ShareLine(x, y)
    requires fix == FixLines(x, y, i) && fix.changed
    ensures Repairable(fix.x, fix.y)
    ensures RepairOverlap(x, y) == RepairOverlap(fix.x, fix.y)
  {
    FixMakesProgress(x, y, i);
  }

  lemma {:induction false} RepairTails(p: seq<Line>, tailA: seq<Line>, tailB: seq<Line>)
    requires p != [] && NoneIn(tailB, tailA)
    ensures Repairable(p + tailA, p + tailB)
    ensures var r := RepairOverlap(p + tailA, p + tailB); r.Repaired? && r.y == p + tailB
  {
    assert (p + tailA)[0] == (p + tailB)[0] == p[0];
    if tailB == [] {
      assert p + tailB == p;
      PrefixHasNoIssue(p, tailA);
    } else if tailA == [] {
      assert p + tailA == p;
      PrefixHasNoIssue(p, tailB);
    } else {
      RepairBothTails(p, tailA, tailB);
    }
  }

  lemma {:induction false} RepairBothTails(p: seq<Line>, tailA: seq<Line>, tailB: seq<Line>)
    requires p != [] && NoneIn(tailB, tailA) && tailA != [] && tailB != []
    ensures Repairable(p + tailA, p + tailB)
    ensures var r := RepairOverlap(p + tailA, p + tailB); r.Repaired? && r.y == p + tailB
  {
    FillXWithoutMatch(p, tailA, tailB);
    assert p + tailB + [p[|p| - 1]] + tailA == p + tailB + ([p[|p| - 1]] + tailA);
    LastRepair(p + tailA, p + tailB, |p|, [p[|p| - 1]] + tailA);
  }

  lemma {:induction false} LastRepair(x: seq<Line>, y: seq<Line>, i: nat, again: seq<Line>)
    requires FirstIssueIndex(x, y) == i > 0
    requires FixLines(x, y, i) == Fix(y + again, y, true)
    ensures RepairOverlap(x, y) == Repaired(y + again, y)
  {
    FirstPosition(x[0], y, 0);
    assert ShareLine(x, y);
    RepairStep(x, y, i, Fix(y + again, y, true));
    PrefixHasNoIssue(y, again);
  }

  // ---- The repair loop, gap by gap

  /** After the common prefix `p`, the loop leaves in `y` what the layout keeps. */
  lemma {:induction false} RepairLayout(p: seq<Line>, l: Layout<Line>)
    requires Distinct(p + l.All())
    requires p != [] || l.gaps != []
    ensures Repairable(p + l.A(), p + l.B())
    ensures var r := RepairOverlap(p + l.A(), p + l.B()); r.Repaired? && r.y == p + l.Kept()
    decreases l.gaps
  {
    if l.gaps == [] {
      assert p + l.All() == p + l.tailA + l.tailB;
      DistinctConcat(p + l.tailA, l.tailB);
      FullsConcat(p, l.tailA);
      DisjointMeansNoneIn(l.tailB, l.tailA);
      assert l.A() == l.tailA && l.B() == l.tailB && l.Kept() == l.tailB;
      RepairTails(p, l.tailA, l.tailB);
    } else {
      var rest := l.(gaps := l.gaps[1..]);
      var filled := Filled(p, l.gaps[0]);
      FilledDistinct(p, l);
      RepairLayout(filled, rest);
      RepairGap(p, l, filled + rest.A(), filled + rest.B());
      FilledKept(p, l);
    }
  }

  lemma {:induction false} FilledKept(p: seq<Line>, l: Layout<Line>)
    requires l.gaps != []
    ensures Filled(p, l.gaps[0]) + l.(gaps := l.gaps[1..]).Kept() == p + l.Kept()
  {
    LayoutStep(l);
  }

  /** One gap is closed by at most one fix. */
  lemma {:induction false} RepairGap(p: seq<Line>, l: Layout<Line>, filledA: seq<Line>, filledB: seq<Line>)
    requires l.gaps != [] && GapIsClean(l)
    requires filledA == Filled(p, l.gaps[0]) + l.(gaps := l.gaps[1..]).A()
    requires filledB == Filled(p, l.gaps[0]) + l.(gaps := l.gaps[1..]).B()
    requires Repairable(filledA, filledB)
    ensures Repairable(p + l.A(), p + l.B())
    ensures RepairOverlap(p + l.A(), p + l.B()) == RepairOverlap(filledA, filledB)
  {
    var g, rest := l.gaps[0], l.(gaps := l.gaps[1..]);
    LayoutStep(l);
    if g.onlyB != [] {
      assert filledB == p + l.B();
      CloseFromB(p, g.onlyA, g.onlyB, g.common, rest.A(), rest.B(), p + l.A(), p + l.B(), filledA);
    } else if g.onlyA != [] {
      assert l.B() == [g.common] + rest.B();
      assert filledA == p + l.A();
      CloseFromA(p, g.onlyA, g.common, rest.A(), rest.B(), p + l.A(), p + l.B(), filledB);
    } else {
      assert filledA == p + l.A() && filledB == p + l.B();
    }
  }

  ghost function Filled(p: seq<Line>, g: Gap<Line>): seq<Line> {
    p + (if g.onlyB != [] then g.onlyB else g.onlyA) + [g.common]
  }

  lemma {:induction false} LayoutStep<T>(l: Layout<T>)
    requires l.gaps != []
    ensures
      var g, rest := l.gaps[0], l.(gaps := l.gaps[1..]);
      && l.A() == g.onlyA + [g.common] + rest.A()
      && l.B() == g.onlyB + [g.common] + rest.B()
      && l.All() == g.onlyA + g.onlyB + [g.common] + rest.All()
      && l.Kept() == (if g.onlyB != [] then g.onlyB else g.onlyA) + [g.common] + rest.Kept()
  {
  }

  ghost predicate GapIsClean(l: Layout<Line>)
    requires l.gaps != []
  {
    var g, rest := l.gaps[0], l.(gaps := l.gaps[1..]);
    && NoneIn(g.onlyB, g.onlyA + [g.common] + rest.A())
    && NoneIn(g.onlyA, [g.common] + rest.B())
    && LineIndex(g.common, g.onlyA) == -1
  }

  lemma {:induction false} FilledDistinct(p: seq<Line>, l: Layout<Line>)
    requires Distinct(p + l.All()) && l.gaps != []
    ensures Distinct(Filled(p, l.gaps[0]) + l.(gaps := l.gaps[1..]).All())
    ensures GapIsClean(l)
  {
    var g, rest := l.gaps[0], l.(gaps := l.gaps[1..]);
    LayoutStep(l);
    assert p + l.All() == p + g.onlyA + g.onlyB + [g.common] + rest.All();
    DistinctPieces(p, g.onlyA, g.onlyB, g.common, rest.All());
    SidesOfGaps(rest.gaps, rest.tailA, rest.tailB);
    CleanPieces(g, rest.A(), rest.B());
  }

  lemma {:induction false} CleanPieces(g: Gap<Line>, restA: seq<Line>, restB: seq<Line>)
    requires Fulls(g.onlyA) !! Fulls(g.onlyB)
    requires Fulls(g.onlyB) !! Fulls(restA) && Fulls(g.onlyA) !! Fulls(restB)
    requires g.common.full !in Fulls(g.onlyA) + Fulls(g.onlyB)
    ensures NoneIn(g.onlyB, g.onlyA + [g.common] + restA)
    ensures NoneIn(g.onlyA, [g.common] + restB)
    ensures LineIndex(g.common, g.onlyA) == -1
  {
    FullsOfSide(g.onlyA, g.common, restA);
    DisjointMeansNoneIn(g.onlyB, g.onlyA + [g.common] + restA);
    FullsConcat([g.common], restB);
    DisjointMeansNoneIn(g.onlyA, [g.common] + restB);
    DisjointMeansNoneIn([g.common], g.onlyA);
    assert [g.common][0] == g.common;
  }

  lemma {:induction false} CloseFromB(p: seq<Line>, onlyA: seq<Line>, onlyB: seq<Line>, c: Line,
      restA: seq<Line>, restB: seq<Line>, x: seq<Line>, y: seq<Line>, filled: seq<Line>)
    requires onlyB != []
    requires NoneIn(onlyB, onlyA + [c] + restA) && LineIndex(c, onlyA) == -1
    requires x == p + (onlyA + [c] + restA) && y == p + (onlyB + [c] + restB)
    requires filled == p + onlyB + [c] + restA
    ensures Repairable(x, y) && Repairable(filled, y)
    ensures RepairOverlap(x, y) == RepairOverlap(filled, y)
  {
    FillFromB(p, onlyA, onlyB, c, restA, restB);
    RepairStep(x, y, |p|, Fix(filled, y, true));
  }

  lemma {:induction false} CloseFromA(p: seq<Line>, onlyA: seq<Line>, c: Line,
      restA: seq<Line>, restB: seq<Line>, x: seq<Line>, y: seq<Line>, filled: seq<Line>)
    requires onlyA != []
    requires NoneIn(onlyA, [c] + restB) && LineIndex(c, onlyA) == -1
    requires x == p + (onlyA + [c] + restA) && y == p + ([c] + restB)
    requires filled == p + onlyA + [c] + restB
    ensures Repairable(x, y) && Repairable(x, filled)
    ensures RepairOverlap(x, y) == RepairOverlap(x, filled)
  {
    FillFromA(p, onlyA, c, restA, restB);
    RepairStep(x, y, |p|, Fix(x, filled, true));
  }

  lemma {:induction false} FullsOfSide(u: seq<Line>, c: Line, t: seq<Line>)
    ensures Fulls(u + [c] + t) == Fulls(u) + {c.full} + Fulls(t)
  {
    FullsConcat(u + [c], t);
    FullsConcat(u, [c]);
    assert Fulls([c]) == {c.full};
  }
}
