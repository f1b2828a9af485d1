/** What DedupAB does with every pair of slices of one log, and when it panics. */
module DedupTheorems {
  import opened LogLines
  import opened Outcomes
  import opened Dedup
  import opened DedupLayout

  // ---- The exact result on a layout

  lemma {:induction false} IssueBehindHead(c: Line, x: seq<Line>, y: seq<Line>)
    requires FirstIssueIndex([c] + x, [c] + y) == -1
    ensures FirstIssueIndex(x, y) == -1
  {
    assert forall k :: 0 <= k < |x| ==> ([c] + x)[k + 1] == x[k];
    assert forall k :: 0 <= k < |y| ==> ([c] + y)[k + 1] == y[k];
  }

  lemma {:induction false} GapHasIssue(l: Layout<Line>)
    requires l.gaps != [] && GapIsClean(l)
    requires l.gaps[0].onlyA != [] || l.gaps[0].onlyB != []
    ensures l.A()[0].full != l.B()[0].full
  {
    var g, rest := l.gaps[0], l.(gaps := l.gaps[1..]);
    LayoutStep(l);
    if g.onlyB != [] {
      assert l.B()[0] == g.onlyB[0];
      assert (g.onlyA + [g.common] + rest.A())[0].full != g.onlyB[0].full;
    } else {
      assert l.A()[0] == g.onlyA[0];
      assert l.B() == [g.common] + rest.B();
      assert ([g.common] + rest.B())[0].full != g.onlyA[0].full;
    }
  }

  /** Slices without an issue have no lines of their own between common lines. */
  lemma {:induction false} NoIssueNoGaps(l: Layout<Line>)
    requires Distinct(l.All()) && FirstIssueIndex(l.A(), l.B()) == -1
    ensures SideB(l.gaps) == KeptOf(l.gaps)
    decreases l.gaps
  {
    if l.gaps != [] {
      var g, rest := l.gaps[0], l.(gaps := l.gaps[1..]);
      assert [] + l.All() == l.All();
      FilledDistinct([], l);
      LayoutStep(l);
      if g.onlyA != [] || g.onlyB != [] {
        GapHasIssue(l);
        assert false;
      }
      assert l.A() == [g.common] + rest.A() && l.B() == [g.common] + rest.B();
      IssueBehindHead(g.common, rest.A(), rest.B());
      assert l.All() == [g.common] + rest.All();
      DistinctConcat([g.common], rest.All());
      NoIssueNoGaps(rest);
    }
  }

  lemma {:induction false} FirstOfB(l: Layout<Line>)
    requires l.gaps != [] && Distinct(l.All())
    ensures LineIndex(l.B()[0], l.A()) == if l.gaps[0].onlyB == [] then |l.gaps[0].onlyA| else -1
  {
    var g, rest := l.gaps[0], l.(gaps := l.gaps[1..]);
    assert [] + l.All() == l.All();
    FilledDistinct([], l);
    LayoutStep(l);
    if g.onlyB == [] {
      assert l.B()[0] == g.common;
      assert l.A()[|g.onlyA|] == g.common && forall k :: 0 <= k < |g.onlyA| ==> l.A()[k] == g.onlyA[k];
      FirstPosition(g.common, l.A(), |g.onlyA|);
    } else {
      assert l.B()[0] == g.onlyB[0];
    }
  }

  lemma {:induction false} LastIsCommon<T>(gaps: seq<Gap<T>>)
    requires gaps != []
    ensures SideA(gaps) != [] && SideB(gaps) != []
    ensures SideA(gaps)[|SideA(gaps)| - 1] == SideB(gaps)[|SideB(gaps)| - 1]
  {
    if |gaps| > 1 {
      LastIsCommon(gaps[1..]);
    }
  }

  lemma {:induction false} LastOfA(l: Layout<Line>)
    requires l.A() != [] && Distinct(l.All())
    ensures LineIndex(l.A()[|l.A()| - 1], l.B()) != -1 <==> l.gaps != [] && l.tailA == []
  {
    var last := l.A()[|l.A()| - 1];
    if l.tailA == [] {
      assert l.A() == SideA(l.gaps);
      LastIsCommon(l.gaps);
      assert l.B()[|SideB(l.gaps)| - 1] == last;
    } else {
      assert l.All() == AllOf(l.gaps) + (l.tailA + l.tailB);
      DistinctConcat(AllOf(l.gaps), l.tailA + l.tailB);
      DistinctConcat(l.tailA, l.tailB);
      FullsConcat(l.tailA, l.tailB);
      SidesInAll(l.gaps);
      FullsConcat(SideB(l.gaps), l.tailB);
      assert Fulls(SideB(l.gaps)) <= Fulls(AllOf(l.gaps));
      DisjointMeansNoneIn(l.tailA, l.B());
      assert last == l.tailA[|l.tailA| - 1];
    }
  }

  lemma {:induction false} NothingInCommon(a: seq<Line>, b: seq<Line>)
    requires a != [] && b != [] && Distinct(a + b)
    ensures DedupAB(a, b) == Done(Pair(a, b))
  {
    DistinctConcat(a, b);
    DisjointMeansNoneIn(a, b);
    DisjointMeansNoneIn(b, a);
    assert LineIndex(b[0], a) == -1 && LineIndex(a[|a| - 1], b) == -1;
  }

  lemma {:induction false} WithoutGaps(l: Layout<Line>)
    requires Distinct(l.All()) && l.A() != [] && l.B() != [] && l.gaps == []
    ensures DedupAB(l.A(), l.B()) == Done(Pair(l.A(), l.B()))
  {
    assert l.All() == l.tailA + l.tailB && l.A() == l.tailA && l.B() == l.tailB;
    NothingInCommon(l.tailA, l.tailB);
  }

  /** DedupAB on any two non-empty slices whose common lines come in the same order.

      Anchored at a common line, the two results together are exactly the lines the layout
      keeps: after a repair the later one alone, and otherwise the earlier slice's lines before the
      first common one are the earlier result. Without an anchor the code sees no overlap and
      returns the slices as they are. */
  lemma {:induction false} DedupOnLayout(l: Layout<Line>)
    requires Distinct(l.All()) && l.A() != [] && l.B() != []
    ensures DedupAB(l.A(), l.B()).Done?
    ensures
      var r := DedupAB(l.A(), l.B()).value;
      && (if l.Anchored() then r.a + r.b == l.Kept() else r == Pair(l.A(), l.B()))
      && (l.Anchored() ==> r.a == if NeedsRepair(l.A(), l.B()) then [] else l.gaps[0].onlyA)
  {
    LastOfA(l);
    if l.gaps == [] {
      WithoutGaps(l);
    } else {
      FirstOfB(l);
      if NeedsRepair(l.A(), l.B()) {
        RepairWhole(l);
        RepairedResult(l.A(), l.B(), l.Kept());
      } else if l.gaps[0].onlyB == [] {
        NoRepairResult(l);
      }
    }
  }

  lemma {:induction false} RepairWhole(l: Layout<Line>)
    requires Distinct(l.All()) && l.gaps != []
    ensures Repairable(l.A(), l.B())
    ensures var r := RepairOverlap(l.A(), l.B()); r.Repaired? && r.y == l.Kept()
  {
    assert [] + l.All() == l.All();
    RepairLayout([], l);
    assert [] + l.A() == l.A();
    assert [] + l.B() == l.B();
    assert [] + l.Kept() == l.Kept();
  }

  lemma {:induction false} RepairedResult(a: seq<Line>, b: seq<Line>, repaired: seq<Line>)
    requires a != [] && b != [] && NeedsRepair(a, b) && Repairable(a, b)
    requires RepairOverlap(a, b).Repaired? && RepairOverlap(a, b).y == repaired
    ensures DedupAB(a, b) == Done(Pair([], repaired))
  {
  }

  lemma {:induction false} NoRepairResult(l: Layout<Line>)
    requires l.gaps != [] && Distinct(l.All()) && l.gaps[0].onlyB == []
    requires l.A() != [] && l.B() != []
    requires LineIndex(l.B()[0], l.A()) == |l.gaps[0].onlyA| && !NeedsRepair(l.A(), l.B())
    ensures
      var r := DedupAB(l.A(), l.B());
      r.Done? && r.value.a == l.gaps[0].onlyA && r.value.a + r.value.b == l.Kept()
  {
    UnrepairedResult(l.A(), l.B(), |l.gaps[0].onlyA|);
    NoIssueKept(l);
  }

  lemma {:induction false} UnrepairedResult(a: seq<Line>, b: seq<Line>, n: nat)
    requires a != [] && b != [] && LineIndex(b[0], a) == n && !NeedsRepair(a, b)
    ensures FirstIssueIndex(a[n..], b) == -1
    ensures DedupAB(a, b) == Done(Pair(a[..n], b))
  {
  }

  lemma {:induction false} NoIssueKept(l: Layout<Line>)
    requires l.gaps != [] && Distinct(l.All()) && l.gaps[0].onlyB == []
    requires |l.gaps[0].onlyA| <= |l.A()| && FirstIssueIndex(l.A()[|l.gaps[0].onlyA|..], l.B()) == -1
    ensures l.A()[..|l.gaps[0].onlyA|] == l.gaps[0].onlyA && l.gaps[0].onlyA + l.B() == l.Kept()
  {
    var behind := BehindFirst(l);
    DistinctConcat(l.gaps[0].onlyA, behind.All());
    AfterPrefix(l.gaps[0].onlyA, behind.A());
    NoIssueNoGaps(behind);
  }

  /** The layout without the earlier slice's lines before the first common line. */
  lemma {:induction false} BehindFirst(l: Layout<Line>) returns (behind: Layout<Line>)
    requires l.gaps != [] && l.gaps[0].onlyB == []
    ensures l.A() == l.gaps[0].onlyA + behind.A() && l.B() == behind.B()
    ensures l.All() == l.gaps[0].onlyA + behind.All() && l.Kept() == l.gaps[0].onlyA + behind.Kept()
  {
    behind := l.(gaps := [l.gaps[0].(onlyA := [])] + l.gaps[1..]);
    LayoutStep(l);
    LayoutStep(behind);
    assert behind.gaps[1..] == l.gaps[1..];
  }

  // ---- Nothing is lost exactly when the layout is one-sided

  ghost predicate Covers<T>(t: seq<T>, s: seq<T>) {
    forall k :: 0 <= k < |s| ==> s[k] in t
  }

  lemma {:induction false} OneSidedKeepsAll(gaps: seq<Gap<Line>>)
    requires forall g | g in gaps :: g.onlyA == [] || g.onlyB == []
    ensures KeptOf(gaps) == AllOf(gaps)
  {
    if gaps != [] {
      var g := gaps[0];
      assert g in gaps;
      OneSidedKeepsAll(gaps[1..]);
      assert (if g.onlyB != [] then g.onlyB else g.onlyA) == g.onlyA + g.onlyB;
    }
  }

  /** A line that only the earlier slice has is dropped from a gap with lines of both. */
  lemma {:induction false} TwoSidedGapLosesLines(l: Layout<Line>, k: nat)
    requires Distinct(l.All()) && k < |l.gaps|
    requires l.gaps[k].onlyA != [] && l.gaps[k].onlyB != []
    ensures l.gaps[k].onlyA[0] in SideA(l.gaps)
    ensures l.gaps[k].onlyA[0].full !in Fulls(l.Kept())
    decreases k
  {
    var g, rest := l.gaps[0], l.(gaps := l.gaps[1..]);
    LayoutStep(l);
    var kept := if g.onlyB != [] then g.onlyB else g.onlyA;
    assert l.All() == [] + g.onlyA + g.onlyB + [g.common] + rest.All();
    DistinctPieces([], g.onlyA, g.onlyB, g.common, rest.All());
    FullsOfSide(kept, g.common, rest.Kept());
    SidesInAll(rest.gaps);
    if k == 0 {
      assert g.onlyA[0].full in Fulls(g.onlyA);
      assert Fulls(rest.Kept()) <= Fulls(rest.All());
    } else {
      DistinctConcat(g.onlyA + g.onlyB + [g.common], rest.All());
      assert l.All() == g.onlyA + g.onlyB + [g.common] + rest.All();
      TwoSidedGapLosesLines(rest, k - 1);
      var line := rest.gaps[k - 1].onlyA[0];
      assert line in rest.All();
      assert line.full in Fulls(rest.All());
    }
  }

  lemma {:induction false} TailIsLost(l: Layout<Line>)
    requires Distinct(l.All()) && l.tailA != []
    ensures l.tailA[0].full !in Fulls(l.Kept())
  {
    assert l.All() == AllOf(l.gaps) + (l.tailA + l.tailB);
    DistinctConcat(AllOf(l.gaps), l.tailA + l.tailB);
    DistinctConcat(l.tailA, l.tailB);
    FullsConcat(l.tailA, l.tailB);
    SidesInAll(l.gaps);
    FullsConcat(KeptOf(l.gaps), l.tailB);
    assert Fulls(KeptOf(l.gaps)) <= Fulls(AllOf(l.gaps));
    assert l.tailA[0].full in Fulls(l.tailA);
  }

  /** Around a common line, the two results together are the whole merge - and miss no line of
      the earlier slice - if and only if no gap has lines of both and the earlier slice has
      none after the last common line. */
  lemma {:induction false} CompleteMergeIff(l: Layout<Line>)
    requires Distinct(l.All()) && l.A() != [] && l.B() != [] && l.Anchored()
    ensures DedupAB(l.A(), l.B()).Done?
    ensures
      var r := DedupAB(l.A(), l.B()).value;
      && (l.OneSided() <==> r.a + r.b == l.All())
      && (l.OneSided() <==> Covers(r.a + r.b, l.A()))
      && Covers(r.a + r.b, l.B())
  {
    DedupOnLayout(l);
    KeptCoversB(l);
    if l.OneSided() {
      KeptIsAll(l);
    } else {
      SomeLineIsLost(l);
    }
  }

  lemma {:induction false} KeptCoversB(l: Layout<Line>)
    ensures Covers(l.Kept(), l.B())
  {
    SidesInAll(l.gaps);
  }

  lemma {:induction false} KeptIsAll(l: Layout<Line>)
    requires l.OneSided()
    ensures l.Kept() == l.All() && Covers(l.All(), l.A())
  {
    SidesInAll(l.gaps);
    OneSidedKeepsAll(l.gaps);
  }

  lemma {:induction false} SomeLineIsLost(l: Layout<Line>)
    requires Distinct(l.All()) && !l.OneSided()
    ensures l.Kept() != l.All() && !Covers(l.Kept(), l.A())
  {
    SidesInAll(l.gaps);
    if l.tailA != [] {
      TailIsLost(l);
      assert l.A()[|SideA(l.gaps)|] == l.tailA[0];
      assert l.tailA[0] in l.A() && l.tailA[0] in l.All();
    } else {
      var g :| g in l.gaps && g.onlyA != [] && g.onlyB != [];
      var k :| 0 <= k < |l.gaps| && l.gaps[k] == g;
      TwoSidedGapLosesLines(l, k);
      assert g.onlyA[0] in l.A() && g.onlyA[0] in l.All();
    }
  }

  // ---- Both orders survive

  ghost predicate Subsequence<T>(s: seq<T>, t: seq<T>) {
    s == [] || (t != [] && ((s[0] == t[0] && Subsequence(s[1..], t[1..])) || Subsequence(s, t[1..])))
  }

  lemma {:induction false} SubsequenceRefl<T>(s: seq<T>)
    ensures Subsequence(s, s)
  {
    if s != [] {
      SubsequenceRefl(s[1..]);
    }
  }

  lemma {:induction false} SubsequenceConcat<T>(s: seq<T>, t: seq<T>, u: seq<T>, v: seq<T>)
    requires Subsequence(s, t) && Subsequence(u, v)
    ensures Subsequence(s + u, t + v)
    decreases |t|
  {
    if t == [] {
      assert s + u == u && t + v == v;
    } else {
      assert (t + v)[1..] == t[1..] + v;
      if s == [] {
        assert s + u == [] + u;
        SubsequenceConcat([], t[1..], u, v);
      } else if s[0] == t[0] && Subsequence(s[1..], t[1..]) {
        SubsequenceConcat(s[1..], t[1..], u, v);
        assert (s + u)[1..] == s[1..] + u;
      } else {
        SubsequenceConcat(s, t[1..], u, v);
      }
    }
  }

  lemma {:induction false} SidesInOrder<T>(gaps: seq<Gap<T>>)
    ensures Subsequence(SideA(gaps), AllOf(gaps)) && Subsequence(SideB(gaps), AllOf(gaps))
    ensures Subsequence(KeptOf(gaps), AllOf(gaps))
  {
    if gaps != [] {
      var g := gaps[0];
      SidesInOrder(gaps[1..]);
      SubsequenceRefl(g.onlyA);
      SubsequenceRefl(g.onlyB);
      SubsequenceRefl([g.common]);
      SubsequenceConcat(g.onlyA, g.onlyA, [], g.onlyB);
      SubsequenceConcat([], g.onlyA, g.onlyB, g.onlyB);
      assert g.onlyA + [] == g.onlyA && [] + g.onlyB == g.onlyB;
      SubsequenceConcat(g.onlyA, g.onlyA + g.onlyB, [g.common], [g.common]);
      SubsequenceConcat(g.onlyB, g.onlyA + g.onlyB, [g.common], [g.common]);
      var head := g.onlyA + g.onlyB + [g.common];
      SubsequenceConcat(g.onlyA + [g.common], head, SideA(gaps[1..]), AllOf(gaps[1..]));
      SubsequenceConcat(g.onlyB + [g.common], head, SideB(gaps[1..]), AllOf(gaps[1..]));
      var kept := if g.onlyB != [] then g.onlyB else g.onlyA;
      SubsequenceConcat(kept + [g.common], head, KeptOf(gaps[1..]), AllOf(gaps[1..]));
    }
  }

  lemma {:induction false} BothInMerge(l: Layout<Line>)
    ensures Subsequence(l.A(), l.All()) && Subsequence(l.B(), l.All())
  {
    SidesInOrder(l.gaps);
    SubsequenceRefl(l.tailA);
    SubsequenceRefl(l.tailB);
    SubsequenceConcat(SideA(l.gaps), AllOf(l.gaps), l.tailA, l.tailA);
    SubsequenceConcat(l.A(), AllOf(l.gaps) + l.tailA, [], l.tailB);
    assert l.A() + [] == l.A();
    SubsequenceConcat(SideB(l.gaps), AllOf(l.gaps), [], l.tailA);
    assert SideB(l.gaps) + [] == SideB(l.gaps);
    SubsequenceConcat(SideB(l.gaps), AllOf(l.gaps) + l.tailA, l.tailB, l.tailB);
  }

  /** The repaired merge keeps the order of both slices. */
  lemma {:induction false} MergeKeepsBothOrders(l: Layout<Line>)
    requires Distinct(l.All()) && l.A() != [] && l.B() != [] && l.Anchored() && l.OneSided()
    ensures DedupAB(l.A(), l.B()).Done?
    ensures
      var r := DedupAB(l.A(), l.B()).value;
      Subsequence(l.A(), r.a + r.b) && Subsequence(l.B(), r.a + r.b)
  {
    CompleteMergeIff(l);
    BothInMerge(l);
  }
}
