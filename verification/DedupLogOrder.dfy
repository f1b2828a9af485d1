/** DedupAB on two slices that are parts of one log, each possibly with lines missing. */
module DedupLogOrder {
  import opened LogLines
  import opened Outcomes
  import opened Dedup
  import opened DedupLayout
  import opened DedupTheorems

  // ---- Parts of a log, by the positions of their lines

  ghost predicate Increasing(positions: seq<nat>) {
    forall i, j :: 0 <= i < j < |positions| ==> positions[i] < positions[j]
  }

  ghost predicate Within(log: seq<Line>, positions: seq<nat>) {
    forall i :: 0 <= i < |positions| ==> positions[i] < |log|
  }

  ghost function At(log: seq<Line>, positions: seq<nat>): (lines: seq<Line>)
    requires Within(log, positions)
    ensures |lines| == |positions|
    ensures forall i :: 0 <= i < |positions| ==> lines[i] == log[positions[i]]
  {
    if positions == [] then [] else [log[positions[0]]] + At(log, positions[1..])
  }

  /** The lines are lines of the log, in log order, without repeats. */
  ghost predicate InLogOrder(log: seq<Line>, lines: seq<Line>) {
    exists positions: seq<nat> :: IsPartOf(log, lines, positions)
  }

  ghost predicate IsPartOf(log: seq<Line>, lines: seq<Line>, positions: seq<nat>) {
    Increasing(positions) && Within(log, positions) && lines == At(log, positions)
  }

  // ---- Every two parts of a log have a layout

  ghost function Align(i: seq<nat>, j: seq<nat>): Layout<nat> {
    if i == [] || j == [] then Layout([], i, j)
    else if i[0] == j[0] then
      var rest := Align(i[1..], j[1..]);
      rest.(gaps := [Gap([], [], i[0])] + rest.gaps)
    else if i[0] < j[0] then PutA(i[0], Align(i[1..], j))
    else PutB(j[0], Align(i, j[1..]))
  }

  ghost function PutA<T>(p: T, l: Layout<T>): Layout<T> {
    if l.gaps == [] then l.(tailA := [p] + l.tailA)
    else l.(gaps := [l.gaps[0].(onlyA := [p] + l.gaps[0].onlyA)] + l.gaps[1..])
  }

  ghost function PutB<T>(p: T, l: Layout<T>): Layout<T> {
    if l.gaps == [] then l.(tailB := [p] + l.tailB)
    else l.(gaps := [l.gaps[0].(onlyB := [p] + l.gaps[0].onlyB)] + l.gaps[1..])
  }

  lemma {:induction false} PutAKeeps<T>(p: T, l: Layout<T>)
    ensures PutA(p, l).A() == [p] + l.A() && PutA(p, l).B() == l.B()
    ensures PutA(p, l).All() == [p] + l.All()
    ensures PutA(p, l).Kept() == l.Kept() || PutA(p, l).Kept() == [p] + l.Kept()
  {
    if l.gaps != [] {
      var m := PutA(p, l);
      assert m.gaps[1..] == l.gaps[1..];
      LayoutStep(l);
      LayoutStep(m);
      PutFirst(p, l.gaps[0].onlyA, l.gaps[0].onlyB);
    }
  }

  lemma {:induction false} PutFirst<T>(p: T, onlyA: seq<T>, onlyB: seq<T>)
    ensures [p] + onlyA + onlyB == [p] + (onlyA + onlyB)
  {
  }

  lemma {:induction false} PutBKeepsSides<T>(p: T, l: Layout<T>)
    ensures PutB(p, l).A() == l.A() && PutB(p, l).B() == [p] + l.B()
  {
    if l.gaps != [] {
      var m := PutB(p, l);
      assert m.gaps[1..] == l.gaps[1..];
      SideStep(l.gaps);
      SideStep(m.gaps);
    }
  }

  lemma {:induction false} SideStep<T>(gaps: seq<Gap<T>>)
    requires gaps != []
    ensures SideA(gaps) == gaps[0].onlyA + ([gaps[0].common] + SideA(gaps[1..]))
    ensures SideB(gaps) == gaps[0].onlyB + ([gaps[0].common] + SideB(gaps[1..]))
  {
  }

  lemma {:induction false} PutBAll<T>(p: T, l: Layout<T>) returns (k: nat)
    ensures k <= |l.All()| && PutB(p, l).All() == l.All()[..k] + [p] + l.All()[k..]
  {
    if l.gaps == [] {
      k := |l.tailA|;
    } else {
      LayoutStep(l);
      LayoutStep(PutB(p, l));
      k := |l.gaps[0].onlyA|;
    }
  }

  lemma {:induction false} PutBKept(p: nat, l: Layout<nat>) returns (k: nat)
    ensures k <= |l.Kept()| && PutB(p, l).Kept() == [p] + l.Kept()[k..]
  {
    k := 0;
    if l.gaps != [] {
      LayoutStep(l);
      LayoutStep(PutB(p, l));
      if l.gaps[0].onlyB == [] {
        k := |l.gaps[0].onlyA|;
      }
    }
  }

  ghost predicate NoRepeats(positions: seq<nat>) {
    forall i, j :: 0 <= i < j < |positions| ==> positions[i] != positions[j]
  }

  /** The positions in the layout are those of either part. */
  lemma {:induction false} LayoutPositions(l: Layout<nat>)
    ensures forall p :: p in l.All() <==> p in l.A() || p in l.B()
    ensures forall p :: p in l.Kept() ==> p in l.A() || p in l.B()
    ensures forall p :: p in l.B() ==> p in l.Kept()
  {
    SidesInAll(l.gaps);
    forall p | p in l.Kept()
      ensures p in l.A() || p in l.B()
    {
      assert p in KeptOf(l.gaps) ==> p in AllOf(l.gaps);
    }
    assert forall p :: p in l.All() <==> p in AllOf(l.gaps) || p in l.tailA || p in l.tailB;
    assert forall p :: p in l.A() <==> p in SideA(l.gaps) || p in l.tailA;
    assert forall p :: p in l.B() <==> p in SideB(l.gaps) || p in l.tailB;
  }

  lemma {:induction false} NoRepeatsInsert(s: seq<nat>, k: nat, p: nat)
    requires NoRepeats(s) && p !in s && k <= |s|
    ensures NoRepeats(s[..k] + [p] + s[k..])
  {
  }

  lemma {:induction false} IncreasingFrom(s: seq<nat>, p: nat, k: nat)
    requires Increasing(s) && k <= |s| && forall q :: q in s ==> p < q
    ensures Increasing([p] + s[k..])
  {
    assert forall x :: k <= x < |s| ==> s[x] in s;
  }

  ghost predicate IsLayoutOf(l: Layout<nat>, i: seq<nat>, j: seq<nat>) {
    l.A() == i && l.B() == j && NoRepeats(l.All()) && Increasing(l.Kept())
  }

  /** Aligning two increasing sequences of positions gives a layout of the two. */
  lemma {:induction false} AlignIsLayout(i: seq<nat>, j: seq<nat>)
    requires Increasing(i) && Increasing(j)
    ensures IsLayoutOf(Align(i, j), i, j)
  {
    if i == [] || j == [] {
      AlignedEnd(i, j);
    } else if i[0] == j[0] {
      AlignIsLayout(i[1..], j[1..]);
      AlignedBoth(i, j, Align(i[1..], j[1..]));
    } else if i[0] < j[0] {
      AlignIsLayout(i[1..], j);
      AlignedA(i, j, Align(i[1..], j));
    } else {
      AlignIsLayout(i, j[1..]);
      AlignedB(i, j, Align(i, j[1..]));
    }
  }

  lemma {:induction false} AlignedEnd(i: seq<nat>, j: seq<nat>)
    requires Increasing(i) && Increasing(j) && (i == [] || j == [])
    ensures IsLayoutOf(Layout([], i, j), i, j)
  {
    var l := Layout([], i, j);
    assert l.All() == i + j && l.Kept() == j;
  }

  lemma {:induction false} AlignedBoth(i: seq<nat>, j: seq<nat>, rest: Layout<nat>)
    requires Increasing(i) && Increasing(j) && i != [] && j != [] && i[0] == j[0]
    requires IsLayoutOf(rest, i[1..], j[1..])
    ensures IsLayoutOf(rest.(gaps := [Gap([], [], i[0])] + rest.gaps), i, j)
  {
    CloseGap(i[0], rest);
  }

  lemma {:induction false} AlignedA(i: seq<nat>, j: seq<nat>, rest: Layout<nat>)
    requires Increasing(i) && Increasing(j) && i != [] && j != [] && i[0] < j[0]
    requires IsLayoutOf(rest, i[1..], j)
    ensures IsLayoutOf(PutA(i[0], rest), i, j)
  {
    OpenA(i[0], rest);
  }

  lemma {:induction false} AlignedB(i: seq<nat>, j: seq<nat>, rest: Layout<nat>)
    requires Increasing(i) && Increasing(j) && i != [] && j != [] && j[0] < i[0]
    requires IsLayoutOf(rest, i, j[1..])
    ensures IsLayoutOf(PutB(j[0], rest), i, j)
  {
    OpenB(j[0], rest);
  }

  lemma {:induction false} OpenA(p: nat, rest: Layout<nat>)
    requires NoRepeats(rest.All()) && Increasing(rest.Kept())
    requires forall q :: q in rest.A() || q in rest.B() ==> p < q
    ensures
      var l := PutA(p, rest);
      l.A() == [p] + rest.A() && l.B() == rest.B() && NoRepeats(l.All()) && Increasing(l.Kept())
  {
    PutAKeeps(p, rest);
    LayoutPositions(rest);
    NoRepeatsInsert(rest.All(), 0, p);
    assert [p] + rest.All() == rest.All()[..0] + [p] + rest.All()[0..];
    IncreasingFrom(rest.Kept(), p, 0);
    assert [p] + rest.Kept() == [p] + rest.Kept()[0..];
  }

  lemma {:induction false} OpenB(p: nat, rest: Layout<nat>)
    requires NoRepeats(rest.All()) && Increasing(rest.Kept())
    requires forall q :: q in rest.A() || q in rest.B() ==> p < q
    ensures
      var l := PutB(p, rest);
      l.A() == rest.A() && l.B() == [p] + rest.B() && NoRepeats(l.All()) && Increasing(l.Kept())
  {
    PutBKeepsSides(p, rest);
    LayoutPositions(rest);
    var k := PutBAll(p, rest);
    NoRepeatsInsert(rest.All(), k, p);
    var m := PutBKept(p, rest);
    IncreasingFrom(rest.Kept(), p, m);
  }

  lemma {:induction false} CloseGap(p: nat, rest: Layout<nat>)
    requires NoRepeats(rest.All()) && Increasing(rest.Kept())
    requires forall q :: q in rest.A() || q in rest.B() ==> p < q
    ensures
      var l := rest.(gaps := [Gap([], [], p)] + rest.gaps);
      l.A() == [p] + rest.A() && l.B() == [p] + rest.B() && NoRepeats(l.All()) && Increasing(l.Kept())
  {
    var l := rest.(gaps := [Gap([], [], p)] + rest.gaps);
    LayoutStep(l);
    assert l.(gaps := l.gaps[1..]) == rest;
    LayoutPositions(rest);
    NoRepeatsInsert(rest.All(), 0, p);
    assert l.All() == rest.All()[..0] + [p] + rest.All()[0..];
    IncreasingFrom(rest.Kept(), p, 0);
    assert l.Kept() == [p] + rest.Kept()[0..];
  }

  // ---- From positions to lines

  ghost predicate GapsWithin(log: seq<Line>, gaps: seq<Gap<nat>>) {
    forall g | g in gaps :: Within(log, g.onlyA) && Within(log, g.onlyB) && g.common < |log|
  }

  ghost function GapsAt(log: seq<Line>, gaps: seq<Gap<nat>>): seq<Gap<Line>>
    requires GapsWithin(log, gaps)
  {
    if gaps == [] then []
    else [Gap(At(log, gaps[0].onlyA), At(log, gaps[0].onlyB), log[gaps[0].common])] + GapsAt(log, gaps[1..])
  }

  ghost function LayoutAt(log: seq<Line>, l: Layout<nat>): Layout<Line>
    requires Within(log, l.All())
  {
    LayoutWithin(log, l);
    Layout(GapsAt(log, l.gaps), At(log, l.tailA), At(log, l.tailB))
  }

  lemma {:induction false} WithinParts(log: seq<Line>, s: seq<nat>, t: seq<nat>)
    ensures Within(log, s + t) <==> Within(log, s) && Within(log, t)
  {
    if Within(log, s + t) {
      assert forall k :: 0 <= k < |s| ==> s[k] == (s + t)[k];
      assert forall k :: 0 <= k < |t| ==> t[k] == (s + t)[|s| + k];
    }
  }

  lemma {:induction false} LayoutWithin(log: seq<Line>, l: Layout<nat>)
    requires Within(log, l.All())
    ensures GapsWithin(log, l.gaps) && Within(log, l.tailA) && Within(log, l.tailB)
    decreases l.gaps
  {
    if l.gaps == [] {
      assert l.All() == l.tailA + l.tailB;
      WithinParts(log, l.tailA, l.tailB);
    } else {
      var g, rest := l.gaps[0], l.(gaps := l.gaps[1..]);
      LayoutStep(l);
      WithinParts(log, g.onlyA + g.onlyB + [g.common], rest.All());
      WithinParts(log, g.onlyA + g.onlyB, [g.common]);
      WithinParts(log, g.onlyA, g.onlyB);
      assert [g.common][0] == g.common;
      LayoutWithin(log, rest);
    }
  }

  lemma {:induction false} AtConcat(log: seq<Line>, s: seq<nat>, t: seq<nat>)
    requires Within(log, s) && Within(log, t)
    ensures Within(log, s + t) && At(log, s + t) == At(log, s) + At(log, t)
  {
    WithinParts(log, s, t);
  }

  lemma {:induction false} NoRepeatsDistinct(log: seq<Line>, s: seq<nat>)
    requires Distinct(log) && NoRepeats(s) && Within(log, s)
    ensures Distinct(At(log, s))
  {
    forall i, j | 0 <= i < j < |s|
      ensures At(log, s)[i].full != At(log, s)[j].full
    {
      assert s[i] < s[j] || s[j] < s[i];
    }
  }

  lemma {:induction false} AtGap(log: seq<Line>, u: seq<nat>, p: nat, t: seq<nat>)
    requires Within(log, u) && p < |log| && Within(log, t)
    ensures Within(log, u + [p] + t) && At(log, u + [p] + t) == At(log, u) + [log[p]] + At(log, t)
  {
    AtConcat(log, u, [p]);
    AtConcat(log, u + [p], t);
  }

  lemma {:induction false} GapsAtSides(log: seq<Line>, gaps: seq<Gap<nat>>)
    requires GapsWithin(log, gaps)
    ensures Within(log, SideA(gaps)) && SideA(GapsAt(log, gaps)) == At(log, SideA(gaps))
    ensures Within(log, SideB(gaps)) && SideB(GapsAt(log, gaps)) == At(log, SideB(gaps))
    ensures Within(log, KeptOf(gaps)) && KeptOf(GapsAt(log, gaps)) == At(log, KeptOf(gaps))
  {
    if gaps != [] {
      var g, rest := gaps[0], gaps[1..];
      GapsAtSides(log, rest);
      AtGap(log, g.onlyA, g.common, SideA(rest));
      AtGap(log, g.onlyB, g.common, SideB(rest));
      AtGap(log, if g.onlyB != [] then g.onlyB else g.onlyA, g.common, KeptOf(rest));
    }
  }

  lemma {:induction false} GapsAtAll(log: seq<Line>, gaps: seq<Gap<nat>>)
    requires GapsWithin(log, gaps)
    ensures Within(log, AllOf(gaps)) && AllOf(GapsAt(log, gaps)) == At(log, AllOf(gaps))
  {
    if gaps != [] {
      var g, rest := gaps[0], gaps[1..];
      GapsAtAll(log, rest);
      AtConcat(log, g.onlyA, g.onlyB);
      AtGap(log, g.onlyA + g.onlyB, g.common, AllOf(rest));
    }
  }

  lemma {:induction false} LayoutAtSides(log: seq<Line>, l: Layout<nat>)
    requires Within(log, l.All())
    ensures Within(log, l.A()) && LayoutAt(log, l).A() == At(log, l.A())
    ensures Within(log, l.B()) && LayoutAt(log, l).B() == At(log, l.B())
    ensures Within(log, l.Kept()) && LayoutAt(log, l).Kept() == At(log, l.Kept())
    ensures LayoutAt(log, l).All() == At(log, l.All())
  {
    LayoutWithin(log, l);
    GapsAtSides(log, l.gaps);
    GapsAtAll(log, l.gaps);
    AtConcat(log, SideA(l.gaps), l.tailA);
    AtConcat(log, SideB(l.gaps), l.tailB);
    AtConcat(log, KeptOf(l.gaps), l.tailB);
    AtConcat(log, AllOf(l.gaps), l.tailA);
    AtConcat(log, AllOf(l.gaps) + l.tailA, l.tailB);
  }

  // ---- The result in log order

  /** The later slice starts with a line of the earlier one, or the earlier one ends with a
      line of the later one, or all of the earlier one lies before the later one. */
  ghost predicate Meet(i: seq<nat>, j: seq<nat>)
    requires i != [] && j != []
  {
    j[0] in i || i[|i| - 1] in j || i[|i| - 1] < j[0]
  }

  lemma {:induction false} HeadIsCommon(l: Layout<nat>)
    requires NoRepeats(l.All()) && l.A() != [] && l.B() != []
    ensures l.B()[0] in l.A() <==> l.gaps != [] && l.gaps[0].onlyB == []
  {
    SidesInAll(l.gaps);
    if l.gaps == [] {
      assert l.All() == l.tailA + l.tailB && l.A() == l.tailA && l.B() == l.tailB;
      assert forall k :: 0 <= k < |l.tailA| ==> l.tailA[k] == l.All()[k];
      assert l.tailB[0] == l.All()[|l.tailA|];
    } else {
      LayoutStep(l);
      var g, rest := l.gaps[0], l.(gaps := l.gaps[1..]);
      if g.onlyB == [] {
        assert l.B()[0] == g.common == l.A()[|g.onlyA|];
      } else {
        OnlyInB(g, rest, l.All());
        assert l.B()[0] == g.onlyB[0];
      }
    }
  }

  lemma {:induction false} OnlyInB(g: Gap<nat>, rest: Layout<nat>, all: seq<nat>)
    requires g.onlyB != [] && all == g.onlyA + g.onlyB + [g.common] + rest.All() && NoRepeats(all)
    ensures g.onlyB[0] !in g.onlyA + [g.common] + rest.A()
  {
    LayoutPositions(rest);
    var k, m := |g.onlyA|, |g.onlyA| + |g.onlyB|;
    assert all[k] == g.onlyB[0] && all[m] == g.common;
    assert forall x :: 0 <= x < k ==> all[x] == g.onlyA[x];
    assert forall x :: 0 <= x < |rest.All()| ==> all[m + 1 + x] == rest.All()[x];
  }

  lemma {:induction false} EndIsCommon(l: Layout<nat>)
    requires NoRepeats(l.All()) && l.A() != [] && l.B() != []
    ensures l.A()[|l.A()| - 1] in l.B() <==> l.gaps != [] && l.tailA == []
  {
    var all := l.All();
    SidesInAll(l.gaps);
    if l.tailA == [] {
      LastIsCommon(l.gaps);
      assert l.A() == SideA(l.gaps);
    } else {
      var k := |AllOf(l.gaps)| + |l.tailA| - 1;
      assert all[k] == l.A()[|l.A()| - 1];
      assert forall x :: 0 <= x < |AllOf(l.gaps)| ==> all[x] == AllOf(l.gaps)[x];
      assert forall x :: 0 <= x < |l.tailB| ==> all[k + 1 + x] == l.tailB[x];
    }
  }

  lemma {:induction false} SamePosition(log: seq<Line>, s: seq<nat>, t: seq<nat>, m: nat)
    requires Distinct(log) && Within(log, s) && Within(log, t)
    requires At(log, s) == At(log, t) && m < |s|
    ensures m < |t| && s[m] == t[m]
  {
    assert log[s[m]] == At(log, s)[m] == At(log, t)[m] == log[t[m]];
    DistinctAt(log, s[m], t[m]);
  }

  lemma {:induction false} ConcatInOrder(log: seq<Line>, i: seq<nat>, j: seq<nat>)
    requires Distinct(log) && Increasing(i) && Increasing(j) && Within(log, i) && Within(log, j)
    requires i != [] && j != []
    ensures Within(log, i + j) && At(log, i + j) == At(log, i) + At(log, j)
    ensures InLogOrder(log, At(log, i + j)) <==> i[|i| - 1] < j[0]
  {
    AtConcat(log, i, j);
    if i[|i| - 1] < j[0] {
      ConcatIncreasing(i, j);
      assert IsPartOf(log, At(log, i + j), i + j);
    }
    if InLogOrder(log, At(log, i + j)) {
      var k: seq<nat> :| IsPartOf(log, At(log, i + j), k);
      var m := |i| - 1;
      SamePosition(log, i + j, k, m);
      SamePosition(log, i + j, k, m + 1);
      assert (i + j)[m] == i[m] && (i + j)[m + 1] == j[0];
    }
  }

  /** The aligned parts, as positions: what DedupOnLayout says of their lines. */
  lemma {:induction false} DedupOnParts(log: seq<Line>, i: seq<nat>, j: seq<nat>, l: Layout<nat>)
    requires Distinct(log) && Increasing(i) && Increasing(j) && Within(log, i) && Within(log, j)
    requires i != [] && j != [] && l == Align(i, j)
    ensures l.Anchored() <==> j[0] in i || i[|i| - 1] in j
    ensures Increasing(l.Kept()) && Within(log, l.Kept())
    ensures DedupAB(At(log, i), At(log, j)).Done?
    ensures
      var r := DedupAB(At(log, i), At(log, j)).value;
      if l.Anchored() then r.a + r.b == At(log, l.Kept()) else r == Pair(At(log, i), At(log, j))
  {
    AlignIsLayout(i, j);
    LayoutPositions(l);
    forall x | 0 <= x < |l.All()|
      ensures l.All()[x] < |log|
    {
      assert l.All()[x] in l.All();
    }
    LayoutAtSides(log, l);
    NoRepeatsDistinct(log, l.All());
    HeadIsCommon(l);
    EndIsCommon(l);
    DedupOnLayout(LayoutAt(log, l));
  }

  /** The lines come from the positions `k`, which are all of `j` and otherwise some of `i`. */
  ghost predicate MergedFrom(log: seq<Line>, lines: seq<Line>, i: seq<nat>, j: seq<nat>, k: seq<nat>) {
    && IsPartOf(log, lines, k)
    && (forall p :: p in j ==> p in k)
    && (forall p :: p in k ==> p in i || p in j)
  }

  /** Two parts of one log: DedupAB never fails, and its two results together are again a part
      of the log, in log order and without repeats, exactly when the parts meet. Then no line
      of the later part is lost and every line comes from one of the parts. */
  lemma {:induction false} ResultInLogOrderIff(log: seq<Line>, i: seq<nat>, j: seq<nat>)
    requires Distinct(log) && Increasing(i) && Increasing(j) && Within(log, i) && Within(log, j)
    requires i != [] && j != []
    ensures DedupAB(At(log, i), At(log, j)).Done?
    ensures
      var r := DedupAB(At(log, i), At(log, j)).value;
      && (Meet(i, j) <==> InLogOrder(log, r.a + r.b))
      && (Meet(i, j) ==> exists k: seq<nat> :: MergedFrom(log, r.a + r.b, i, j, k))
  {
    var l := Align(i, j);
    DedupOnParts(log, i, j, l);
    var r := DedupAB(At(log, i), At(log, j)).value;
    if l.Anchored() {
      AlignIsLayout(i, j);
      LayoutPositions(l);
      assert MergedFrom(log, r.a + r.b, i, j, l.Kept());
    } else {
      ConcatInOrder(log, i, j);
      if i[|i| - 1] < j[0] {
        ConcatIncreasing(i, j);
        assert MergedFrom(log, r.a + r.b, i, j, i + j);
      }
    }
  }

  lemma {:induction false} ConcatIncreasing(i: seq<nat>, j: seq<nat>)
    requires Increasing(i) && Increasing(j) && i != [] && j != [] && i[|i| - 1] < j[0]
    ensures Increasing(i + j)
  {
  }
}
