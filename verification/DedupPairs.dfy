/** DedupAB on two slices whose common lines come in the same order, stated on the slices. */
module DedupPairs {
  import opened LogLines
  import opened Outcomes
  import opened Dedup
  import opened DedupLayout
  import opened DedupTheorems
  import opened DedupLogOrder

  // ---- Every such pair has a layout

  ghost predicate Common(a: seq<Line>, b: seq<Line>, i: int, j: int) {
    0 <= i < |a| && 0 <= j < |b| && a[i].full == b[j].full
  }

  /** A common line is the same line in both slices, since the timestamp is part of the text. */
  ghost predicate SameLines(a: seq<Line>, b: seq<Line>) {
    forall i, j :: Common(a, b, i, j) ==> a[i] == b[j]
  }

  ghost predicate SameOrder(a: seq<Line>, b: seq<Line>) {
    forall i, j, p, q {:trigger Common(a, b, i, j), Common(a, b, p, q)} ::
      Common(a, b, i, j) && Common(a, b, p, q) ==> (i < p <==> j < q)
  }

  ghost predicate Ordered(a: seq<Line>, b: seq<Line>) {
    Distinct(a) && Distinct(b) && SameLines(a, b) && SameOrder(a, b)
  }

  lemma {:induction false} OrderedRest(a: seq<Line>, b: seq<Line>, n: nat, m: nat)
    requires Ordered(a, b) && n <= |a| && m <= |b|
    ensures Ordered(a[n..], b[m..])
  {
    forall i, j | Common(a[n..], b[m..], i, j)
      ensures Common(a, b, i + n, j + m) && a[n..][i] == b[m..][j]
    {
      assert Common(a, b, i + n, j + m);
    }
    assert a == a[..n] + a[n..] && b == b[..m] + b[m..];
    DistinctConcat(a[..n], a[n..]);
    DistinctConcat(b[..m], b[m..]);
  }

  ghost function LayoutOf(a: seq<Line>, b: seq<Line>): Layout<Line>
    decreases |a| + |b|
  {
    if a == [] || b == [] then Layout([], a, b)
    else if LineIndex(a[0], b) == -1 then PutA(a[0], LayoutOf(a[1..], b))
    else if LineIndex(b[0], a) == -1 then PutB(b[0], LayoutOf(a, b[1..]))
    else
      var rest := LayoutOf(a[1..], b[1..]);
      rest.(gaps := [Gap([], [], a[0])] + rest.gaps)
  }

  lemma {:induction false} FirstAreCommon(a: seq<Line>, b: seq<Line>)
    requires Ordered(a, b) && a != [] && b != []
    requires LineIndex(a[0], b) != -1 && LineIndex(b[0], a) != -1
    ensures a[0] == b[0]
  {
    var (j, p) := (LineIndex(a[0], b), LineIndex(b[0], a));
    assert Common(a, b, 0, j) && Common(a, b, p, 0);
  }

  lemma {:induction false} AllFromSides(l: Layout<Line>)
    ensures forall line :: line in l.All() ==> line in l.A() || line in l.B()
  {
    SidesInAll(l.gaps);
  }

  lemma {:induction false} DistinctInsert(s: seq<Line>, k: nat, line: Line)
    requires Distinct(s) && k <= |s| && forall other :: other in s ==> other.full != line.full
    ensures Distinct(s[..k] + [line] + s[k..])
  {
    var r := s[..k] + [line] + s[k..];
    forall i, j | 0 <= i < j < |r|
      ensures r[i].full != r[j].full
    {
      assert i < k ==> r[i] == s[i];
      assert i > k ==> r[i] == s[i - 1];
      assert j < k ==> r[j] == s[j];
      assert j > k ==> r[j] == s[j - 1];
    }
  }

  lemma {:induction false} AloneIn(line: Line, rest: seq<Line>, other: seq<Line>, all: seq<Line>)
    requires Distinct([line] + rest) && LineIndex(line, other) == -1
    requires forall l :: l in all ==> l in rest || l in other
    ensures forall l :: l in all ==> l.full != line.full
  {
    var whole := [line] + rest;
    forall l | l in all
      ensures l.full != line.full
    {
      if l in rest {
        var k :| 0 <= k < |rest| && rest[k] == l;
        assert whole[0] == line && whole[k + 1] == l;
      }
    }
  }

  /** The layout shows the two slices, and no line twice. */
  lemma {:induction false} LayoutShowsBoth(a: seq<Line>, b: seq<Line>)
    requires Ordered(a, b)
    ensures var l := LayoutOf(a, b); l.A() == a && l.B() == b && Distinct(l.All())
    decreases |a| + |b|
  {
    if a == [] || b == [] {
      assert LayoutOf(a, b).All() == a + b;
      assert a + b == if a == [] then b else a;
    } else if LineIndex(a[0], b) == -1 {
      OrderedRest(a, b, 1, 0);
      assert b[0..] == b && a == [a[0]] + a[1..];
      LayoutShowsBoth(a[1..], b);
      var rest := LayoutOf(a[1..], b);
      PutAKeeps(a[0], rest);
      AllFromSides(rest);
      AloneIn(a[0], a[1..], b, rest.All());
      DistinctAfter(a[0], rest.All());
    } else if LineIndex(b[0], a) == -1 {
      OrderedRest(a, b, 0, 1);
      assert a[0..] == a && b == [b[0]] + b[1..];
      LayoutShowsBoth(a, b[1..]);
      var rest := LayoutOf(a, b[1..]);
      PutBKeepsSides(b[0], rest);
      AllFromSides(rest);
      AloneIn(b[0], b[1..], a, rest.All());
      var k := PutBAll(b[0], rest);
      DistinctInsert(rest.All(), k, b[0]);
    } else {
      OrderedRest(a, b, 1, 1);
      LayoutShowsBoth(a[1..], b[1..]);
      FirstAreCommon(a, b);
      CommonFirst(a, b, LayoutOf(a[1..], b[1..]));
    }
  }

  lemma {:induction false} CommonFirst(a: seq<Line>, b: seq<Line>, rest: Layout<Line>)
    requires a != [] && b != [] && a[0] == b[0] && Distinct(a) && Distinct(b)
    requires rest.A() == a[1..] && rest.B() == b[1..] && Distinct(rest.All())
    ensures
      var l := rest.(gaps := [Gap([], [], a[0])] + rest.gaps);
      l.A() == a && l.B() == b && Distinct(l.All())
  {
    AllFromSides(rest);
    CloseWith(a[0], rest);
    NotAgain(a, rest.All(), a[0], b);
    DistinctAfter(a[0], rest.All());
    assert a == [a[0]] + a[1..] && b == [b[0]] + b[1..];
  }

  lemma {:induction false} DistinctAfter(line: Line, s: seq<Line>)
    requires Distinct(s) && forall other :: other in s ==> other.full != line.full
    ensures Distinct([line] + s)
  {
    DistinctInsert(s, 0, line);
    assert [line] + s == s[..0] + [line] + s[0..];
  }

  lemma {:induction false} CloseWith(c: Line, rest: Layout<Line>)
    ensures
      var l := rest.(gaps := [Gap([], [], c)] + rest.gaps);
      l.A() == [c] + rest.A() && l.B() == [c] + rest.B() && l.All() == [c] + rest.All()
  {
    var l := rest.(gaps := [Gap([], [], c)] + rest.gaps);
    assert l.gaps[1..] == rest.gaps;
    LayoutStep(l);
  }

  lemma {:induction false} NotAgain(a: seq<Line>, all: seq<Line>, line: Line, b: seq<Line>)
    requires a != [] && b != [] && a[0] == b[0] == line && Distinct(a) && Distinct(b)
    requires forall l :: l in all ==> l in a[1..] || l in b[1..]
    ensures forall l :: l in all ==> l.full != line.full
  {
    forall l | l in all
      ensures l.full != line.full
    {
      if l in a[1..] {
        var k :| 0 <= k < |a[1..]| && a[1..][k] == l;
        assert a[k + 1] == l;
      } else {
        var k :| 0 <= k < |b[1..]| && b[1..][k] == l;
        assert b[k + 1] == l;
      }
    }
  }

  // ---- Gaps with lines of both

  /** Line i of the earlier slice and line j of the later one are in the same gap: neither is
      common, and no common line stands between them. */
  ghost predicate SameGap(a: seq<Line>, b: seq<Line>, i: int, j: int) {
    && 0 <= i < |a| && 0 <= j < |b| && LineIndex(a[i], b) == -1 && LineIndex(b[j], a) == -1
    && forall p, q :: Common(a, b, p, q) ==> (p < i <==> q < j)
  }

  /** The later slice starts, or the earlier one ends, with a common line. */
  ghost predicate Overlap(a: seq<Line>, b: seq<Line>)
    requires a != [] && b != []
  {
    LineIndex(b[0], a) != -1 || LineIndex(a[|a| - 1], b) != -1
  }

  ghost predicate TwoSided<T>(gaps: seq<Gap<T>>) {
    exists k :: 0 <= k < |gaps| && gaps[k].onlyA != [] && gaps[k].onlyB != []
  }

  ghost predicate AnySameGap(a: seq<Line>, b: seq<Line>) {
    exists i, j :: SameGap(a, b, i, j)
  }

  /** One gap and the rest, seen from the slices. */
  ghost predicate IsFirstGap(a: seq<Line>, b: seq<Line>, u: seq<Line>, v: seq<Line>, c: Line, s: seq<Line>, t: seq<Line>) {
    && a == u + [c] + s && b == v + [c] + t && Distinct(a) && Distinct(b)
    && NoneIn(v, a) && NoneIn(u, b)
  }

  lemma {:induction false} NotBefore(a: seq<Line>, b: seq<Line>, u: seq<Line>, v: seq<Line>, c: Line,
      s: seq<Line>, t: seq<Line>, p: int, q: int)
    requires IsFirstGap(a, b, u, v, c, s, t) && Common(a, b, p, q)
    ensures p >= |u| && q >= |v|
  {
    assert forall i :: 0 <= i < |u| ==> a[i] == u[i];
    assert forall j :: 0 <= j < |v| ==> b[j] == v[j];
  }

  lemma {:induction false} CommonInRest(a: seq<Line>, b: seq<Line>, u: seq<Line>, v: seq<Line>, c: Line,
      s: seq<Line>, t: seq<Line>, p: int, q: int)
    requires IsFirstGap(a, b, u, v, c, s, t)
    ensures Common(a, b, p, q) <==> (p == |u| && q == |v|) || Common(s, t, p - |u| - 1, q - |v| - 1)
  {
    if Common(a, b, p, q) {
      NotBefore(a, b, u, v, c, s, t, p, q);
      assert a[|u|] == c && b[|v|] == c;
      if p == |u| {
        DistinctAt(b, q, |v|);
      }
      if q == |v| {
        DistinctAt(a, p, |u|);
      }
    }
  }

  /** Behind m and n lines and a common one, the slices a and b are s and t. */
  ghost predicate RestIs(a: seq<Line>, b: seq<Line>, m: nat, n: nat, s: seq<Line>, t: seq<Line>) {
    && |a| == m + 1 + |s| && |b| == n + 1 + |t|
    && (forall i :: 0 <= i < |s| ==> a[m + 1 + i] == s[i]) && (forall j :: 0 <= j < |t| ==> b[n + 1 + j] == t[j])
    && (forall p, q :: Common(a, b, p, q) <==> (p == m && q == n) || CommonShifted(s, t, p, q, m, n))
  }

  ghost predicate CommonShifted(s: seq<Line>, t: seq<Line>, p: int, q: int, m: nat, n: nat) {
    Common(s, t, p - m - 1, q - n - 1)
  }

  lemma {:induction false} GapRest(a: seq<Line>, b: seq<Line>, u: seq<Line>, v: seq<Line>, c: Line,
      s: seq<Line>, t: seq<Line>)
    requires IsFirstGap(a, b, u, v, c, s, t)
    ensures RestIs(a, b, |u|, |v|, s, t)
  {
    forall p, q
      ensures Common(a, b, p, q) <==> (p == |u| && q == |v|) || CommonShifted(s, t, p, q, |u|, |v|)
    {
      CommonInRest(a, b, u, v, c, s, t, p, q);
    }
  }

  lemma {:induction false} AloneIff(a: seq<Line>, b: seq<Line>, i: nat)
    requires i < |a|
    ensures LineIndex(a[i], b) == -1 <==> forall q :: !Common(a, b, i, q)
  {
    var q := LineIndex(a[i], b);
    assert q != -1 ==> Common(a, b, i, q);
  }

  lemma {:induction false} AloneInLater(a: seq<Line>, b: seq<Line>, j: nat)
    requires j < |b|
    ensures LineIndex(b[j], a) == -1 <==> forall p :: !Common(a, b, p, j)
  {
    var p := LineIndex(b[j], a);
    assert p != -1 ==> Common(a, b, p, j);
  }

  lemma {:induction false} AloneInRest(a: seq<Line>, b: seq<Line>, m: nat, n: nat, s: seq<Line>, t: seq<Line>, i: nat)
    requires RestIs(a, b, m, n, s, t) && i < |s|
    ensures LineIndex(s[i], t) == -1 <==> LineIndex(a[m + 1 + i], b) == -1
  {
    AloneIff(s, t, i);
    AloneIff(a, b, m + 1 + i);
    if q :| Common(s, t, i, q) {
      assert CommonShifted(s, t, m + 1 + i, q + n + 1, m, n);
      assert Common(a, b, m + 1 + i, q + n + 1);
    }
    var i' := m + 1 + i;
    if q :| Common(a, b, i', q) {
      assert Common(s, t, i, q - n - 1);
    }
  }

  lemma {:induction false} LaterInRest(a: seq<Line>, b: seq<Line>, m: nat, n: nat, s: seq<Line>, t: seq<Line>, j: nat)
    requires RestIs(a, b, m, n, s, t) && j < |t|
    ensures LineIndex(t[j], s) == -1 <==> LineIndex(b[n + 1 + j], a) == -1
  {
    AloneInLater(s, t, j);
    AloneInLater(a, b, n + 1 + j);
    if p :| Common(s, t, p, j) {
      assert CommonShifted(s, t, p + m + 1, n + 1 + j, m, n);
      assert Common(a, b, p + m + 1, n + 1 + j);
    }
    var j' := n + 1 + j;
    if p :| Common(a, b, p, j') {
      assert Common(s, t, p - m - 1, j);
    }
  }

  lemma {:induction false} SameGapFirst(a: seq<Line>, b: seq<Line>, u: seq<Line>, v: seq<Line>, c: Line,
      s: seq<Line>, t: seq<Line>)
    requires IsFirstGap(a, b, u, v, c, s, t) && u != [] && v != []
    ensures SameGap(a, b, 0, 0)
  {
    assert a[0] == u[0] && b[0] == v[0];
  }

  /** Two lines of the rest are in the same gap there exactly when they are in the whole. */
  lemma {:induction false} SameGapShifts(a: seq<Line>, b: seq<Line>, m: nat, n: nat, s: seq<Line>, t: seq<Line>,
      i: int, j: int)
    requires RestIs(a, b, m, n, s, t) && 0 <= i < |s| && 0 <= j < |t|
    ensures SameGap(s, t, i, j) <==> SameGap(a, b, m + 1 + i, n + 1 + j)
  {
    AloneInRest(a, b, m, n, s, t, i);
    LaterInRest(a, b, m, n, s, t, j);
    var (i', j') := (m + 1 + i, n + 1 + j);
    if SameGap(s, t, i, j) {
      forall p, q | Common(a, b, p, q)
        ensures p < i' <==> q < j'
      {
        assert (p == m && q == n) || CommonShifted(s, t, p, q, m, n);
      }
    }
    if SameGap(a, b, i', j') {
      forall p, q | Common(s, t, p, q)
        ensures p < i <==> q < j
      {
        assert CommonShifted(s, t, p + m + 1, q + n + 1, m, n);
        assert Common(a, b, p + m + 1, q + n + 1);
      }
    }
  }

  lemma {:induction false} SameGapInRest(a: seq<Line>, b: seq<Line>, u: seq<Line>, v: seq<Line>, c: Line,
      s: seq<Line>, t: seq<Line>, i: int, j: int)
    requires IsFirstGap(a, b, u, v, c, s, t) && SameGap(a, b, i, j)
    ensures (u != [] && v != []) || (i > |u| && j > |v|)
  {
    CommonInRest(a, b, u, v, c, s, t, |u|, |v|);
    assert Common(a, b, |u|, |v|);
    assert i != |u| && j != |v| && (|u| < i <==> |v| < j);
  }

  lemma {:induction false} GapInWhole(a: seq<Line>, b: seq<Line>, m: nat, n: nat, s: seq<Line>, t: seq<Line>)
    requires RestIs(a, b, m, n, s, t)
    ensures AnySameGap(s, t) ==> AnySameGap(a, b)
  {
    if i, j :| SameGap(s, t, i, j) {
      SameGapShifts(a, b, m, n, s, t, i, j);
    }
  }

  lemma {:induction false} GapInRest(a: seq<Line>, b: seq<Line>, m: nat, n: nat, s: seq<Line>, t: seq<Line>, i: int, j: int)
    requires RestIs(a, b, m, n, s, t) && SameGap(a, b, i, j) && i > m && j > n
    ensures AnySameGap(s, t)
  {
    SameGapShifts(a, b, m, n, s, t, i - m - 1, j - n - 1);
  }

  lemma {:induction false} SameGapStep(a: seq<Line>, b: seq<Line>, u: seq<Line>, v: seq<Line>, c: Line,
      s: seq<Line>, t: seq<Line>)
    requires IsFirstGap(a, b, u, v, c, s, t)
    ensures AnySameGap(a, b) <==> (u != [] && v != []) || AnySameGap(s, t)
  {
    GapRest(a, b, u, v, c, s, t);
    if u != [] && v != [] {
      SameGapFirst(a, b, u, v, c, s, t);
    }
    GapInWhole(a, b, |u|, |v|, s, t);
    GapSplits(a, b, u, v, c, s, t);
  }

  lemma {:induction false} GapSplits(a: seq<Line>, b: seq<Line>, u: seq<Line>, v: seq<Line>, c: Line,
      s: seq<Line>, t: seq<Line>)
    requires IsFirstGap(a, b, u, v, c, s, t)
    ensures AnySameGap(a, b) ==> (u != [] && v != []) || AnySameGap(s, t)
  {
    if i, j :| SameGap(a, b, i, j) {
      GapSplitsAt(a, b, u, v, c, s, t, i, j);
    }
  }

  lemma {:induction false} GapSplitsAt(a: seq<Line>, b: seq<Line>, u: seq<Line>, v: seq<Line>, c: Line,
      s: seq<Line>, t: seq<Line>, i: int, j: int)
    requires IsFirstGap(a, b, u, v, c, s, t) && SameGap(a, b, i, j)
    ensures (u != [] && v != []) || AnySameGap(s, t)
  {
    SameGapInRest(a, b, u, v, c, s, t, i, j);
    if i > |u| && j > |v| {
      GapRest(a, b, u, v, c, s, t);
      GapInRest(a, b, |u|, |v|, s, t, i, j);
    }
  }

  lemma {:induction false} NoneInEither(u: seq<Line>, v: seq<Line>, s: seq<Line>, t: seq<Line>)
    requires NoneIn(v, u + s) && NoneIn(u, t)
    ensures NoneIn(u, v + t)
  {
    forall i | 0 <= i < |u|
      ensures LineIndex(u[i], v + t) == -1
    {
      forall q | 0 <= q < |v + t|
        ensures (v + t)[q].full != u[i].full
      {
        if q < |v| {
          assert LineIndex(v[q], u + s) == -1 && (u + s)[i] == u[i];
        } else {
          assert LineIndex(u[i], t) == -1;
        }
      }
    }
  }

  lemma {:induction false} FirstGap(l: Layout<Line>)
    requires Distinct(l.All()) && l.gaps != [] && Distinct(l.A()) && Distinct(l.B())
    ensures
      var (g, rest) := (l.gaps[0], l.(gaps := l.gaps[1..]));
      IsFirstGap(l.A(), l.B(), g.onlyA, g.onlyB, g.common, rest.A(), rest.B())
    ensures Distinct(l.(gaps := l.gaps[1..]).All())
  {
    var (g, rest) := (l.gaps[0], l.(gaps := l.gaps[1..]));
    LayoutStep(l);
    assert [] + l.All() == l.All();
    FilledDistinct([], l);
    FirstGapIs(l.A(), l.B(), g, rest.A(), rest.B());
    DistinctConcat(g.onlyA + g.onlyB + [g.common], rest.All());
  }

  lemma {:induction false} FirstGapIs(a: seq<Line>, b: seq<Line>, g: Gap<Line>, restA: seq<Line>, restB: seq<Line>)
    requires a == g.onlyA + [g.common] + restA && b == g.onlyB + [g.common] + restB && Distinct(a) && Distinct(b)
    requires NoneIn(g.onlyB, g.onlyA + [g.common] + restA) && NoneIn(g.onlyA, [g.common] + restB)
    ensures IsFirstGap(a, b, g.onlyA, g.onlyB, g.common, restA, restB)
  {
    assert g.onlyA + [g.common] + restA == g.onlyA + ([g.common] + restA);
    assert g.onlyB + [g.common] + restB == g.onlyB + ([g.common] + restB);
    NoneInEither(g.onlyA, g.onlyB, [g.common] + restA, [g.common] + restB);
  }

  lemma {:induction false} AnchoredIff(l: Layout<Line>)
    requires Distinct(l.All()) && l.A() != [] && l.B() != []
    ensures l.Anchored() <==> Overlap(l.A(), l.B())
    ensures l.gaps != [] && l.tailA == [] <==> LineIndex(l.A()[|l.A()| - 1], l.B()) != -1
  {
    LastOfA(l);
    if l.gaps == [] {
      assert l.All() == l.tailA + l.tailB && l.A() == l.tailA && l.B() == l.tailB;
      DistinctConcat(l.tailA, l.tailB);
      DisjointMeansNoneIn(l.tailB, l.tailA);
    } else {
      FirstOfB(l);
    }
  }

  lemma {:induction false} TwoSidedIff(l: Layout<Line>)
    requires Distinct(l.All()) && Distinct(l.A()) && Distinct(l.B())
    ensures AnySameGap(l.A(), l.B()) <==> TwoSided(l.gaps) || (l.tailA != [] && l.tailB != [])
    decreases |l.gaps|
  {
    if l.gaps == [] {
      TailsAreOneGap(l);
    } else {
      var (g, rest) := (l.gaps[0], l.(gaps := l.gaps[1..]));
      FirstGap(l);
      FirstGapDistinct(l.A(), g.onlyA, g.common, rest.A());
      FirstGapDistinct(l.B(), g.onlyB, g.common, rest.B());
      TwoSidedIff(rest);
      SameGapStep(l.A(), l.B(), g.onlyA, g.onlyB, g.common, rest.A(), rest.B());
      TwoSidedStep(l.gaps);
    }
  }

  lemma {:induction false} FirstGapDistinct(a: seq<Line>, u: seq<Line>, c: Line, s: seq<Line>)
    requires Distinct(a) && a == u + [c] + s
    ensures Distinct(s)
  {
    DistinctConcat(u + [c], s);
  }

  lemma {:induction false} TwoSidedStep(gaps: seq<Gap<Line>>)
    requires gaps != []
    ensures TwoSided(gaps) <==> (gaps[0].onlyA != [] && gaps[0].onlyB != []) || TwoSided(gaps[1..])
  {
    if TwoSided(gaps[1..]) {
      var k :| 0 <= k < |gaps[1..]| && gaps[1..][k].onlyA != [] && gaps[1..][k].onlyB != [];
      assert gaps[k + 1] == gaps[1..][k];
    }
    if TwoSided(gaps) {
      var k :| 0 <= k < |gaps| && gaps[k].onlyA != [] && gaps[k].onlyB != [];
      assert k > 0 ==> gaps[1..][k - 1] == gaps[k];
    }
  }

  lemma {:induction false} TailsAreOneGap(l: Layout<Line>)
    requires l.gaps == [] && Distinct(l.All())
    ensures AnySameGap(l.A(), l.B()) <==> l.tailA != [] && l.tailB != []
  {
    assert l.All() == l.tailA + l.tailB && l.A() == l.tailA && l.B() == l.tailB;
    DistinctConcat(l.tailA, l.tailB);
    DisjointMeansNoneIn(l.tailA, l.tailB);
    DisjointMeansNoneIn(l.tailB, l.tailA);
    if l.tailA != [] && l.tailB != [] {
      assert LineIndex(l.tailA[0], l.tailB) == -1 && LineIndex(l.tailB[0], l.tailA) == -1;
      assert SameGap(l.A(), l.B(), 0, 0);
    }
  }

  // ---- The merge of two slices

  /** Two non-empty slices without repeats whose common lines come in the same order, of which the
      later one starts or the earlier one ends with a common line. DedupAB loses no line of the
      later one. It loses no line of the earlier one, and gives every line once in both orders, if
      and only if the earlier slice ends with a common line and no two lines that only one of the
      slices has are in the same gap between common lines. */
  lemma {:induction false} CompleteMergeOfSlices(a: seq<Line>, b: seq<Line>)
    requires a != [] && b != [] && Ordered(a, b) && Overlap(a, b)
    ensures DedupAB(a, b).Done?
    ensures
      var r := DedupAB(a, b).value;
      && Covers(r.a + r.b, b)
      && (Covers(r.a + r.b, a) <==> LineIndex(a[|a| - 1], b) != -1 && !AnySameGap(a, b))
      && (Covers(r.a + r.b, a) ==> Distinct(r.a + r.b) && Subsequence(a, r.a + r.b) && Subsequence(b, r.a + r.b))
  {
    var l := LayoutOf(a, b);
    LayoutShowsBoth(a, b);
    AnchoredIff(l);
    TwoSidedIff(l);
    OneSidedIff(l);
    CompleteMergeIff(l);
    if l.OneSided() {
      MergeKeepsBothOrders(l);
    }
  }

  lemma {:induction false} OneSidedIff(l: Layout<Line>)
    ensures l.OneSided() <==> l.tailA == [] && !TwoSided(l.gaps)
  {
    if TwoSided(l.gaps) {
      var k :| 0 <= k < |l.gaps| && l.gaps[k].onlyA != [] && l.gaps[k].onlyB != [];
      assert l.gaps[k] in l.gaps;
    }
  }

  /** Without such an overlap the slices come back as they are. */
  lemma {:induction false} NoOverlapSeen(a: seq<Line>, b: seq<Line>)
    requires a != [] && b != [] && Ordered(a, b) && !Overlap(a, b)
    ensures DedupAB(a, b) == Done(Pair(a, b))
  {
    var l := LayoutOf(a, b);
    LayoutShowsBoth(a, b);
    AnchoredIff(l);
    DedupOnLayout(l);
  }
}
