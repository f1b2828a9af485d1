/** Slices that are contiguous windows of one log: the fold yields every covered line once. */
module LogWindows {
  import opened LogLines
  import opened Outcomes
  import opened Dedup
  import opened DedupSlices

  /** Lines from..to of the log, read in one generation. */
  datatype Window = Window(from: nat, to: nat, generation: uint32)

  ghost predicate ValidWindow(log: seq<Line>, w: Window) {
    w.from < w.to <= |log|
  }

  ghost function SliceOf(log: seq<Line>, w: Window): LineSlice
    requires ValidWindow(log, w)
  {
    MakeSliceFromLines(log[w.from..w.to], w.generation)
  }

  /** No text occurs twice, and time increases strictly from line to line. */
  ghost predicate IsLog(log: seq<Line>) {
    forall i, j {:trigger Follows(log, i, j)} :: 0 <= i < j < |log| ==> Follows(log, i, j)
  }

  ghost predicate Follows(log: seq<Line>, i: nat, j: nat)
    requires i < |log| && j < |log|
  {
    log[i].full != log[j].full && log[i].timestamp < log[j].timestamp
  }

  lemma {:induction false} LogIsDistinct(log: seq<Line>)
    requires IsLog(log)
    ensures Distinct(log)
  {
    forall i, j | 0 <= i < j < |log|
      ensures log[i].full != log[j].full
    {
      assert Follows(log, i, j);
    }
  }

  lemma {:induction false} TimesInOrder(log: seq<Line>, i: nat, j: nat)
    requires IsLog(log) && i < |log| && j < |log|
    ensures log[i].timestamp < log[j].timestamp <==> i < j
  {
    if i < j {
      assert Follows(log, i, j);
    } else if j < i {
      assert Follows(log, j, i);
    }
  }

  // ---- The lines of the log that some window covers

  ghost predicate Covered(ws: set<Window>, i: nat) {
    exists w :: w in ws && w.from <= i < w.to
  }

  /** The covered lines of log[lo..hi], in log order, each once. */
  ghost function Pick(log: seq<Line>, ws: set<Window>, lo: nat, hi: nat): seq<Line>
    requires lo <= hi <= |log|
    decreases hi
  {
    if lo == hi then []
    else Pick(log, ws, lo, hi - 1) + (if Covered(ws, hi - 1) then [log[hi - 1]] else [])
  }

  lemma {:induction false} PickSplit(log: seq<Line>, ws: set<Window>, lo: nat, mid: nat, hi: nat)
    requires lo <= mid <= hi <= |log|
    ensures Pick(log, ws, lo, hi) == Pick(log, ws, lo, mid) + Pick(log, ws, mid, hi)
    decreases hi
  {
    if mid < hi {
      PickSplit(log, ws, lo, mid, hi - 1);
    }
  }

  lemma {:induction false} PickSame(log: seq<Line>, ws: set<Window>, vs: set<Window>, lo: nat, hi: nat)
    requires lo <= hi <= |log|
    requires forall i: nat :: lo <= i < hi ==> (Covered(ws, i) <==> Covered(vs, i))
    ensures Pick(log, ws, lo, hi) == Pick(log, vs, lo, hi)
    decreases hi
  {
    if lo < hi {
      PickSame(log, ws, vs, lo, hi - 1);
    }
  }

  lemma {:induction false} PickAll(log: seq<Line>, ws: set<Window>, lo: nat, hi: nat)
    requires lo <= hi <= |log|
    requires forall i: nat :: lo <= i < hi ==> Covered(ws, i)
    ensures Pick(log, ws, lo, hi) == log[lo..hi]
    decreases hi
  {
    if lo < hi {
      PickAll(log, ws, lo, hi - 1);
    }
  }

  lemma {:induction false} PickNone(log: seq<Line>, ws: set<Window>, lo: nat, hi: nat)
    requires lo <= hi <= |log|
    requires forall i: nat :: lo <= i < hi ==> !Covered(ws, i)
    ensures Pick(log, ws, lo, hi) == []
    decreases hi
  {
    if lo < hi {
      PickNone(log, ws, lo, hi - 1);
    }
  }

  /** Every picked line is a line of log[lo..hi]. */
  lemma {:induction false} PickFrom(log: seq<Line>, ws: set<Window>, lo: nat, hi: nat)
    requires lo <= hi <= |log|
    ensures forall line :: line in Pick(log, ws, lo, hi) ==> exists i: nat :: lo <= i < hi && log[i] == line
    decreases hi
  {
    if lo < hi {
      PickFrom(log, ws, lo, hi - 1);
      forall line | line in Pick(log, ws, lo, hi)
        ensures exists i: nat :: lo <= i < hi && log[i] == line
      {
        if line in Pick(log, ws, lo, hi - 1) {
          var i: nat :| lo <= i < hi - 1 && log[i] == line;
        } else {
          assert log[hi - 1] == line;
        }
      }
    }
  }

  // ---- One step of the fold

  function Min(a: nat, b: nat): nat {
    if a < b then a else b
  }

  ghost predicate OccursFrom(log: seq<Line>, p: nat, line: Line) {
    exists i: nat :: p <= i < |log| && log[i] == line
  }

  /** A window against a reference that starts, no earlier, with a window that ends no earlier:
      nothing needs repair. */
  lemma {:induction false} DedupWindow(log: seq<Line>, s: nat, e: nat, s': nat, e': nat, tail: seq<Line>)
    requires Distinct(log) && s < e <= e' <= |log| && s <= s' < e'
    requires forall k :: 0 <= k < |tail| ==> OccursFrom(log, e', tail[k])
    ensures
      var reference := log[s'..e'] + tail;
      DedupAB(log[s..e], reference) == Done(Pair(log[s..Min(s', e)], reference))
  {
    var reference := log[s'..e'] + tail;
    assert reference[0] == log[s'];
    if s' < e {
      assert forall k :: 0 <= k < e - s' ==> reference[k] == log[s' + k];
      OverlappingWindow(log, s, e, s', reference);
    } else {
      AbsentFromLater(log, e - 1, s', e', tail);
      DisjointWindow(log, s, e, s', reference);
    }
  }

  lemma {:induction false} OverlappingWindow(log: seq<Line>, s: nat, e: nat, s': nat, reference: seq<Line>)
    requires Distinct(log) && s <= s' < e <= |log| && e - s' <= |reference|
    requires forall k :: 0 <= k < e - s' ==> reference[k] == log[s' + k]
    ensures DedupAB(log[s..e], reference) == Done(Pair(log[s..s'], reference))
  {
    var a := log[s..e];
    var n := s' - s;
    assert forall k :: 0 <= k < |a| ==> a[k] == log[s + k];
    assert a[n..] == log[s'..e] && a[..n] == log[s..s'];
    assert forall k :: n <= k < |a| ==> a[k] == log[s' + (k - n)];
    OverlapAt(a, n, reference);
  }

  lemma {:induction false} OverlapAt(a: seq<Line>, n: nat, reference: seq<Line>)
    requires Distinct(a) && n < |a| && |a| - n <= |reference|
    requires forall k :: n <= k < |a| ==> a[k] == reference[k - n]
    ensures DedupAB(a, reference) == Done(Pair(a[..n], reference))
  {
    FirstPosition(reference[0], a, n);
    assert forall k :: 0 <= k < |a| - n ==> a[n..][k] == a[n + k];
    assert FirstIssueIndex(a[n..], reference) == -1;
  }

  lemma {:induction false} DisjointWindow(log: seq<Line>, s: nat, e: nat, s': nat, reference: seq<Line>)
    requires Distinct(log) && s < e <= s' < |log| && reference != [] && reference[0] == log[s']
    requires LineIndex(log[e - 1], reference) == -1
    ensures DedupAB(log[s..e], reference) == Done(Pair(log[s..e], reference))
  {
    var a := log[s..e];
    assert forall k :: 0 <= k < |a| ==> a[k] == log[s + k];
    assert LineIndex(log[s'], a) == -1;
  }

  lemma {:induction false} AbsentFromLater(log: seq<Line>, p: nat, s': nat, e': nat, tail: seq<Line>)
    requires Distinct(log) && p < s' < e' <= |log|
    requires forall k :: 0 <= k < |tail| ==> OccursFrom(log, e', tail[k])
    ensures LineIndex(log[p], log[s'..e'] + tail) == -1
  {
    var reference := log[s'..e'] + tail;
    forall k | 0 <= k < |reference|
      ensures reference[k].full != log[p].full
    {
      if k < e' - s' {
        assert reference[k] == log[s' + k];
      } else {
        assert OccursFrom(log, e', tail[k - (e' - s')]);
        var i: nat :| e' <= i < |log| && log[i] == reference[k];
      }
    }
  }

  // ---- The whole fold

  ghost predicate Ascending(ws: seq<Window>) {
    forall i, j :: 0 <= i < j < |ws| ==> ws[i].from <= ws[j].from && ws[i].to <= ws[j].to
  }

  ghost predicate AllValid(log: seq<Line>, ws: seq<Window>) {
    forall i :: 0 <= i < |ws| ==> ValidWindow(log, ws[i])
  }

  ghost function From(ws: seq<Window>, k: nat): set<Window> {
    set i | k <= i < |ws| :: ws[i]
  }

  lemma {:induction false} CoveredFrom(ws: seq<Window>, k: nat, i: nat)
    requires k < |ws|
    ensures Covered(From(ws, k), i) <==> ws[k].from <= i < ws[k].to || Covered(From(ws, k + 1), i)
  {
    if ws[k].from <= i < ws[k].to {
      assert ws[k] in From(ws, k);
    }
    if Covered(From(ws, k + 1), i) {
      var w :| w in From(ws, k + 1) && w.from <= i < w.to;
      assert w in From(ws, k);
    }
  }

  lemma {:induction false} NotCoveredBefore(ws: seq<Window>, k: nat, i: nat)
    requires Ascending(ws) && k < |ws| && i < ws[k].from
    ensures !Covered(From(ws, k), i)
  {
  }

  /** Adding the window before: its lines up to the next window, then all the others. */
  lemma {:induction false} PickStep(log: seq<Line>, ws: seq<Window>, k: nat, hi: nat)
    requires AllValid(log, ws) && Ascending(ws) && k + 1 < |ws|
    requires ws[k + 1].from <= hi <= |log|
    ensures
      Pick(log, From(ws, k), ws[k].from, hi) ==
        log[ws[k].from..Min(ws[k + 1].from, ws[k].to)] + Pick(log, From(ws, k + 1), ws[k + 1].from, hi)
  {
    var (s, e, s') := (ws[k].from, ws[k].to, ws[k + 1].from);
    var mid := Min(s', e);
    forall i: nat
      ensures Covered(From(ws, k), i) <==> s <= i < e || Covered(From(ws, k + 1), i)
      ensures i < s' ==> !Covered(From(ws, k + 1), i)
      ensures s' <= i < e ==> Covered(From(ws, k + 1), i)
    {
      CoveredFrom(ws, k, i);
      if i < s' {
        NotCoveredBefore(ws, k + 1, i);
      } else if i < e {
        CoveredFrom(ws, k + 1, i);
      }
    }
    PickSplit(log, From(ws, k), s, s', hi);
    PickSplit(log, From(ws, k), s, mid, s');
    PickAll(log, From(ws, k), s, mid);
    PickNone(log, From(ws, k), mid, s');
    PickSame(log, From(ws, k), From(ws, k + 1), s', hi);
  }

  lemma {:induction false} PickStartsWithWindow(log: seq<Line>, ws: seq<Window>, k: nat)
    requires AllValid(log, ws) && k < |ws|
    ensures
      var tail := Pick(log, From(ws, k), ws[k].to, |log|);
      && Pick(log, From(ws, k), ws[k].from, |log|) == log[ws[k].from..ws[k].to] + tail
      && forall i :: 0 <= i < |tail| ==> OccursFrom(log, ws[k].to, tail[i])
  {
    forall i: nat
      ensures ws[k].from <= i < ws[k].to ==> Covered(From(ws, k), i)
    {
      CoveredFrom(ws, k, i);
    }
    PickSplit(log, From(ws, k), ws[k].from, ws[k].to, |log|);
    PickAll(log, From(ws, k), ws[k].from, ws[k].to);
    PickFrom(log, From(ws, k), ws[k].to, |log|);
    var tail := Pick(log, From(ws, k), ws[k].to, |log|);
    forall i | 0 <= i < |tail|
      ensures OccursFrom(log, ws[k].to, tail[i])
    {
      assert tail[i] in tail;
    }
  }

  ghost predicate HoldWindows(log: seq<Line>, ordered: seq<LineSlice>, ws: seq<Window>) {
    && |ordered| == |ws|
    && AllValid(log, ws)
    && forall i :: 0 <= i < |ws| ==> ordered[i] == SliceOf(log, ws[i])
  }

  /** The window before the reference loses what the reference repeats; both stay in log order. */
  lemma {:induction false} DedupNextWindow(log: seq<Line>, ws: seq<Window>, k: nat, reference: seq<Line>) returns (a: seq<Line>)
    requires Distinct(log) && AllValid(log, ws) && Ascending(ws) && k + 1 < |ws|
    requires reference == Pick(log, From(ws, k + 1), ws[k + 1].from, |log|)
    ensures DedupAB(log[ws[k].from..ws[k].to], reference) == Done(Pair(a, reference))
    ensures a + reference == Pick(log, From(ws, k), ws[k].from, |log|)
    ensures a + Pick(log, From(ws, k + 1), ws[k + 1].from, ws[|ws| - 1].from)
              == Pick(log, From(ws, k), ws[k].from, ws[|ws| - 1].from)
  {
    var (w, next) := (ws[k], ws[k + 1]);
    a := log[w.from..Min(next.from, w.to)];
    PickStartsWithWindow(log, ws, k + 1);
    DedupWindow(log, w.from, w.to, next.from, next.to, Pick(log, From(ws, k + 1), next.to, |log|));
    PickStep(log, ws, k, ws[|ws| - 1].from);
    PickStep(log, ws, k, |log|);
  }

  /** One step of the fold in which the reference needs no repair. */
  ghost predicate PlainStep(slice: LineSlice, res: seq<Line>, reference: seq<Line>,
      nextRes: seq<Line>, nextReference: seq<Line>)
  {
    exists a :: DedupAB(slice.lines, reference) == Done(Pair(a, reference))
                && nextRes == a + res && nextReference == a + reference
  }

  lemma {:induction false} FoldBackStep(ordered: seq<LineSlice>, k: nat, res: seq<Line>, reference: seq<Line>,
      nextRes: seq<Line>, nextReference: seq<Line>)
    requires 0 < k <= |ordered|
    requires PlainStep(ordered[k - 1], res, reference, nextRes, nextReference)
    ensures FoldBack(ordered, k, res, reference) == FoldBack(ordered, k - 1, nextRes, nextReference)
  {
  }

  lemma {:induction false} FoldBackSteps(ordered: seq<LineSlice>, k: nat, res: seq<seq<Line>>, reference: seq<seq<Line>>)
    requires k < |res| == |reference| <= |ordered|
    requires forall i :: 0 <= i < k ==> PlainStep(ordered[i], res[i + 1], reference[i + 1], res[i], reference[i])
    ensures FoldBack(ordered, k, res[k], reference[k]) == Done(res[0])
    decreases k
  {
    if k > 0 {
      FoldBackStep(ordered, k, res[k], reference[k], res[k - 1], reference[k - 1]);
      FoldBackSteps(ordered, k - 1, res, reference);
    }
  }

  lemma {:induction false} PlainWindowStep(log: seq<Line>, slice: LineSlice, ws: seq<Window>, k: nat)
    requires Distinct(log) && AllValid(log, ws) && Ascending(ws) && k + 1 < |ws|
    requires slice == SliceOf(log, ws[k])
    ensures PlainStep(slice, ResAt(log, ws, k + 1), ReferenceAt(log, ws, k + 1), ResAt(log, ws, k), ReferenceAt(log, ws, k))
  {
    var a := DedupNextWindow(log, ws, k, ReferenceAt(log, ws, k + 1));
  }

  /** The covered lines from window k on, before the last window and altogether. */
  ghost function ResAt(log: seq<Line>, ws: seq<Window>, k: nat): seq<Line>
    requires AllValid(log, ws) && Ascending(ws) && k < |ws|
  {
    Pick(log, From(ws, k), ws[k].from, ws[|ws| - 1].from)
  }

  ghost function ReferenceAt(log: seq<Line>, ws: seq<Window>, k: nat): seq<Line>
    requires AllValid(log, ws) && k < |ws|
  {
    Pick(log, From(ws, k), ws[k].from, |log|)
  }

  lemma {:induction false} StatesOverWindows(log: seq<Line>, ws: seq<Window>)
    returns (res: seq<seq<Line>>, reference: seq<seq<Line>>)
    requires AllValid(log, ws) && Ascending(ws)
    ensures |res| == |reference| == |ws|
    ensures forall i :: 0 <= i < |ws| ==> res[i] == ResAt(log, ws, i) && reference[i] == ReferenceAt(log, ws, i)
  {
    res := seq(|ws|, i requires 0 <= i < |ws| => ResAt(log, ws, i));
    reference := seq(|ws|, i requires 0 <= i < |ws| => ReferenceAt(log, ws, i));
  }

  lemma {:induction false} FoldBackOverWindows(log: seq<Line>, ordered: seq<LineSlice>, ws: seq<Window>, k: nat)
    requires Distinct(log) && HoldWindows(log, ordered, ws) && Ascending(ws) && k < |ws|
    ensures FoldBack(ordered, k, ResAt(log, ws, k), ReferenceAt(log, ws, k)) == Done(ResAt(log, ws, 0))
  {
    var res, reference := StatesOverWindows(log, ws);
    forall i | 0 <= i < k
      ensures PlainStep(ordered[i], res[i + 1], reference[i + 1], res[i], reference[i])
    {
      PlainWindowStep(log, ordered[i], ws, i);
    }
    FoldBackSteps(ordered, k, res, reference);
  }

  lemma {:induction false} LastWindow(log: seq<Line>, ws: seq<Window>)
    requires AllValid(log, ws) && ws != []
    ensures
      var last := ws[|ws| - 1];
      Pick(log, From(ws, |ws| - 1), last.from, |log|) == log[last.from..last.to]
  {
    var n := |ws| - 1;
    var last := ws[n];
    assert From(ws, n + 1) == {};
    forall i: nat
      ensures Covered(From(ws, n), i) <==> last.from <= i < last.to
    {
      CoveredFrom(ws, n, i);
    }
    PickSplit(log, From(ws, n), last.from, last.to, |log|);
    PickAll(log, From(ws, n), last.from, last.to);
    PickNone(log, From(ws, n), last.to, |log|);
  }

  lemma {:induction false} DedupOrderedWindows(log: seq<Line>, ordered: seq<LineSlice>, ws: seq<Window>)
    requires Distinct(log) && HoldWindows(log, ordered, ws) && Ascending(ws) && ws != []
    ensures DedupOrdered(ordered).Done?
    ensures
      var (r, last) := DedupOrdered(ordered).value;
      && last == SliceOf(log, ws[|ws| - 1])
      && r.lines == Pick(log, From(ws, 0), ws[0].from, ws[|ws| - 1].from)
  {
    var n := |ws|;
    if n > 1 {
      LastWindow(log, ws);
      var lastLines := Pick(log, From(ws, n - 1), ws[n - 1].from, |log|);
      var a := DedupNextWindow(log, ws, n - 2, lastLines);
      assert ordered[n - 2] == SliceOf(log, ws[n - 2]) && ordered[n - 1] == SliceOf(log, ws[n - 1]);
      assert a + [] == a;
      FoldBackOverWindows(log, ordered, ws, n - 2);
      DedupOrderedStep(ordered, a);
    }
  }

  lemma {:induction false} DedupOrderedStep(ordered: seq<LineSlice>, a: seq<Line>)
    requires |ordered| > 1
    requires
      var lastLines := ordered[|ordered| - 1].lines;
      && DedupAB(ordered[|ordered| - 2].lines, lastLines) == Done(Pair(a, lastLines))
      && FoldBack(ordered, |ordered| - 2, a, a + lastLines).Done?
    ensures
      var (lastButOne, last) := (ordered[|ordered| - 2], ordered[|ordered| - 1]);
      DedupOrdered(ordered) == Done((
        MakeSliceFromLines(FoldBack(ordered, |ordered| - 2, a, a + last.lines).value, lastButOne.generation),
        MakeSliceFromLines(last.lines, last.generation)))
  {
  }

  lemma {:induction false} DedupLogWindows(log: seq<Line>, ordered: seq<LineSlice>, ws: seq<Window>)
    requires IsLog(log) && HoldWindows(log, ordered, ws) && Ascending(ws) && ws != []
    ensures DedupOrdered(ordered).Done?
    ensures
      var (r, last) := DedupOrdered(ordered).value;
      && last == SliceOf(log, ws[|ws| - 1])
      && r.lines == Pick(log, From(ws, 0), ws[0].from, ws[|ws| - 1].from)
  {
    LogIsDistinct(log);
    DedupOrderedWindows(log, ordered, ws);
  }

  // ---- Whatever the order in which the slices arrive

  ghost function SlicesOf(log: seq<Line>, ws: seq<Window>): (slices: seq<LineSlice>)
    requires AllValid(log, ws)
    ensures |slices| == |ws| && forall i :: 0 <= i < |ws| ==> slices[i] == SliceOf(log, ws[i])
  {
    if ws == [] then [] else [SliceOf(log, ws[0])] + SlicesOf(log, ws[1..])
  }

  lemma {:induction false} SliceDeterminesWindow(log: seq<Line>, v: Window, w: Window)
    requires IsLog(log) && ValidWindow(log, v) && ValidWindow(log, w)
    requires SliceOf(log, v) == SliceOf(log, w)
    ensures v == w
  {
    assert log[v.from..v.to][0] == log[v.from] && log[w.from..w.to][0] == log[w.from];
    LogIsDistinct(log);
    DistinctAt(log, v.from, w.from);
  }

  /** The windows, in the order of their sorted slices. */
  lemma {:induction false} Arrange(log: seq<Line>, ws: seq<Window>, ordered: seq<LineSlice>) returns (vs: seq<Window>)
    requires IsLog(log) && AllValid(log, ws) && multiset(ordered) == multiset(SlicesOf(log, ws))
    ensures HoldWindows(log, ordered, vs)
    ensures forall w :: w in vs <==> w in ws
  {
    forall i | 0 <= i < |ordered|
      ensures HasSlice(log, ws, ordered[i])
    {
      var j := SameElement(ordered, SlicesOf(log, ws), i);
    }
    vs := WindowsFor(log, ws, ordered);
    forall j | 0 <= j < |ws|
      ensures ws[j] in vs
    {
      var i := SameElement(SlicesOf(log, ws), ordered, j);
      SliceDeterminesWindow(log, vs[i], ws[j]);
    }
  }

  lemma {:induction false} SameElement(s: seq<LineSlice>, t: seq<LineSlice>, i: nat) returns (j: nat)
    requires multiset(s) == multiset(t) && i < |s|
    ensures j < |t| && t[j] == s[i]
  {
    assert s[i] in multiset(t);
    j :| 0 <= j < |t| && t[j] == s[i];
  }

  ghost predicate HasSlice(log: seq<Line>, ws: seq<Window>, slice: LineSlice)
    requires AllValid(log, ws)
  {
    exists j :: 0 <= j < |ws| && SliceOf(log, ws[j]) == slice
  }

  ghost function WindowFor(log: seq<Line>, ws: seq<Window>, slice: LineSlice): (w: Window)
    requires AllValid(log, ws) && HasSlice(log, ws, slice)
    ensures w in ws && SliceOf(log, w) == slice
  {
    var j :| 0 <= j < |ws| && SliceOf(log, ws[j]) == slice;
    ws[j]
  }

  ghost function WindowsFor(log: seq<Line>, ws: seq<Window>, ordered: seq<LineSlice>): (vs: seq<Window>)
    requires AllValid(log, ws)
    requires forall i :: 0 <= i < |ordered| ==> HasSlice(log, ws, ordered[i])
    ensures |vs| == |ordered|
    ensures forall i :: 0 <= i < |vs| ==> vs[i] in ws && SliceOf(log, vs[i]) == ordered[i]
  {
    seq(|ordered|, i requires 0 <= i < |ordered| => WindowFor(log, ws, ordered[i]))
  }

  ghost function AsSet(ws: seq<Window>): set<Window> {
    set w | w in ws
  }

  /** A window that starts earlier does not end later. */
  ghost predicate EndsDoNotDecrease(ws: set<Window>) {
    forall v, w {:trigger v in ws, w in ws} :: v in ws && w in ws && v.from < w.from ==> v.to <= w.to
  }

  lemma {:induction false} SortedIsAscending(log: seq<Line>, ordered: seq<LineSlice>, vs: seq<Window>)
    requires IsLog(log) && HoldWindows(log, ordered, vs) && TimeOrdered(ordered)
    requires EndsDoNotDecrease(AsSet(vs))
    ensures Ascending(vs)
  {
    forall i, j | 0 <= i < j < |vs|
      ensures vs[i].from <= vs[j].from && vs[i].to <= vs[j].to
    {
      SortedPair(log, vs[i], vs[j]);
      assert !Earlier(ordered[j], ordered[i]);
      assert vs[i] in AsSet(vs) && vs[j] in AsSet(vs);
    }
  }

  lemma {:induction false} SortedPair(log: seq<Line>, v: Window, w: Window)
    requires IsLog(log) && ValidWindow(log, v) && ValidWindow(log, w)
    requires !Earlier(SliceOf(log, w), SliceOf(log, v))
    ensures v.from < w.from || (v.from == w.from && v.to <= w.to)
  {
    var (s, t) := (SliceOf(log, v), SliceOf(log, w));
    assert s.lines[0] == log[v.from] && t.lines[0] == log[w.from];
    assert s.lines[|s.lines| - 1] == log[v.to - 1] && t.lines[|t.lines| - 1] == log[w.to - 1];
    TimesInOrder(log, v.from, w.from);
    TimesInOrder(log, w.from, v.from);
    TimesInOrder(log, w.to - 1, v.to - 1);
  }

  /** Any windows of one log, in any order of arrival, as long as a window that starts earlier
      does not end later: the fold returns the last window whole, and before it every other
      covered line once and in log order. */
  lemma {:induction false} FoldOfWindows(log: seq<Line>, ws: seq<Window>, ordered: seq<LineSlice>) returns (last: Window)
    requires IsLog(log) && AllValid(log, ws) && ws != [] && EndsDoNotDecrease(AsSet(ws))
    requires IsSorting(SlicesOf(log, ws), ordered)
    ensures last in ws && forall w :: w in ws ==> w.from <= last.from && w.to <= last.to
    ensures DedupOrdered(ordered).Done?
    ensures
      var (r, l) := DedupOrdered(ordered).value;
      && l == SliceOf(log, last)
      && r.lines == Pick(log, AsSet(ws), 0, last.from)
      && r.lines + l.lines == Pick(log, AsSet(ws), 0, |log|)
  {
    var vs := Arrange(log, ws, ordered);
    assert AsSet(vs) == AsSet(ws);
    SortedIsAscending(log, ordered, vs);
    DedupSlicesNonEmpty(log, ws, ordered);
    last := FoldOfArranged(log, ordered, vs);
    assert forall w :: w in ws ==> w in vs;
  }

  lemma {:induction false} FoldOfArranged(log: seq<Line>, ordered: seq<LineSlice>, vs: seq<Window>) returns (last: Window)
    requires IsLog(log) && HoldWindows(log, ordered, vs) && Ascending(vs) && vs != []
    ensures last in vs && forall w :: w in vs ==> w.from <= last.from && w.to <= last.to
    ensures last.from <= last.to <= |log| && DedupOrdered(ordered).Done?
    ensures
      var (r, l) := DedupOrdered(ordered).value;
      && l == SliceOf(log, last)
      && r.lines == Pick(log, AsSet(vs), 0, last.from)
      && r.lines + l.lines == Pick(log, AsSet(vs), 0, |log|)
  {
    last := vs[|vs| - 1];
    LastOfAscending(vs);
    DedupLogWindows(log, ordered, vs);
    assert SliceOf(log, last).lines == log[last.from..last.to];
    FromFirst(log, vs);
  }

  lemma {:induction false} LastOfAscending(vs: seq<Window>)
    requires Ascending(vs) && vs != []
    ensures forall w :: w in vs ==> w.from <= vs[|vs| - 1].from && w.to <= vs[|vs| - 1].to
  {
  }

  lemma {:induction false} DedupSlicesNonEmpty(log: seq<Line>, ws: seq<Window>, ordered: seq<LineSlice>)
    requires AllValid(log, ws) && ws != [] && IsSorting(SlicesOf(log, ws), ordered)
    ensures ordered != []
  {
    SameLength(ordered, SlicesOf(log, ws));
  }

  /** Nothing is covered before the first window, and the last window closes the log. */
  lemma {:induction false} FromFirst(log: seq<Line>, vs: seq<Window>)
    requires AllValid(log, vs) && Ascending(vs) && vs != []
    ensures
      var last := vs[|vs| - 1];
      && Pick(log, From(vs, 0), vs[0].from, last.from) == Pick(log, AsSet(vs), 0, last.from)
      && Pick(log, AsSet(vs), 0, last.from) + log[last.from..last.to] == Pick(log, AsSet(vs), 0, |log|)
  {
    var last := vs[|vs| - 1];
    assert From(vs, 0) == AsSet(vs);
    forall i: nat
      ensures i < vs[0].from ==> !Covered(AsSet(vs), i)
      ensures last.from <= i < last.to ==> Covered(AsSet(vs), i)
      ensures last.to <= i ==> !Covered(AsSet(vs), i)
    {
      assert last in AsSet(vs);
    }
    PickSplit(log, AsSet(vs), 0, vs[0].from, last.from);
    PickNone(log, AsSet(vs), 0, vs[0].from);
    PickSplit(log, AsSet(vs), 0, last.from, |log|);
    PickSplit(log, AsSet(vs), last.from, last.to, |log|);
    PickAll(log, AsSet(vs), last.from, last.to);
    PickNone(log, AsSet(vs), last.to, |log|);
  }
}
