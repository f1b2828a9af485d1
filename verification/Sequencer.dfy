/** Sequencing log messages from several sources (postprocess/src/vse_sync_pp/sequence.py). */
module Sequencer {

  type Id = string

  /** A log message, as its source's generator yields it. */
  datatype Item = Item(timestamp: real, id: Id)

  /** The most recent item of a source. */
  datatype Head = Head(timestamp: real, id: Id, source: nat)

  function HeadOf(item: Item, source: nat): Head {
    Head(item.timestamp, item.id, source)
  }

  // ---- The loop as a sequence of steps

  /** The heads, what each source has not yielded yet, and the heads popped so far. */
  datatype State = State(heads: seq<Head>, rest: seq<seq<Item>>, popped: seq<Head>)

  ghost predicate Sorted(heads: seq<Head>) {
    forall i, j :: 0 <= i < j < |heads| ==> heads[i].timestamp <= heads[j].timestamp
  }

  /** The position behind all heads that are not later. */
  function InsertPosition(heads: seq<Head>, timestamp: real): (idx: nat)
    ensures idx <= |heads|
    ensures forall k :: 0 <= k < idx ==> heads[k].timestamp <= timestamp
    ensures idx < |heads| ==> timestamp < heads[idx].timestamp
  {
    if heads == [] || timestamp < heads[0].timestamp then 0
    else
      var idx := 1 + InsertPosition(heads[1..], timestamp);
      assert forall k :: 1 <= k < idx ==> heads[k] == heads[1..][k - 1];
      idx
  }

  function Inserted(heads: seq<Head>, head: Head): seq<Head> {
    var idx := InsertPosition(heads, head.timestamp);
    heads[..idx] + [head] + heads[idx..]
  }

  /** Pops the first head and replaces it by the next item of its source, if there is one. */
  function Step(s: State): State
    requires s.heads != [] && s.heads[0].source < |s.rest|
  {
    var first := s.heads[0];
    var source := s.rest[first.source];
    var popped := s.popped + [first];
    if source == [] then State(s.heads[1..], s.rest, popped)
    else
      State(Inserted(s.heads[1..], HeadOf(source[0], first.source)), s.rest[first.source := source[1..]], popped)
  }

  // ---- What every state of the loop keeps

  /** The items of source q among the heads, in order. */
  ghost function Of(heads: seq<Head>, q: nat): seq<Item> {
    if heads == [] then []
    else Of(heads[..|heads| - 1], q) + ItemsIf(heads[|heads| - 1], q)
  }

  ghost function ItemsIf(head: Head, q: nat): seq<Item> {
    if head.source == q then [Item(head.timestamp, head.id)] else []
  }

  ghost predicate OneHeadEach(heads: seq<Head>) {
    forall i, j :: 0 <= i < j < |heads| ==> heads[i].source != heads[j].source
  }

  /** Every source is what was popped of it, then its head, then its rest. */
  ghost predicate Conserved(sources: seq<seq<Item>>, s: State) {
    && |s.rest| == |sources|
    && (forall i :: 0 <= i < |s.heads| ==> s.heads[i].source < |sources|)
    && (forall q :: 0 <= q < |sources| ==>
          && sources[q] == Of(s.popped, q) + Of(s.heads, q) + s.rest[q]
          && (Of(s.heads, q) == [] ==> s.rest[q] == []))
  }

  /** An earlier pop with a larger timestamp is explained by a late item of the same source. */
  ghost predicate Explained(popped: seq<Head>, limit: real, q: nat) {
    exists k :: 0 <= k < |popped| && popped[k].source == q && popped[k].timestamp >= limit
  }

  ghost predicate InversionsExplained(popped: seq<Head>, heads: seq<Head>) {
    && (forall i, j :: 0 <= i < j < |popped| && popped[i].timestamp > popped[j].timestamp ==>
          Explained(popped[..j], popped[i].timestamp, popped[j].source))
    && (forall i, j :: 0 <= i < |popped| && 0 <= j < |heads| && popped[i].timestamp > heads[j].timestamp ==>
          Explained(popped, popped[i].timestamp, heads[j].source))
  }

  ghost predicate Inv(sources: seq<seq<Item>>, s: State) {
    && Sorted(s.heads)
    && OneHeadEach(s.heads)
    && Conserved(sources, s)
    && InversionsExplained(s.popped, s.heads)
  }

  lemma {:induction false} OfConcat(s: seq<Head>, t: seq<Head>, q: nat)
    ensures Of(s + t, q) == Of(s, q) + Of(t, q)
  {
    if t == [] {
      assert s + t == s;
    } else {
      var n := |t| - 1;
      assert (s + t)[..|s + t| - 1] == s + t[..n];
      OfConcat(s, t[..n], q);
    }
  }

  lemma {:induction false} OfNone(heads: seq<Head>, q: nat)
    requires forall i :: 0 <= i < |heads| ==> heads[i].source != q
    ensures Of(heads, q) == []
  {
    if heads != [] {
      OfNone(heads[..|heads| - 1], q);
    }
  }

  lemma {:induction false} OfAround(s: seq<Head>, head: Head, t: seq<Head>, q: nat)
    ensures Of(s + [head] + t, q) == Of(s, q) + ItemsIf(head, q) + Of(t, q)
  {
    OfConcat(s + [head], t, q);
    OfConcat(s, [head], q);
    assert [head][..0] == [] && Of([head], q) == [] + ItemsIf(head, q);
  }

  /** Putting a head of another source into the heads, anywhere, or the only head of its own. */
  lemma {:induction false} OfSplit(heads: seq<Head>, idx: nat, head: Head, q: nat)
    requires idx <= |heads| && forall i :: 0 <= i < |heads| ==> heads[i].source != head.source
    ensures Of(heads[..idx] + [head] + heads[idx..], q) == if q == head.source then ItemsIf(head, q) else Of(heads, q)
  {
    var (s, t) := (heads[..idx], heads[idx..]);
    OfAround(s, head, t, q);
    OfBoth(heads, idx, q);
    if q == head.source {
      OfNone(heads, q);
      assert Of(s, q) == [] && Of(t, q) == [];
    }
  }

  lemma {:induction false} OfBoth(heads: seq<Head>, idx: nat, q: nat)
    requires idx <= |heads|
    ensures Of(heads, q) == Of(heads[..idx], q) + Of(heads[idx..], q)
  {
    OfConcat(heads[..idx], heads[idx..], q);
    assert heads == heads[..idx] + heads[idx..];
  }

  /** The new head stands behind all that are not later and before all that are, which keep their order. */
  ghost predicate InsertedBehind(heads: seq<Head>, head: Head, r: seq<Head>) {
    exists idx :: 0 <= idx <= |heads| && r == heads[..idx] + [head] + heads[idx..]
               && (forall k :: 0 <= k < |heads| ==> (k < idx <==> heads[k].timestamp <= head.timestamp))
  }

  /** Equal timestamps keep their order: the new head comes after all that are not later. */
  lemma {:induction false} InsertedIsSorted(heads: seq<Head>, head: Head)
    requires Sorted(heads)
    ensures Sorted(Inserted(heads, head))
    ensures InsertedBehind(heads, head, Inserted(heads, head))
  {
    var idx := InsertPosition(heads, head.timestamp);
    assert forall k :: idx <= k < |heads| ==> heads[idx].timestamp <= heads[k].timestamp;
    SortedAround(heads[..idx], head, heads[idx..]);
    assert Inserted(heads, head) == heads[..idx] + [head] + heads[idx..];
  }

  lemma {:induction false} SortedAround(s: seq<Head>, head: Head, t: seq<Head>)
    requires Sorted(s) && Sorted(t)
    requires forall k :: 0 <= k < |s| ==> s[k].timestamp <= head.timestamp
    requires forall k :: 0 <= k < |t| ==> head.timestamp <= t[k].timestamp
    ensures Sorted(s + [head] + t)
  {
    var r := s + [head] + t;
    assert forall k :: 0 <= k < |s| ==> r[k] == s[k];
    assert forall k :: |s| < k < |r| ==> r[k] == t[k - |s| - 1];
  }

  lemma {:induction false} OfFirst(heads: seq<Head>, q: nat)
    requires heads != []
    ensures Of(heads, q) == ItemsIf(heads[0], q) + Of(heads[1..], q)
  {
    OfAround([], heads[0], heads[1..], q);
    assert heads == [] + [heads[0]] + heads[1..];
  }

  // ---- One step keeps the invariant

  lemma {:induction false} PoppedStep(popped: seq<Head>, first: Head, q: nat)
    ensures Of(popped + [first], q) == Of(popped, q) + ItemsIf(first, q)
  {
    OfAround(popped, first, [], q);
    assert popped + [first] + [] == popped + [first];
  }

  lemma {:induction false} HeadsStep(s: State, q: nat)
    requires OneHeadEach(s.heads) && s.heads != [] && s.heads[0].source < |s.rest|
    ensures
      var (first, rest) := (s.heads[0], s.rest[s.heads[0].source]);
      && Of(s.heads, q) == (if q == first.source then ItemsIf(first, q) else Of(Step(s).heads, q))
      && (q == first.source ==> Of(Step(s).heads, q) == if rest == [] then [] else [rest[0]])
  {
    var (first, others) := (s.heads[0], s.heads[1..]);
    OfFirst(s.heads, q);
    if q == first.source {
      OfNone(others, q);
    }
    var rest := s.rest[first.source];
    if rest != [] {
      var head := HeadOf(rest[0], first.source);
      OfSplit(others, InsertPosition(others, head.timestamp), head, q);
    }
  }

  lemma {:induction false} RegroupHead(source: seq<Item>, popped: seq<Item>, first: seq<Item>, rest: seq<Item>)
    requires source == popped + first + rest
    ensures source == popped + first + [] + rest
    ensures rest != [] ==> source == popped + first + [rest[0]] + rest[1..]
  {
  }

  lemma {:induction false} SourceStep(source: seq<Item>, s: State, q: nat)
    requires OneHeadEach(s.heads) && s.heads != [] && s.heads[0].source < |s.rest| && q < |s.rest|
    requires source == Of(s.popped, q) + Of(s.heads, q) + s.rest[q]
    requires Of(s.heads, q) == [] ==> s.rest[q] == []
    ensures source == Of(Step(s).popped, q) + Of(Step(s).heads, q) + Step(s).rest[q]
    ensures Of(Step(s).heads, q) == [] ==> Step(s).rest[q] == []
  {
    var first := s.heads[0];
    PoppedStep(s.popped, first, q);
    HeadsStep(s, q);
    if q == first.source {
      RegroupHead(source, Of(s.popped, q), ItemsIf(first, q), s.rest[q]);
    } else {
      assert Of(s.popped, q) + ItemsIf(first, q) == Of(s.popped, q);
    }
  }

  lemma {:induction false} ConservedStep(sources: seq<seq<Item>>, s: State)
    requires Conserved(sources, s) && OneHeadEach(s.heads) && s.heads != []
    ensures Conserved(sources, Step(s))
  {
    InsertedSources(s);
    forall q: nat | 0 <= q < |sources|
      ensures sources[q] == Of(Step(s).popped, q) + Of(Step(s).heads, q) + Step(s).rest[q]
      ensures Of(Step(s).heads, q) == [] ==> Step(s).rest[q] == []
    {
      SourceStep(sources[q], s, q);
    }
  }

  lemma {:induction false} InsertedSources(s: State)
    requires s.heads != [] && forall i :: 0 <= i < |s.heads| ==> s.heads[i].source < |s.rest|
    ensures |Step(s).rest| == |s.rest|
    ensures forall i :: 0 <= i < |Step(s).heads| ==> Step(s).heads[i].source < |s.rest|
  {
    var others := s.heads[1..];
    assert forall i :: 0 <= i < |others| ==> others[i] == s.heads[i + 1];
    var rest := s.rest[s.heads[0].source];
    if rest != [] {
      var idx := InsertedAt(others, HeadOf(rest[0], s.heads[0].source));
    }
  }

  /** Where the inserted head and the others are. */
  lemma {:induction false} InsertedAt(heads: seq<Head>, head: Head) returns (idx: nat)
    ensures idx <= |heads| && |Inserted(heads, head)| == |heads| + 1 && Inserted(heads, head)[idx] == head
    ensures forall k :: 0 <= k < idx ==> Inserted(heads, head)[k] == heads[k]
    ensures forall k :: idx < k <= |heads| ==> Inserted(heads, head)[k] == heads[k - 1]
  {
    idx := InsertPosition(heads, head.timestamp);
  }

  lemma {:induction false} OneHeadEachStep(s: State)
    requires OneHeadEach(s.heads) && s.heads != [] && s.heads[0].source < |s.rest|
    ensures OneHeadEach(Step(s).heads)
  {
    var others := s.heads[1..];
    var rest := s.rest[s.heads[0].source];
    if rest != [] {
      var idx := InsertedAt(others, HeadOf(rest[0], s.heads[0].source));
    }
  }

  lemma {:induction false} ExplainedLater(popped: seq<Head>, first: Head, limit: real, q: nat)
    requires Explained(popped, limit, q)
    ensures Explained(popped + [first], limit, q)
  {
    var k :| 0 <= k < |popped| && popped[k].source == q && popped[k].timestamp >= limit;
    assert (popped + [first])[k] == popped[k];
  }

  /** The heads after a step are old ones, or the next of the popped source. */
  lemma {:induction false} HeadsAfterStep(s: State, j: nat)
    requires s.heads != [] && s.heads[0].source < |s.rest| && j < |Step(s).heads|
    ensures
      || (exists i :: 1 <= i < |s.heads| && Step(s).heads[j] == s.heads[i])
      || Step(s).heads[j].source == s.heads[0].source
  {
    var others := s.heads[1..];
    if s.rest[s.heads[0].source] != [] {
      var head := HeadOf(s.rest[s.heads[0].source][0], s.heads[0].source);
      var idx := InsertPosition(others, head.timestamp);
      if j < idx {
        assert Step(s).heads[j] == s.heads[j + 1];
      } else if j > idx {
        assert Step(s).heads[j] == s.heads[j];
      }
    } else {
      assert Step(s).heads[j] == s.heads[j + 1];
    }
  }

  lemma {:induction false} ExplainedHead(s: State, i: nat, j: nat)
    requires Sorted(s.heads) && InversionsExplained(s.popped, s.heads)
    requires s.heads != [] && s.heads[0].source < |s.rest|
    requires
      var s' := Step(s);
      i < |s'.popped| && j < |s'.heads| && s'.popped[i].timestamp > s'.heads[j].timestamp
    ensures Explained(Step(s).popped, Step(s).popped[i].timestamp, Step(s).heads[j].source)
  {
    var (first, popped, s') := (s.heads[0], s.popped, Step(s));
    var head := s'.heads[j];
    HeadsAfterStep(s, j);
    if h :| 1 <= h < |s.heads| && head == s.heads[h] {
      assert first.timestamp <= head.timestamp;
      ExplainedLater(popped, first, popped[i].timestamp, head.source);
    } else if s'.popped[i].timestamp <= first.timestamp {
      assert s'.popped[|popped|] == first;
    } else {
      ExplainedLater(popped, first, popped[i].timestamp, first.source);
    }
  }

  lemma {:induction false} InversionsStep(s: State)
    requires Sorted(s.heads) && InversionsExplained(s.popped, s.heads)
    requires s.heads != [] && s.heads[0].source < |s.rest|
    ensures InversionsExplained(Step(s).popped, Step(s).heads)
  {
    var s' := Step(s);
    var n := |s.popped|;
    forall i, j | 0 <= i < j < |s'.popped| && s'.popped[i].timestamp > s'.popped[j].timestamp
      ensures Explained(s'.popped[..j], s'.popped[i].timestamp, s'.popped[j].source)
    {
      assert s'.popped[..j] == s.popped[..j];
      if j == n {
        assert s.popped[..n] == s.popped;
      }
    }
    forall i, j | 0 <= i < |s'.popped| && 0 <= j < |s'.heads| && s'.popped[i].timestamp > s'.heads[j].timestamp
      ensures Explained(s'.popped, s'.popped[i].timestamp, s'.heads[j].source)
    {
      ExplainedHead(s, i, j);
    }
  }

  lemma {:induction false} InvStep(sources: seq<seq<Item>>, s: State)
    requires Inv(sources, s) && s.heads != []
    ensures Inv(sources, Step(s))
  {
    ConservedStep(sources, s);
    OneHeadEachStep(s);
    InversionsStep(s);
    SortedStep(s);
  }

  lemma {:induction false} SortedStep(s: State)
    requires Sorted(s.heads) && s.heads != [] && s.heads[0].source < |s.rest|
    ensures Sorted(Step(s).heads)
  {
    var others := s.heads[1..];
    var rest := s.rest[s.heads[0].source];
    if rest != [] {
      InsertedIsSorted(others, HeadOf(rest[0], s.heads[0].source));
    }
  }

  // ---- The program

  /** One head for each of the first n sources that has an item: its first item. */
  ghost predicate FirstHeads(sources: seq<seq<Item>>, n: nat, heads: seq<Head>)
    requires n <= |sources|
  {
    && OneHeadEach(heads)
    && (forall i :: 0 <= i < |heads| ==> IsFirstHead(sources, n, heads[i]))
    && (forall q :: 0 <= q < n && sources[q] != [] ==> HasHead(heads, q))
  }

  ghost predicate IsFirstHead(sources: seq<seq<Item>>, n: nat, head: Head)
    requires n <= |sources|
  {
    head.source < n && sources[head.source] != [] && head == HeadOf(sources[head.source][0], head.source)
  }

  ghost predicate HasHead(heads: seq<Head>, q: nat) {
    exists i :: 0 <= i < |heads| && heads[i].source == q
  }

  /** build_heads: the first head of every source, sorted by timestamp. Heads with equal
      timestamps may come in any order here. */
  ghost predicate AreFirstHeads(sources: seq<seq<Item>>, heads: seq<Head>) {
    Sorted(heads) && FirstHeads(sources, |sources|, heads)
  }

  lemma {:induction false} OneMoreHead(sources: seq<seq<Item>>, n: nat, heads: seq<Head>)
    requires n < |sources| && FirstHeads(sources, n, heads)
    ensures
      var more := if sources[n] == [] then heads else heads + [HeadOf(sources[n][0], n)];
      FirstHeads(sources, n + 1, more)
  {
    if sources[n] != [] {
      var more := heads + [HeadOf(sources[n][0], n)];
      assert more[|heads|].source == n;
      forall q | 0 <= q < n + 1 && sources[q] != []
        ensures HasHead(more, q)
      {
        if q < n {
          assert HasHead(heads, q);
          var i :| 0 <= i < |heads| && heads[i].source == q;
          assert more[i] == heads[i];
        }
      }
    }
  }

  /** The same heads in another order. */
  ghost predicate SameHeads(heads: seq<Head>, others: seq<Head>) {
    && (OneHeadEach(heads) ==> OneHeadEach(others))
    && (forall i :: 0 <= i < |others| ==> others[i] in heads)
    && (forall i :: 0 <= i < |heads| ==> heads[i] in others)
  }

  lemma {:induction false} FirstHeadsReordered(sources: seq<seq<Item>>, heads: seq<Head>, others: seq<Head>)
    requires FirstHeads(sources, |sources|, heads) && SameHeads(heads, others)
    ensures FirstHeads(sources, |sources|, others)
  {
    forall q | 0 <= q < |sources| && sources[q] != []
      ensures HasHead(others, q)
    {
      assert HasHead(heads, q);
      var i :| 0 <= i < |heads| && heads[i].source == q;
      assert heads[i] in others;
    }
  }

  function Rests(sources: seq<seq<Item>>): (rest: seq<seq<Item>>)
    ensures |rest| == |sources|
    ensures forall s :: 0 <= s < |sources| ==> rest[s] == if sources[s] == [] then [] else sources[s][1..]
  {
    if sources == [] then []
    else [if sources[0] == [] then [] else sources[0][1..]] + Rests(sources[1..])
  }

  // ---- The whole loop

  function Total(rest: seq<seq<Item>>): nat {
    if rest == [] then 0 else |rest[0]| + Total(rest[1..])
  }

  predicate HeadsHaveSources(s: State) {
    forall i :: 0 <= i < |s.heads| ==> s.heads[i].source < |s.rest|
  }

  lemma {:induction false} TotalDrops(rest: seq<seq<Item>>, q: nat)
    requires q < |rest| && rest[q] != []
    ensures Total(rest[q := rest[q][1..]]) == Total(rest) - 1
    decreases q
  {
    if q > 0 {
      TotalDrops(rest[1..], q - 1);
      assert rest[q := rest[q][1..]][1..] == rest[1..][q - 1 := rest[1..][q - 1][1..]];
    } else {
      assert rest[0 := rest[0][1..]][1..] == rest[1..];
    }
  }

  /** Each step takes one of the remaining items. */
  lemma {:induction false} StepTakesOne(s: State)
    requires s.heads != [] && HeadsHaveSources(s)
    ensures HeadsHaveSources(Step(s))
    ensures |Step(s).heads| + Total(Step(s).rest) == |s.heads| + Total(s.rest) - 1
  {
    InsertedSources(s);
    if s.rest[s.heads[0].source] != [] {
      TotalDrops(s.rest, s.heads[0].source);
    }
  }

  function Run(s: State): State
    requires HeadsHaveSources(s)
    decreases |s.heads| + Total(s.rest)
  {
    if s.heads == [] then s
    else
      StepTakesOne(s);
      Run(Step(s))
  }

  lemma {:induction false} RunKeeps(sources: seq<seq<Item>>, s: State)
    requires HeadsHaveSources(s) && Inv(sources, s)
    ensures Inv(sources, Run(s)) && Run(s).heads == []
    decreases |s.heads| + Total(s.rest)
  {
    if s.heads != [] {
      StepTakesOne(s);
      InvStep(sources, s);
      RunKeeps(sources, Step(s));
    }
  }

  function Start(sources: seq<seq<Item>>, heads: seq<Head>): State {
    State(heads, Rests(sources), [])
  }

  lemma {:induction false} StartSource(source: seq<Item>, heads: seq<Head>, q: nat)
    requires OneHeadEach(heads)
    requires forall i :: 0 <= i < |heads| && heads[i].source == q ==> source != [] && heads[i] == HeadOf(source[0], q)
    requires source != [] ==> HasHead(heads, q)
    ensures Of(heads, q) == if source == [] then [] else [source[0]]
  {
    if source == [] {
      OfNone(heads, q);
    } else {
      var i :| 0 <= i < |heads| && heads[i].source == q;
      OfOne(heads, i);
    }
  }

  lemma {:induction false} OfOne(heads: seq<Head>, i: nat)
    requires OneHeadEach(heads) && i < |heads|
    ensures Of(heads, heads[i].source) == ItemsIf(heads[i], heads[i].source)
  {
    var q := heads[i].source;
    OfAround(heads[..i], heads[i], heads[i + 1..], q);
    OfNone(heads[..i], q);
    OfNone(heads[i + 1..], q);
    assert heads == heads[..i] + [heads[i]] + heads[i + 1..];
  }

  lemma {:induction false} InvStart(sources: seq<seq<Item>>, heads: seq<Head>)
    requires AreFirstHeads(sources, heads)
    ensures HeadsHaveSources(Start(sources, heads)) && Inv(sources, Start(sources, heads))
  {
    ConservedStart(sources, heads);
  }

  lemma {:induction false} ConservedStart(sources: seq<seq<Item>>, heads: seq<Head>)
    requires AreFirstHeads(sources, heads)
    ensures Conserved(sources, Start(sources, heads))
  {
    var s := Start(sources, heads);
    forall q: nat | 0 <= q < |sources|
      ensures sources[q] == Of(s.popped, q) + Of(s.heads, q) + s.rest[q]
      ensures Of(s.heads, q) == [] ==> s.rest[q] == []
    {
      HeadOfSource(sources, heads, q);
      HeadAndRest(sources[q], Of(heads, q), s.rest[q]);
      assert s.popped == [] && Of(s.popped, q) == [];
    }
  }

  lemma {:induction false} HeadAndRest(source: seq<Item>, head: seq<Item>, rest: seq<Item>)
    requires if source == [] then head == rest == [] else head == [source[0]] && rest == source[1..]
    ensures source == [] + head + rest
    ensures head == [] ==> rest == []
  {
  }

  lemma {:induction false} HeadOfSource(sources: seq<seq<Item>>, heads: seq<Head>, q: nat)
    requires AreFirstHeads(sources, heads) && q < |sources|
    ensures Of(heads, q) == if sources[q] == [] then [] else [sources[q][0]]
  {
    assert forall i :: 0 <= i < |heads| ==> IsFirstHead(sources, |sources|, heads[i]);
    StartSource(sources[q], heads, q);
  }

  // ---- The theorems

  /** Conservation: of every source, all items are popped, in the order of the source. */
  lemma {:induction false} EverySourceInOrder(sources: seq<seq<Item>>, heads: seq<Head>, q: nat)
    requires AreFirstHeads(sources, heads) && q < |sources|
    ensures HeadsHaveSources(Start(sources, heads))
    ensures Of(Run(Start(sources, heads)).popped, q) == sources[q]
  {
    InvStart(sources, heads);
    RunKeeps(sources, Start(sources, heads));
    assert Of([], q) == [];
  }

  /** For sources in any order: if p is popped before q with a larger timestamp, then an item
      of q's own source, popped before q, has a timestamp not below that of p. */
  lemma {:induction false} InversionsAreInherited(sources: seq<seq<Item>>, heads: seq<Head>, i: nat, j: nat)
    requires AreFirstHeads(sources, heads)
    ensures HeadsHaveSources(Start(sources, heads))
    ensures
      var popped := Run(Start(sources, heads)).popped;
      i < j < |popped| && popped[i].timestamp > popped[j].timestamp ==>
        Explained(popped[..j], popped[i].timestamp, popped[j].source)
  {
    InvStart(sources, heads);
    RunKeeps(sources, Start(sources, heads));
  }

  ghost predicate NonDecreasing(items: seq<Item>) {
    forall i, j :: 0 <= i < j < |items| ==> items[i].timestamp <= items[j].timestamp
  }

  /** Two pops of one source are two items of it, in the same order. */
  lemma {:induction false} PopsOfSource(popped: seq<Head>, k: nat, j: nat) returns (a: nat, b: nat)
    requires k < j < |popped| && popped[k].source == popped[j].source
    ensures
      var items := Of(popped, popped[j].source);
      a < b < |items| && items[a].timestamp == popped[k].timestamp && items[b].timestamp == popped[j].timestamp
  {
    var q := popped[j].source;
    b := PopOfSource(popped, j);
    a := PopOfSource(popped[..j], k);
    OfPrefix(popped, j, q);
  }

  lemma {:induction false} OfPrefix(popped: seq<Head>, j: nat, q: nat)
    requires j <= |popped|
    ensures Of(popped[..j], q) <= Of(popped, q)
  {
    OfConcat(popped[..j], popped[j..], q);
    assert popped == popped[..j] + popped[j..];
  }

  lemma {:induction false} PopOfSource(popped: seq<Head>, j: nat) returns (b: nat)
    requires j < |popped|
    ensures
      var items := Of(popped, popped[j].source);
      b == |Of(popped[..j], popped[j].source)| < |items| && items[b].timestamp == popped[j].timestamp
  {
    var q := popped[j].source;
    OfAround(popped[..j], popped[j], popped[j + 1..], q);
    assert popped == popped[..j] + [popped[j]] + popped[j + 1..];
    b := |Of(popped[..j], q)|;
  }

  /** Every item of a source is a pop of that source, in the same order. */
  lemma {:induction false} ItemsArePops(popped: seq<Head>, q: nat)
    requires Sorted(popped)
    ensures NonDecreasing(Of(popped, q))
    ensures forall i :: 0 <= i < |Of(popped, q)| ==>
              popped != [] && Of(popped, q)[i].timestamp <= popped[|popped| - 1].timestamp
  {
    if popped != [] {
      ItemsArePops(popped[..|popped| - 1], q);
    }
  }

  /** The popped order is sorted by time exactly when every source is. */
  lemma {:induction false} SortedIffSourcesAre(sources: seq<seq<Item>>, heads: seq<Head>)
    requires AreFirstHeads(sources, heads)
    ensures HeadsHaveSources(Start(sources, heads))
    ensures Sorted(Run(Start(sources, heads)).popped) <==> forall q :: 0 <= q < |sources| ==> NonDecreasing(sources[q])
  {
    InvStart(sources, heads);
    RunKeeps(sources, Start(sources, heads));
    var popped := Run(Start(sources, heads)).popped;
    if Sorted(popped) {
      forall q | 0 <= q < |sources|
        ensures NonDecreasing(sources[q])
      {
        EverySourceInOrder(sources, heads, q);
        ItemsArePops(popped, q);
      }
    } else {
      var i, j :| 0 <= i < j < |popped| && popped[i].timestamp > popped[j].timestamp;
      InversionsAreInherited(sources, heads, i, j);
      var k :| 0 <= k < |popped[..j]| && popped[..j][k].source == popped[j].source
               && popped[..j][k].timestamp >= popped[i].timestamp;
      var a, b := PopsOfSource(popped, k, j);
      PoppedHaveSources(Start(sources, heads));
      EverySourceInOrder(sources, heads, popped[j].source);
      assert !NonDecreasing(sources[popped[j].source]);
    }
  }

  lemma {:induction false} PoppedHaveSources(s: State)
    requires HeadsHaveSources(s) && forall i :: 0 <= i < |s.popped| ==> s.popped[i].source < |s.rest|
    ensures |Run(s).rest| == |s.rest|
    ensures forall i :: 0 <= i < |Run(s).popped| ==> Run(s).popped[i].source < |s.rest|
    decreases |s.heads| + Total(s.rest)
  {
    if s.heads != [] {
      StepTakesOne(s);
      PoppedHaveSources(Step(s));
    }
  }

  // ---- Equal timestamps

  /** The states after n steps. */
  ghost function After(s: State, n: nat): State
    requires HeadsHaveSources(s)
    decreases n
    ensures HeadsHaveSources(After(s, n))
  {
    if n == 0 || s.heads == [] then s
    else
      StepTakesOne(s);
      After(Step(s), n - 1)
  }

  lemma {:induction false} RunAfter(s: State, n: nat)
    requires HeadsHaveSources(s)
    ensures Run(After(s, n)) == Run(s)
    decreases n
  {
    if n > 0 && s.heads != [] {
      StepTakesOne(s);
      RunAfter(Step(s), n - 1);
    }
  }

  lemma {:induction false} OrderAfter(s: State, n: nat)
    requires HeadsHaveSources(s) && Sorted(s.heads) && OneHeadEach(s.heads)
    ensures Sorted(After(s, n).heads) && OneHeadEach(After(s, n).heads)
    decreases n
  {
    if n > 0 && s.heads != [] {
      StepTakesOne(s);
      SortedStep(s);
      OneHeadEachStep(s);
      OrderAfter(Step(s), n - 1);
    }
  }

  /** From position n on, the first pop of the head's source is that head, at p. */
  ghost predicate NextPop(popped: seq<Head>, n: nat, head: Head, p: nat) {
    n <= p < |popped| && popped[p] == head && forall k :: n <= k < p ==> popped[k].source != head.source
  }

  /** The old heads behind the first one keep their order in a step. */
  lemma {:induction false} StepKeepsOrder(s: State, i: nat, j: nat) returns (i': nat, j': nat)
    requires HeadsHaveSources(s) && 0 < i < j < |s.heads|
    ensures i' < j' < |Step(s).heads| && Step(s).heads[i'] == s.heads[i] && Step(s).heads[j'] == s.heads[j]
  {
    i', j' := StepKeepsHead(s, i), StepKeepsHead(s, j);
  }

  /** Where an old head behind the first one is after a step. */
  ghost function StepKeepsHead(s: State, i: nat): (i': nat)
    requires HeadsHaveSources(s) && 0 < i < |s.heads|
    ensures i' < |Step(s).heads| && Step(s).heads[i'] == s.heads[i]
    ensures i' == i - 1 || i' == i
  {
    var others := s.heads[1..];
    var rest := s.rest[s.heads[0].source];
    assert others[i - 1] == s.heads[i];
    if rest == [] || i - 1 < InsertPosition(others, rest[0].timestamp) then i - 1 else i
  }

  lemma {:induction false} PopsAppend(s: State)
    requires HeadsHaveSources(s)
    ensures |Run(s).popped| >= |s.popped| && Run(s).popped[..|s.popped|] == s.popped
    decreases |s.heads| + Total(s.rest)
  {
    if s.heads != [] {
      StepTakesOne(s);
      PopsAppend(Step(s));
      assert Step(s).popped[..|s.popped|] == s.popped;
      assert Run(s).popped[..|Step(s).popped|][..|s.popped|] == Run(s).popped[..|s.popped|];
    }
  }

  lemma {:induction false} FirstIsPopped(s: State)
    requires HeadsHaveSources(s) && s.heads != []
    ensures NextPop(Run(s).popped, |s.popped|, s.heads[0], |s.popped|)
  {
    StepTakesOne(s);
    PopsAppend(Step(s));
    assert Step(s).popped[|s.popped|] == s.heads[0];
    assert Run(s).popped[..|s.popped| + 1][|s.popped|] == s.heads[0];
  }

  /** A waiting head is the next pop of its source. */
  lemma {:induction false} HeadIsPopped(s: State, j: nat) returns (p: nat)
    requires HeadsHaveSources(s) && OneHeadEach(s.heads) && j < |s.heads|
    ensures NextPop(Run(s).popped, |s.popped|, s.heads[j], p)
    ensures j > 0 ==> |s.popped| < p
    decreases |s.heads| + Total(s.rest)
  {
    FirstIsPopped(s);
    if j == 0 {
      p := |s.popped|;
    } else {
      StepTakesOne(s);
      OneHeadEachStep(s);
      p := HeadIsPopped(Step(s), StepKeepsHead(s, j));
    }
  }

  /** Heads are popped in the order in which they wait. */
  lemma {:induction false} HeadsPopInOrder(s: State, i: nat, j: nat) returns (p: nat, q: nat)
    requires HeadsHaveSources(s) && OneHeadEach(s.heads) && i < j < |s.heads|
    ensures p < q && NextPop(Run(s).popped, |s.popped|, s.heads[i], p) && NextPop(Run(s).popped, |s.popped|, s.heads[j], q)
    decreases |s.heads| + Total(s.rest)
  {
    FirstIsPopped(s);
    if i == 0 {
      p := |s.popped|;
      q := HeadIsPopped(s, j);
    } else {
      StepTakesOne(s);
      OneHeadEachStep(s);
      var i', j' := StepKeepsOrder(s, i, j);
      p, q := HeadsPopInOrder(Step(s), i', j');
    }
  }

  /** Where the next item of the first head's source is after a step, behind the head at i. */
  lemma {:induction false} NewHeadBehind(s: State, i: nat) returns (i': nat, j': nat)
    requires HeadsHaveSources(s) && 0 < i < |s.heads| && Sorted(s.heads) && s.rest[s.heads[0].source] != []
    requires s.heads[i].timestamp <= s.rest[s.heads[0].source][0].timestamp
    ensures i' < j' < |Step(s).heads| && Step(s).heads[i'] == s.heads[i]
    ensures Step(s).heads[j'] == HeadOf(s.rest[s.heads[0].source][0], s.heads[0].source)
  {
    var (others, head) := (s.heads[1..], HeadOf(s.rest[s.heads[0].source][0], s.heads[0].source));
    InsertedIsSorted(others, head);
    j' := InsertPosition(others, head.timestamp);
    i' := i - 1;
    assert others[i'] == s.heads[i];
    assert i' < j' by {
      assert forall k :: j' <= k < |others| ==> others[j'].timestamp <= others[k].timestamp;
    }
  }

  /** Whenever an item follows the one popped at step n, every head that waits then and is not later
      than it is popped before it, equal timestamps included. */
  lemma {:induction false} NotLaterComesFirst(sources: seq<seq<Item>>, heads: seq<Head>, n: nat, i: nat) returns (p: nat, q: nat)
    requires AreFirstHeads(sources, heads)
    requires HeadsHaveSources(Start(sources, heads))
    requires
      var s := After(Start(sources, heads), n);
      && 0 < i < |s.heads| && s.rest[s.heads[0].source] != []
      && s.heads[i].timestamp <= s.rest[s.heads[0].source][0].timestamp
    ensures
      var (s, popped) := (After(Start(sources, heads), n), Run(Start(sources, heads)).popped);
      var next := HeadOf(s.rest[s.heads[0].source][0], s.heads[0].source);
      && p < q
      && NextPop(popped, |s.popped| + 1, s.heads[i], p)
      && NextPop(popped, |s.popped| + 1, next, q)
  {
    RunAfter(Start(sources, heads), n);
    OrderAfter(Start(sources, heads), n);
    var s := After(Start(sources, heads), n);
    StepTakesOne(s);
    OneHeadEachStep(s);
    var i', j' := NewHeadBehind(s, i);
    p, q := HeadsPopInOrder(Step(s), i', j');
  }

  /** Two messages of one source and one of another, all at the same time: the other one comes between
      them. */
  lemma {:induction false} TiesTakeTurns(a: Id, b: Id, c: Id)
    ensures
      var (sources, heads) := ([[Item(1.0, a), Item(1.0, b)], [Item(1.0, c)]], [Head(1.0, a, 0), Head(1.0, c, 1)]);
      && AreFirstHeads(sources, heads) && HeadsHaveSources(Start(sources, heads))
      && Run(Start(sources, heads)).popped == [Head(1.0, a, 0), Head(1.0, c, 1), Head(1.0, b, 0)]
  {
    var sources, heads := [[Item(1.0, a), Item(1.0, b)], [Item(1.0, c)]], [Head(1.0, a, 0), Head(1.0, c, 1)];
    assert heads[0].source == 0 && heads[1].source == 1;
    TiedSteps(Rests(sources), heads[0], heads[1], Item(1.0, b));
  }

  lemma {:induction false} TiedSteps(rest: seq<seq<Item>>, first: Head, second: Head, next: Item)
    requires rest == [[next], []] && first.source == 0 && second.source == 1
    requires second.timestamp <= next.timestamp
    ensures HeadsHaveSources(State([first, second], rest, []))
    ensures Run(State([first, second], rest, [])).popped == [first, second, HeadOf(next, 0)]
  {
    var s := State([first, second], rest, []);
    assert forall i :: 0 <= i < |s.heads| ==> s.heads[i].source <= 1;
    var head := HeadOf(next, 0);
    var others := [second];
    assert s.heads[1..] == others && Inserted(others, head) == [second, head];
    assert rest[0] == [next] && rest[0][1..] == [] && rest[0 := rest[0][1..]] == [[], []];
    var s1 := State([second, head], [[], []], [first]);
    assert Step(s) == s1;
    TiedEnd(s1, first, second, head);
    assert Run(s) == Run(s1);
  }

  lemma {:induction false} TiedEnd(s: State, first: Head, second: Head, head: Head)
    requires s == State([second, head], [[], []], [first]) && head.source == 0 && second.source == 1
    ensures HeadsHaveSources(s) && Run(s).popped == [first, second, head]
  {
    var s2 := State([head], [[], []], [first, second]);
    assert Step(s) == s2;
    var s3 := State([], [[], []], [first, second, head]);
    assert Step(s2) == s3 && Run(s3) == s3;
    assert Run(s2) == Run(s3);
  }

  // ---- What is emitted

  /** The heads whose id is to be emitted. */
  function Emitted(popped: seq<Head>, emit: set<Id>): seq<Head> {
    if popped == [] then []
    else
      var last := popped[|popped| - 1];
      Emitted(popped[..|popped| - 1], emit) + (if last.id in emit then [last] else [])
  }

  /** Exactly the pops with an id to be emitted, as often as they were popped. */
  lemma {:induction false} EmittedExactly(popped: seq<Head>, emit: set<Id>, head: Head)
    ensures multiset(Emitted(popped, emit))[head] == if head.id in emit then multiset(popped)[head] else 0
  {
    if popped != [] {
      EmittedExactly(popped[..|popped| - 1], emit, head);
      assert popped == popped[..|popped| - 1] + [popped[|popped| - 1]];
    }
  }

  /** And in the order of the pops. */
  lemma {:induction false} EmittedInOrder(popped: seq<Head>, emit: set<Id>) returns (places: seq<nat>)
    ensures ArePlaces(popped, Emitted(popped, emit), places)
  {
    places := [];
    if popped != [] {
      var n := |popped| - 1;
      places := EmittedInOrder(popped[..n], emit);
      var emitted := Emitted(popped[..n], emit);
      PlacesStay(popped[..n], popped, emitted, places);
      if popped[n].id in emit {
        LastPlace(popped, emitted, places, n);
        places := places + [n];
      }
    }
  }

  ghost predicate ArePlaces(popped: seq<Head>, emitted: seq<Head>, places: seq<nat>) {
    && |places| == |emitted|
    && (forall i :: 0 <= i < |places| ==> places[i] < |popped| && emitted[i] == popped[places[i]])
    && (forall i, j :: 0 <= i < j < |places| ==> places[i] < places[j])
  }

  lemma {:induction false} LastPlace(popped: seq<Head>, emitted: seq<Head>, places: seq<nat>, n: nat)
    requires n < |popped| && ArePlaces(popped, emitted, places) && forall i :: 0 <= i < |places| ==> places[i] < n
    ensures ArePlaces(popped, emitted + [popped[n]], places + [n])
  {
  }

  lemma {:induction false} PlacesStay(start: seq<Head>, popped: seq<Head>, emitted: seq<Head>, places: seq<nat>)
    requires start <= popped && ArePlaces(start, emitted, places)
    ensures ArePlaces(popped, emitted, places) && forall i :: 0 <= i < |places| ==> places[i] < |start|
  {
  }

  lemma {:induction false} EmittedNext(popped: seq<Head>, first: Head, emit: set<Id>)
    ensures Emitted(popped + [first], emit) == if first.id in emit then Emitted(popped, emit) + [first] else Emitted(popped, emit)
  {
    assert (popped + [first])[..|popped|] == popped;
  }

  /** What is left after the first item of each of the first n sources. */
  ghost predicate RestAfter(sources: seq<seq<Item>>, n: nat, rest: seq<seq<Item>>) {
    && |rest| == |sources|
    && forall q :: 0 <= q < |rest| ==> rest[q] == if q >= n || sources[q] == [] then sources[q] else sources[q][1..]
  }

  lemma {:induction false} OneMoreRest(sources: seq<seq<Item>>, n: nat, rest: seq<seq<Item>>)
    requires n < |sources| && RestAfter(sources, n, rest)
    ensures rest[n] == sources[n]
    ensures sources[n] == [] ==> RestAfter(sources, n + 1, rest)
    ensures sources[n] != [] ==> RestAfter(sources, n + 1, rest[n := rest[n][1..]])
  {
  }

  lemma {:induction false} AllRests(sources: seq<seq<Item>>, rest: seq<seq<Item>>)
    requires RestAfter(sources, |sources|, rest)
    ensures rest == Rests(sources)
  {
  }

  /** The generators of the sources: what each one has not yielded yet. */
  class Sequencer {
    var rest: seq<seq<Item>>
    var heads: seq<Head>

    constructor (sources: seq<seq<Item>>)
      ensures rest == sources && heads == []
    {
      rest, heads := sources, [];
    }

    /** The next head of a source, or none at its end. */
    method BuildHead(source: nat) returns (found: bool, head: Head)
      requires source < |rest|
      modifies this`rest
      ensures found == (old(rest)[source] != [])
      ensures found ==> head == HeadOf(old(rest)[source][0], source) && rest == old(rest)[source := old(rest)[source][1..]]
      ensures !found ==> rest == old(rest)
    {
      found, head := rest[source] != [], Head(0.0, "", source);
      if found {
        head := HeadOf(rest[source][0], source);
        rest := rest[source := rest[source][1..]];
      }
    }

    method InsertHead(head: Head)
      modifies this`heads
      ensures heads == Inserted(old(heads), head)
    {
      var idx := 0;
      while idx < |heads|
        invariant 0 <= idx <= |heads|
        invariant forall k :: 0 <= k < idx ==> heads[k].timestamp <= head.timestamp
      {
        if head.timestamp < heads[idx].timestamp {
          break;
        }
        idx := idx + 1;
      }
      heads := heads[..idx] + [head] + heads[idx..];
    }

    method BuildHeads()
      modifies this
      ensures AreFirstHeads(old(rest), heads) && rest == Rests(old(rest))
    {
      ghost var sources := rest;
      var unsorted := [];
      var n := |rest|;
      for source := 0 to n
        invariant n == |sources| && RestAfter(sources, source, rest)
        invariant FirstHeads(sources, source, unsorted)
      {
        OneMoreHead(sources, source, unsorted);
        OneMoreRest(sources, source, rest);
        var found, head := BuildHead(source);
        if found {
          unsorted := unsorted + [head];
        }
      }
      AllRests(sources, rest);
      heads := SortHeads(unsorted);
      FirstHeadsReordered(sources, unsorted, heads);
    }

    /** The loop of main: what is emitted is what is popped, filtered by id. */
    method Sequence(emit: set<Id>) returns (out: seq<Head>)
      modifies this
      ensures exists first :: AreFirstHeads(old(rest), first) && HeadsHaveSources(Start(old(rest), first))
                              && out == Emitted(Run(Start(old(rest), first)).popped, emit)
    {
      ghost var sources := rest;
      BuildHeads();
      InvStart(sources, heads);
      ghost var start := Start(sources, heads);
      ghost var s := start;
      out := [];
      while heads != []
        invariant s.heads == heads && s.rest == rest && HeadsHaveSources(s)
        invariant Run(s) == Run(start)
        invariant out == Emitted(s.popped, emit)
        decreases |heads| + Total(rest)
      {
        StepTakesOne(s);
        var first := heads[0];
        heads := heads[1..];
        if first.id in emit {
          out := out + [first];
        }
        EmittedNext(s.popped, first, emit);
        var found, head := BuildHead(first.source);
        if found {
          InsertHead(head);
        }
        s := Step(s);
      }
    }
  }

  method SortHeads(heads: seq<Head>) returns (r: seq<Head>)
    ensures Sorted(r) && SameHeads(heads, r)
  {
    r := [];
    for i := 0 to |heads|
      invariant Sorted(r) && SameHeads(heads[..i], r)
    {
      OneMoreSorted(heads, i, r);
      r := Inserted(r, heads[i]);
    }
    assert heads[..|heads|] == heads;
  }

  lemma {:induction false} OneMoreSorted(heads: seq<Head>, i: nat, r: seq<Head>)
    requires i < |heads| && Sorted(r) && SameHeads(heads[..i], r)
    ensures Sorted(Inserted(r, heads[i])) && SameHeads(heads[..i + 1], Inserted(r, heads[i]))
  {
    InsertedIsSorted(r, heads[i]);
    InsertedSame(heads[..i], r, heads[i]);
    assert heads[..i + 1] == heads[..i] + [heads[i]];
  }

  lemma {:induction false} InsertedSame(heads: seq<Head>, r: seq<Head>, head: Head)
    requires SameHeads(heads, r)
    ensures SameHeads(heads + [head], Inserted(r, head))
  {
    InsertedHeads(r, head);
    assert forall h :: h in heads + [head] <==> h in heads || h == head;
    if OneHeadEach(heads + [head]) {
      InsertedStaysOneEach(heads, r, head);
    }
  }

  lemma {:induction false} InsertedStaysOneEach(heads: seq<Head>, r: seq<Head>, head: Head)
    requires SameHeads(heads, r) && OneHeadEach(heads + [head])
    ensures OneHeadEach(Inserted(r, head))
  {
    OneHeadEachPrefix(heads, head);
    assert forall i :: 0 <= i < |r| ==> r[i].source != head.source;
    InsertedOneEach(r, head);
  }

  lemma {:induction false} InsertedHeads(r: seq<Head>, head: Head)
    ensures forall h :: h in Inserted(r, head) <==> h in r || h == head
  {
    var inserted := Inserted(r, head);
    var idx := InsertedAt(r, head);
    forall h | h in r
      ensures h in inserted
    {
      var k :| 0 <= k < |r| && r[k] == h;
      assert inserted[if k < idx then k else k + 1] == r[k];
    }
  }

  lemma {:induction false} InsertedOneEach(r: seq<Head>, head: Head)
    requires OneHeadEach(r) && forall i :: 0 <= i < |r| ==> r[i].source != head.source
    ensures OneHeadEach(Inserted(r, head))
  {
    var idx := InsertedAt(r, head);
  }

  lemma {:induction false} OneHeadEachPrefix(heads: seq<Head>, head: Head)
    requires OneHeadEach(heads + [head])
    ensures OneHeadEach(heads)
    ensures forall h :: h in heads ==> h.source != head.source
  {
    var more := heads + [head];
    assert forall i :: 0 <= i < |heads| ==> more[i] == heads[i];
    assert more[|heads|] == head;
  }
}
