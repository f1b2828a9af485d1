/** The time of the last poll and its generation, which label the slices of log lines
    (collection_tools/pkg/loglines/lines.go, collection_tools/pkg/collectors/log_follower.go). */
module LastPoll {
  import opened LogLines
  import opened LogGenerations

  class GenerationalLockedTime {
    var time: int
    var generation: uint32

    constructor (initialTime: int)
      ensures Value() == Stamped(initialTime, 0)
    {
      time, generation := initialTime, 0;
    }

    function Value(): Stamped
      reads this
    {
      Stamped(time, generation)
    }

    /** Only a later time counts, and only that starts a new generation. */
    method Update(update: int)
      modifies this
      ensures Value() == Updated(old(Value()), update)
    {
      if update > time {
        time := update;
        generation := Wrap(generation + 1);
      }
    }
  }

  datatype Stamped = Stamped(time: int, generation: uint32)

  function Updated(s: Stamped, update: int): Stamped {
    if update > s.time then Stamped(update, Wrap(s.generation + 1)) else s
  }

  /** The value after the first n updates. */
  function After(start: int, updates: seq<int>, n: nat): Stamped
    requires n <= |updates|
  {
    if n == 0 then Stamped(start, 0) else Updated(After(start, updates, n - 1), updates[n - 1])
  }

  /** The update at n comes into force: it is later than the start and than every update before. */
  ghost predicate IsRecord(start: int, updates: seq<int>, n: nat)
    requires n < |updates|
  {
    updates[n] > start && forall k :: 0 <= k < n ==> updates[n] > updates[k]
  }

  lemma {:induction false} TimeIsLatest(start: int, updates: seq<int>, n: nat)
    requires n <= |updates|
    ensures After(start, updates, n).time >= start
    ensures forall k :: 0 <= k < n ==> After(start, updates, n).time >= updates[k]
    ensures After(start, updates, n).time == start || exists k :: 0 <= k < n && After(start, updates, n).time == updates[k]
  {
    if n > 0 {
      TimeIsLatest(start, updates, n - 1);
      if After(start, updates, n).time == updates[n - 1] {
        assert 0 <= n - 1 < n;
      }
    }
  }

  lemma {:induction false} InForceIffRecord(start: int, updates: seq<int>, n: nat)
    requires n < |updates|
    ensures After(start, updates, n + 1) != After(start, updates, n) <==> IsRecord(start, updates, n)
    ensures IsRecord(start, updates, n) <==> updates[n] > After(start, updates, n).time
  {
    TimeIsLatest(start, updates, n);
  }

  lemma {:induction false} BothGrow(start: int, updates: seq<int>, i: nat, j: nat)
    requires i <= j <= |updates| < TWO_TO_THE_32
    ensures After(start, updates, j).generation <= j
    ensures After(start, updates, i).generation <= After(start, updates, j).generation
    ensures After(start, updates, i).time <= After(start, updates, j).time
    ensures After(start, updates, i).generation < After(start, updates, j).generation
            <==> After(start, updates, i).time < After(start, updates, j).time
    ensures After(start, updates, i).time < After(start, updates, j).time
            <==> exists k :: i <= k < j && IsRecord(start, updates, k)
    decreases j
  {
    if i < j {
      BothGrow(start, updates, i, j - 1);
      InForceIffRecord(start, updates, j - 1);
      if exists k :: i <= k < j - 1 && IsRecord(start, updates, k) {
        var k :| i <= k < j - 1 && IsRecord(start, updates, k);
        assert i <= k < j && IsRecord(start, updates, k);
      }
    } else if j > 0 {
      BothGrow(start, updates, j - 1, j - 1);
    }
  }

  /** A poll asks for the lines since the time it reads first, and labels them with the generation
      it reads later. The two reads lock separately. */
  datatype Poll = Poll(since: int, generation: uint32)

  function PollAt(start: int, updates: seq<int>, i: nat, j: nat): Poll
    requires i <= j <= |updates|
  {
    Poll(After(start, updates, i).time, After(start, updates, j).generation)
  }

  ghost predicate Disturbed(start: int, updates: seq<int>, i: nat, j: nat)
    requires i <= j <= |updates|
  {
    exists k :: i <= k < j && IsRecord(start, updates, k)
  }

  /** The label is the generation of the time asked for if and only if no later time came in
      between the two reads. */
  lemma {:induction false} LabelFitsIff(start: int, updates: seq<int>, i: nat, j: nat)
    requires i <= j <= |updates| < TWO_TO_THE_32
    ensures PollAt(start, updates, i, j).generation == After(start, updates, i).generation
            <==> !Disturbed(start, updates, i, j)
  {
    BothGrow(start, updates, i, j);
  }

  /** Among undisturbed polls, a label stands for one time, and later labels for later times. */
  lemma {:induction false} LabelsOrderTimes(start: int, updates: seq<int>, i: nat, j: nat, i': nat, j': nat)
    requires i <= j <= |updates| && i' <= j' <= |updates| < TWO_TO_THE_32
    requires !Disturbed(start, updates, i, j) && !Disturbed(start, updates, i', j')
    ensures
      var (p, q) := (PollAt(start, updates, i, j), PollAt(start, updates, i', j'));
      && (p.generation == q.generation <==> p.since == q.since)
      && (p.generation < q.generation <==> p.since < q.since)
  {
    LabelFitsIff(start, updates, i, j);
    LabelFitsIff(start, updates, i', j');
    if i <= i' {
      BothGrow(start, updates, i, i');
    } else {
      BothGrow(start, updates, i', i);
    }
  }

  /** A disturbed poll can share its label with a poll that asked for a later time. */
  lemma {:induction false} DisturbedPollMislabels()
    ensures PollAt(0, [5], 0, 1) == Poll(0, 1) && PollAt(0, [5], 1, 1) == Poll(5, 1)
  {
    assert After(0, [5], 0) == Stamped(0, 0);
  }
}
