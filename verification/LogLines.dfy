/** Log lines and slices of log lines, as collected by one poll of a pod's log. */
module LogLines {

  /** A line is identified by its full text; its timestamp is parsed from that text. */
  datatype Line = Line(full: string, timestamp: int)

  const TWO_TO_THE_32 := 0x1_0000_0000

  type uint32 = x: int | 0 <= x < TWO_TO_THE_32

  /** The zero time, which an empty slice carries as its start and its end. */
  const ZERO_TIME := 0

  datatype LineSlice = LineSlice(lines: seq<Line>, start: int, end: int, generation: uint32)

  const EMPTY_SLICE := LineSlice([], ZERO_TIME, ZERO_TIME, 0)

  function MakeSliceFromLines(lines: seq<Line>, generation: uint32): LineSlice {
    if |lines| == 0 then
      LineSlice([], ZERO_TIME, ZERO_TIME, generation)
    else
      LineSlice(lines, lines[0].timestamp, lines[|lines| - 1].timestamp, generation)
  }

  // ---- Sequences of lines without repeats

  ghost function Fulls(lines: seq<Line>): set<string> {
    set line | line in lines :: line.full
  }

  ghost predicate Distinct(lines: seq<Line>) {
    forall i, j {:trigger lines[i].full, lines[j].full} ::
      0 <= i < j < |lines| ==> lines[i].full != lines[j].full
  }

  lemma {:induction false} FullsConcat(s: seq<Line>, t: seq<Line>)
    ensures Fulls(s + t) == Fulls(s) + Fulls(t)
  {
    forall f | f in Fulls(s) + Fulls(t)
      ensures f in Fulls(s + t)
    {
      if f in Fulls(s) {
        var line :| line in s && line.full == f;
        assert line in s + t;
      } else {
        var line :| line in t && line.full == f;
        assert line in s + t;
      }
    }
  }

  lemma {:induction false} DistinctConcat(s: seq<Line>, t: seq<Line>)
    ensures Distinct(s + t) <==> Distinct(s) && Distinct(t) && Fulls(s) !! Fulls(t)
  {
    var st := s + t;
    if Distinct(st) {
      forall i, j | 0 <= i < j < |s|
        ensures s[i].full != s[j].full
      {
        assert st[i] == s[i] && st[j] == s[j];
      }
      forall i, j | 0 <= i < j < |t|
        ensures t[i].full != t[j].full
      {
        assert st[|s| + i] == t[i] && st[|s| + j] == t[j];
      }
      forall i, j | 0 <= i < |s| && 0 <= j < |t|
        ensures s[i].full != t[j].full
      {
        assert st[i] == s[i] && st[|s| + j] == t[j];
      }
    }
    if Distinct(s) && Distinct(t) && Fulls(s) !! Fulls(t) {
      forall i, j | 0 <= i < j < |st|
        ensures st[i].full != st[j].full
      {
        if i < |s| <= j {
          assert st[i].full in Fulls(s) && st[j].full in Fulls(t);
        }
      }
    }
  }

  /** In a sequence without repeats, equal texts mean equal positions. */
  lemma {:induction false} DistinctAt(lines: seq<Line>, i: nat, j: nat)
    requires Distinct(lines) && i < |lines| && j < |lines|
    requires lines[i].full == lines[j].full
    ensures i == j
  {
  }
}
