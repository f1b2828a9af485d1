/** The framing of command outputs by tags, and their extraction (collection_tools/pkg/clients/command.go). */
module CommandFrames {
  import opened Outcomes

  // ---- Keys as regular expressions

  /** The characters with a meaning in regular expressions, but for the dot. */
  const SPECIAL: set<char> := {'\\', '+', '*', '?', '(', ')', '|', '[', ']', '{', '}', '^', '$'}

  /** A key whose characters stand for themselves, or are dots, which stand for any character. */
  predicate Plain(key: string) {
    forall c :: c in key ==> c !in SPECIAL
  }

  predicate Fits(pattern: string, text: string) {
    |pattern| == |text| && forall i :: 0 <= i < |text| ==> pattern[i] == '.' || pattern[i] == text[i]
  }

  // ---- The regular expression `(?s)<key>\n(.*)\n</key>` of a plain key

  /** A tag stands at p whose text fits the pattern. */
  predicate TagAt(s: string, p: int, pattern: string) {
    && 0 <= p && p + |pattern| + 2 <= |s|
    && s[p] == '<' && Fits(pattern, s[p + 1..p + 1 + |pattern|]) && s[p + 1 + |pattern|] == '>'
  }

  predicate OpenAt(s: string, p: int, key: string) {
    TagAt(s, p, key) && p + |key| + 2 < |s| && s[p + |key| + 2] == '\n'
  }

  predicate CloseAt(s: string, q: int, key: string) {
    0 <= q < |s| && s[q] == '\n' && TagAt(s, q + 1, "/" + key)
  }

  function AfterOpen(p: int, key: string): int {
    p + |key| + 3
  }

  ghost predicate Matches(s: string, key: string, p: int, q: int) {
    OpenAt(s, p, key) && CloseAt(s, q, key) && AfterOpen(p, key) <= q
  }

  function FirstOpen(s: string, key: string, from: nat): (p: int)
    requires from <= |s|
    ensures -1 <= p < |s|
    decreases |s| - from
  {
    if from == |s| then -1 else if OpenAt(s, from, key) then from else FirstOpen(s, key, from + 1)
  }

  function LastClose(s: string, key: string, to: nat): (q: int)
    requires to <= |s|
    ensures -1 <= q < |s|
  {
    if to == 0 then -1 else if CloseAt(s, to - 1, key) then to - 1 else LastClose(s, key, to - 1)
  }

  lemma {:induction false} FirstOpenIsFirst(s: string, key: string, from: nat)
    requires from <= |s|
    ensures
      var p := FirstOpen(s, key, from);
      if p == -1 then forall r :: from <= r ==> !OpenAt(s, r, key)
      else from <= p && OpenAt(s, p, key) && forall r :: from <= r < p ==> !OpenAt(s, r, key)
    decreases |s| - from
  {
    if from < |s| && !OpenAt(s, from, key) {
      FirstOpenIsFirst(s, key, from + 1);
    }
  }

  lemma {:induction false} LastCloseIsLast(s: string, key: string, to: nat)
    requires to <= |s|
    ensures
      var q := LastClose(s, key, to);
      if q == -1 then forall r :: 0 <= r < to ==> !CloseAt(s, r, key)
      else q < to && CloseAt(s, q, key) && forall r :: q < r < to ==> !CloseAt(s, r, key)
  {
    if to > 0 && !CloseAt(s, to - 1, key) {
      LastCloseIsLast(s, key, to - 1);
    }
  }

  /** The group of the match: leftmost, and greedy in between. */
  function Capture(s: string, key: string): Option<string> {
    var p, q := FirstOpen(s, key, 0), LastClose(s, key, |s|);
    if p != -1 && q != -1 && AfterOpen(p, key) <= q then Some(s[AfterOpen(p, key)..q]) else None
  }

  lemma {:induction false} CaptureIsLeftmostGreedy(s: string, key: string, p: int, q: int)
    requires Matches(s, key, p, q)
    requires forall p', q' :: Matches(s, key, p', q') ==> p <= p'
    requires forall q' :: Matches(s, key, p, q') ==> q' <= q
    ensures Capture(s, key) == Some(s[AfterOpen(p, key)..q])
  {
    var first, last := FirstOpen(s, key, 0), LastClose(s, key, |s|);
    FirstOpenIsFirst(s, key, 0);
    LastCloseIsLast(s, key, |s|);
    assert Matches(s, key, first, last);
    assert Matches(s, key, p, last);
  }

  lemma {:induction false} CaptureFailsIff(s: string, key: string)
    ensures Capture(s, key).None? <==> forall p, q :: !Matches(s, key, p, q)
  {
    var first, last := FirstOpen(s, key, 0), LastClose(s, key, |s|);
    FirstOpenIsFirst(s, key, 0);
    LastCloseIsLast(s, key, |s|);
    if Capture(s, key).Some? {
      assert Matches(s, key, first, last);
    }
  }

  // ---- Frames

  /** A command's key, and all that the command writes. */
  datatype Frame = Frame(key: string, raw: string)

  function Tag(body: string): string {
    "<" + body + ">"
  }

  /** Each tag is echoed with a newline; the command's own output may end without one. */
  function FrameText(f: Frame): string {
    Tag(f.key) + ("\n" + f.raw) + Tag("/" + f.key) + "\n"
  }

  predicate Terminated(raw: string) {
    raw != "" && raw[|raw| - 1] == '\n'
  }

  /** The output without its final newline; an output that does not end with one is not found. */
  function Expected(f: Frame): Option<string> {
    if Terminated(f.raw) then Some(f.raw[..|f.raw| - 1]) else None
  }

  function Joined(texts: seq<string>, n: nat): string
    requires n <= |texts|
  {
    if n == 0 then "" else Joined(texts, n - 1) + texts[n - 1]
  }

  /** The output of a group of commands. */
  function GroupText(frames: seq<Frame>): string {
    Joined(seq(|frames|, i requires 0 <= i < |frames| => FrameText(frames[i])), |frames|)
  }

  /** Where the text at i starts, which is where its opening tag does. */
  function OpenPos(texts: seq<string>, i: nat): nat
    requires i <= |texts|
  {
    |Joined(texts, i)|
  }

  /** Where its closing tag starts. */
  function ClosePos(frames: seq<Frame>, texts: seq<string>, i: nat): nat
    requires i < |frames| <= |texts|
  {
    OpenPos(texts, i) + CloseIn(frames[i])
  }

  predicate BracketFree(s: string) {
    '<' !in s && '>' !in s
  }

  /** Nothing in the text fits a tag of the pattern. */
  ghost predicate FreeOf(raw: string, pattern: string) {
    forall p :: !TagAt(raw, p, pattern)
  }

  /** Whatever fits a tag of the pattern is a single tag. */
  ghost predicate SingleTags(s: string, pattern: string) {
    forall p :: TagAt(s, p, pattern) ==> BracketFree(s[p + 1..p + 1 + |pattern|])
  }

  /** Distinct plain keys without brackets, outputs in which nothing fits the group's tags, and no
      text of several tags that fits one. */
  ghost predicate Proper(frames: seq<Frame>) {
    && (forall i :: 0 <= i < |frames| ==> Plain(frames[i].key) && BracketFree(frames[i].key))
    && (forall i, j :: 0 <= i < j < |frames| ==> frames[i].key != frames[j].key)
    && (forall i, j :: 0 <= i < |frames| && 0 <= j < |frames| ==>
          FreeOf(frames[i].raw, frames[j].key) && FreeOf(frames[i].raw, "/" + frames[j].key))
    && (forall i :: 0 <= i < |frames| ==>
          SingleTags(GroupText(frames), frames[i].key) && SingleTags(GroupText(frames), "/" + frames[i].key))
  }

  // ---- Where tags can stand

  /** The text `<body>` stands at p. */
  predicate TagIs(s: string, p: int, body: string) {
    && 0 <= p && p + |body| + 2 <= |s|
    && s[p] == '<' && s[p + 1..p + 1 + |body|] == body && s[p + 1 + |body|] == '>'
  }

  predicate OpenIs(s: string, p: int, key: string) {
    TagIs(s, p, key) && p + |key| + 2 < |s| && s[p + |key| + 2] == '\n'
  }

  ghost predicate WithoutTag(raw: string, body: string) {
    forall p :: !TagIs(raw, p, body)
  }

  lemma {:induction false} TagReads(s: string, p: int, body: string, pattern: string)
    requires TagIs(s, p, body) && |pattern| == |body|
    ensures TagAt(s, p, pattern) <==> Fits(pattern, body)
  {
  }

  lemma {:induction false} SameBody(s: string, p: int, b: string, c: string)
    requires TagIs(s, p, b) && TagIs(s, p, c) && BracketFree(b) && BracketFree(c)
    ensures b == c
  {
    if |b| < |c| {
      InsideTag(s, p, c, p + 1 + |b|);
    } else if |c| < |b| {
      InsideTag(s, p, b, p + 1 + |c|);
    }
  }

  /** No bracket stands strictly inside a tag. */
  lemma {:induction false} InsideTag(s: string, p: int, body: string, r: int)
    requires TagIs(s, p, body) && BracketFree(body) && p < r <= p + |body| + 1
    ensures s[r] != '<'
    ensures r <= p + |body| ==> s[r] != '>'
  {
    if r <= p + |body| {
      assert s[r] == s[p + 1..p + 1 + |body|][r - p - 1] == body[r - p - 1];
    }
  }

  /** Where in a frame its closing tag starts. */
  function CloseIn(f: Frame): nat {
    |f.key| + 3 + |f.raw|
  }

  /** A frame, by its parts: the opening tag, the output, the closing tag. */
  ghost predicate FrameIs(t: string, f: Frame) {
    && |t| == CloseIn(f) + |f.key| + 4
    && OpenIs(t, 0, f.key) && t[AfterOpen(0, f.key)..CloseIn(f)] == f.raw
    && TagIs(t, CloseIn(f), "/" + f.key) && t[|t| - 1] == '\n'
  }

  ghost predicate FramesAre(texts: seq<string>, frames: seq<Frame>) {
    |texts| == |frames| && forall i :: 0 <= i < |frames| ==> FrameIs(texts[i], frames[i])
  }

  lemma {:induction false} FrameParts(f: Frame)
    ensures FrameIs(FrameText(f), f)
  {
    TagIsTag(f.key);
    TagIsTag("/" + f.key);
    PartsJoin(f, Tag(f.key), "\n" + f.raw, Tag("/" + f.key));
  }

  lemma {:induction false} TagIsTag(body: string)
    ensures |Tag(body)| == |body| + 2 && TagIs(Tag(body), 0, body)
  {
  }

  lemma {:induction false} PartsJoin(f: Frame, open: string, middle: string, close: string)
    requires |open| == |f.key| + 2 && TagIs(open, 0, f.key)
    requires |close| == |f.key| + 3 && TagIs(close, 0, "/" + f.key)
    requires middle == "\n" + f.raw
    ensures FrameIs(open + middle + close + "\n", f)
  {
    OpenPart(open, middle, close + "\n", f);
    ClosePart(open + middle, close, f);
    assert open + middle + close + "\n" == open + middle + (close + "\n");
  }

  lemma {:induction false} OpenPart(open: string, middle: string, rest: string, f: Frame)
    requires |open| == |f.key| + 2 && TagIs(open, 0, f.key) && middle == "\n" + f.raw
    ensures
      var t := open + middle + rest;
      |t| == CloseIn(f) + |rest| && OpenIs(t, 0, f.key) && t[AfterOpen(0, f.key)..CloseIn(f)] == f.raw
  {
    TagStays(open, middle, 0, f.key);
    TagStays(open + middle, rest, 0, f.key);
    Shifted(open, middle, 1, |f.raw| + 1);
    Unshifted(open + middle, rest, |open| + 1, |open| + |f.raw| + 1);
  }

  lemma {:induction false} ClosePart(before: string, close: string, f: Frame)
    requires |before| == CloseIn(f) && TagIs(close, 0, "/" + f.key)
    ensures TagIs(before + (close + "\n"), CloseIn(f), "/" + f.key)
  {
    TagStays(close, "\n", 0, "/" + f.key);
    TagShifts(before, close + "\n", 0, "/" + f.key);
  }

  lemma {:induction false} TagStays(before: string, t: string, p: int, body: string)
    requires TagIs(before, p, body)
    ensures TagIs(before + t, p, body)
  {
    Unshifted(before, t, p + 1, p + 1 + |body|);
  }

  lemma {:induction false} TagShifts(before: string, t: string, p: int, body: string)
    requires TagIs(t, p, body)
    ensures TagIs(before + t, |before| + p, body)
  {
    Shifted(before, t, p + 1, p + 1 + |body|);
  }

  lemma {:induction false} Shifted(before: string, t: string, lo: nat, hi: nat)
    requires lo <= hi <= |t|
    ensures (before + t)[|before| + lo..|before| + hi] == t[lo..hi]
  {
  }

  lemma {:induction false} SliceOfSlice(t: string, lo: nat, hi: nat, from: nat, to: nat)
    requires lo <= hi <= |t| && from <= to <= hi - lo
    ensures t[lo..hi][from..to] == t[lo + from..lo + to]
  {
    var stretch := t[lo..hi];
    assert forall i :: from <= i < to ==> stretch[i] == t[lo + i];
    forall i | 0 <= i < to - from
      ensures stretch[from..to][i] == t[lo + from..lo + to][i]
    {
    }
  }

  lemma {:induction false} Unshifted(before: string, t: string, lo: nat, hi: nat)
    requires lo <= hi <= |before|
    ensures (before + t)[lo..hi] == before[lo..hi]
  {
  }

  /** A tag that starts in a stretch of text that is followed by a bracket ends in it. */
  lemma {:induction false} TagInStretch(t: string, lo: nat, hi: nat, p: int, body: string)
    requires lo <= p < hi < |t| && t[hi] == '<'
    requires BracketFree(body) && TagIs(t, p, body)
    ensures TagIs(t[lo..hi], p - lo, body)
  {
    if hi <= p + |body| + 1 {
      InsideTag(t, p, body, hi);
    }
    var k := p - lo + 1;
    SliceOfSlice(t, lo, hi, k, k + |body|);
  }

  /** A tag in a frame is its opening or its closing tag. */
  lemma {:induction false} TagInFrame(t: string, f: Frame, p: int, body: string)
    requires BracketFree(f.key) && BracketFree(body) && WithoutTag(f.raw, body)
    requires FrameIs(t, f) && TagIs(t, p, body)
    ensures (p == 0 && body == f.key) || (p == CloseIn(f) && body == "/" + f.key)
  {
    var (open, close) := (AfterOpen(0, f.key), CloseIn(f));
    if p == 0 {
      SameBody(t, 0, body, f.key);
    } else if p < open - 1 {
      InsideTag(t, 0, f.key, p);
    } else if open <= p < close {
      TagInStretch(t, open, close, p, body);
    } else if p == close {
      SameBody(t, close, body, "/" + f.key);
    } else if p > close && p < |t| - 1 {
      InsideTag(t, close, "/" + f.key, p);
    }
  }

  /** A frame that stands in a text with its opening tag at o. */
  ghost predicate FrameAt(s: string, f: Frame, o: nat) {
    var c := o + CloseIn(f);
    && c + |f.key| + 3 < |s| && s[c + |f.key| + 3] == '\n'
    && OpenIs(s, o, f.key) && TagIs(s, c, "/" + f.key)
    && s[AfterOpen(o, f.key)..c] == f.raw
  }

  lemma {:induction false} FrameJoins(before: string, t: string, f: Frame)
    requires FrameIs(t, f)
    ensures FrameAt(before + t, f, |before|)
  {
    var c := CloseIn(f);
    TagShifts(before, t, 0, f.key);
    TagShifts(before, t, c, "/" + f.key);
    Shifted(before, t, AfterOpen(0, f.key), c);
  }

  lemma {:induction false} FrameStays(before: string, t: string, f: Frame, o: nat)
    requires FrameAt(before, f, o)
    ensures FrameAt(before + t, f, o)
  {
    var c := o + CloseIn(f);
    TagStays(before, t, o, f.key);
    TagStays(before, t, c, "/" + f.key);
    Unshifted(before, t, AfterOpen(o, f.key), c);
  }

  /** Every frame of a group stands in the text where it should. */
  lemma {:induction false} FrameStands(frames: seq<Frame>, texts: seq<string>, n: nat, i: nat)
    requires FramesAre(texts, frames) && i < n <= |frames|
    ensures FrameAt(Joined(texts, n), frames[i], OpenPos(texts, i))
  {
    if i == n - 1 {
      FrameJoins(Joined(texts, i), texts[i], frames[i]);
    } else {
      FrameStands(frames, texts, n - 1, i);
      FrameStays(Joined(texts, n - 1), texts[n - 1], frames[i], OpenPos(texts, i));
    }
  }

  /** A tag does not reach over the start of a frame. */
  lemma {:induction false} TagUnshifts(before: string, t: string, p: int, body: string)
    requires TagIs(before + t, p, body) && BracketFree(body) && t != "" && t[0] == '<'
    ensures if p >= |before| then TagIs(t, p - |before|, body) else TagIs(before, p, body)
  {
    var m := |before|;
    if p >= m {
      Shifted(before, t, p - m + 1, p - m + 1 + |body|);
    } else {
      if m <= p + |body| + 1 {
        InsideTag(before + t, p, body, m);
      }
      Unshifted(before, t, p + 1, p + 1 + |body|);
    }
  }

  /** A tag in the text of a group is a frame's opening or closing tag. */
  lemma {:induction false} TagIsFrames(frames: seq<Frame>, texts: seq<string>, n: nat, p: int, body: string)
    returns (i: nat)
    requires FramesAre(texts, frames) && n <= |frames| && BracketFree(body) && TagIs(Joined(texts, n), p, body)
    requires forall j :: 0 <= j < n ==> BracketFree(frames[j].key) && WithoutTag(frames[j].raw, body)
    ensures i < n
    ensures (p == OpenPos(texts, i) && body == frames[i].key)
            || (p == ClosePos(frames, texts, i) && body == "/" + frames[i].key)
  {
    var (before, t) := (Joined(texts, n - 1), texts[n - 1]);
    assert FrameIs(t, frames[n - 1]);
    TagUnshifts(before, t, p, body);
    if p >= |before| {
      TagInFrame(t, frames[n - 1], p - |before|, body);
      i := n - 1;
    } else {
      i := TagIsFrames(frames, texts, n - 1, p, body);
    }
  }

  lemma {:induction false} FramesInOrder(frames: seq<Frame>, texts: seq<string>, i: nat, j: nat)
    requires FramesAre(texts, frames) && i < j <= |frames|
    ensures OpenPos(texts, i) < ClosePos(frames, texts, i)
    ensures ClosePos(frames, texts, i) + |frames[i].key| + 3 < OpenPos(texts, j)
  {
    FrameStands(frames, texts, j, i);
  }

  // ---- The tags of a group, as the commands' patterns read them

  /** The opening or the closing tag of one of the frames. */
  datatype TagRef = TagRef(frame: nat, closing: bool)

  predicate Of(frames: seq<Frame>, t: TagRef) {
    t.frame < |frames|
  }

  function Body(frames: seq<Frame>, t: TagRef): string
    requires Of(frames, t)
  {
    if t.closing then "/" + frames[t.frame].key else frames[t.frame].key
  }

  /** Whether command k takes the tag for its opening tag. */
  predicate Opens(frames: seq<Frame>, k: nat, t: TagRef)
    requires k < |frames| && Of(frames, t)
  {
    Fits(frames[k].key, Body(frames, t))
  }

  /** The first opening tag has nothing before it, and a closing tag what the output ends with. */
  predicate BehindNewline(frames: seq<Frame>, t: TagRef)
    requires Of(frames, t)
  {
    if t.closing then frames[t.frame].raw == "" || Terminated(frames[t.frame].raw) else t.frame > 0
  }

  /** Whether command k takes the tag for its closing tag. */
  predicate Closes(frames: seq<Frame>, k: nat, t: TagRef)
    requires k < |frames| && Of(frames, t)
  {
    Fits("/" + frames[k].key, Body(frames, t)) && BehindNewline(frames, t)
  }

  /** The first tag comes before the second, and more than one newline stands between them. */
  predicate Apart(frames: seq<Frame>, t: TagRef, u: TagRef)
    requires Of(frames, t) && Of(frames, u)
  {
    if t.frame == u.frame then !t.closing && u.closing && frames[t.frame].raw != ""
    else t.frame < u.frame && !(t.closing && !u.closing && u.frame == t.frame + 1)
  }

  /** Command k can take the two tags for its own two, which they are not. */
  predicate Misreads(frames: seq<Frame>, k: nat, t: TagRef, u: TagRef) {
    && k < |frames| && Of(frames, t) && Of(frames, u)
    && Opens(frames, k, t) && Closes(frames, k, u) && Apart(frames, t, u)
    && (t != TagRef(k, false) || u != TagRef(k, true))
  }

  ghost predicate Misread(frames: seq<Frame>) {
    exists k, t, u :: Misreads(frames, k, t, u)
  }

  function Place(frames: seq<Frame>, texts: seq<string>, t: TagRef): nat
    requires Of(frames, t) && |frames| == |texts|
  {
    if t.closing then ClosePos(frames, texts, t.frame) else OpenPos(texts, t.frame)
  }

  lemma {:induction false} NextOpen(frames: seq<Frame>, texts: seq<string>, i: nat)
    requires FramesAre(texts, frames) && i < |frames|
    ensures OpenPos(texts, i + 1) == ClosePos(frames, texts, i) + |frames[i].key| + 4
  {
    assert FrameIs(texts[i], frames[i]);
  }

  lemma {:induction false} ApartIff(frames: seq<Frame>, texts: seq<string>, t: TagRef, u: TagRef)
    requires FramesAre(texts, frames) && Of(frames, t) && Of(frames, u)
    ensures Apart(frames, t, u) <==> AfterTag(frames, texts, t) < Place(frames, texts, u)
  {
    if t.frame < u.frame {
      ApartLater(frames, texts, t, u);
    } else if t.frame == u.frame {
      assert AfterOpen(OpenPos(texts, t.frame), frames[t.frame].key) + |frames[t.frame].raw|
          == ClosePos(frames, texts, t.frame);
    } else {
      FramesInOrder(frames, texts, u.frame, t.frame);
    }
  }

  /** Behind the tag and its newline. */
  function AfterTag(frames: seq<Frame>, texts: seq<string>, t: TagRef): nat
    requires Of(frames, t) && |frames| == |texts|
  {
    Place(frames, texts, t) + |Body(frames, t)| + 3
  }

  lemma {:induction false} AfterTagIs(frames: seq<Frame>, texts: seq<string>, t: TagRef)
    requires FramesAre(texts, frames) && Of(frames, t)
    ensures
      if t.closing then AfterTag(frames, texts, t) == OpenPos(texts, t.frame + 1)
      else AfterTag(frames, texts, t) <= ClosePos(frames, texts, t.frame) < OpenPos(texts, t.frame + 1)
  {
    NextOpen(frames, texts, t.frame);
  }

  lemma {:induction false} PlaceBehind(frames: seq<Frame>, texts: seq<string>, u: TagRef)
    requires FramesAre(texts, frames) && Of(frames, u)
    ensures if u.closing then OpenPos(texts, u.frame) < Place(frames, texts, u) else OpenPos(texts, u.frame) == Place(frames, texts, u)
  {
  }

  lemma {:induction false} OpensAscend(frames: seq<Frame>, texts: seq<string>, i: nat, j: nat)
    requires FramesAre(texts, frames) && i <= j <= |frames|
    ensures if i == j then OpenPos(texts, i) == OpenPos(texts, j) else OpenPos(texts, i) < OpenPos(texts, j)
  {
    if i < j {
      FramesInOrder(frames, texts, i, j);
    }
  }

  lemma {:induction false} ApartLater(frames: seq<Frame>, texts: seq<string>, t: TagRef, u: TagRef)
    requires FramesAre(texts, frames) && Of(frames, t) && Of(frames, u) && t.frame < u.frame
    ensures Apart(frames, t, u) <==> AfterTag(frames, texts, t) < Place(frames, texts, u)
  {
    var (after, place) := (AfterTag(frames, texts, t), Place(frames, texts, u));
    var (next, open) := (OpenPos(texts, t.frame + 1), OpenPos(texts, u.frame));
    AfterTagIs(frames, texts, t);
    PlaceBehind(frames, texts, u);
    OpensAscend(frames, texts, t.frame + 1, u.frame);
    ApartByPlaces(frames, t, u, after, place, next, open);
  }

  lemma {:induction false} ApartByPlaces(frames: seq<Frame>, t: TagRef, u: TagRef, after: nat, place: nat, next: nat, open: nat)
    requires Of(frames, t) && Of(frames, u) && t.frame < u.frame
    requires if t.closing then after == next else after < next
    requires if u.closing then open < place else open == place
    requires if t.frame + 1 == u.frame then next == open else next < open
    ensures Apart(frames, t, u) <==> after < place
  {
  }

  /** The tags stand where they should, with a newline behind them. */
  lemma {:induction false} TagStands(frames: seq<Frame>, texts: seq<string>, t: TagRef)
    requires FramesAre(texts, frames) && Of(frames, t)
    ensures OpenIs(Joined(texts, |frames|), Place(frames, texts, t), Body(frames, t))
  {
    FrameStands(frames, texts, |frames|, t.frame);
  }

  lemma {:induction false} EndOfRaw(s: string, f: Frame, o: nat)
    requires FrameAt(s, f, o)
    ensures s[o + CloseIn(f) - 1] == if f.raw == "" then '\n' else f.raw[|f.raw| - 1]
    ensures f.raw != "" ==> s[AfterOpen(o, f.key)..o + CloseIn(f) - 1] == f.raw[..|f.raw| - 1]
  {
    var (from, to) := (AfterOpen(o, f.key), o + CloseIn(f));
    if f.raw != "" {
      assert s[from..to][|f.raw| - 1] == s[to - 1];
      SliceOfSlice(s, from, to, 0, |f.raw| - 1);
    }
  }

  lemma {:induction false} NewlineBeforeOpen(frames: seq<Frame>, texts: seq<string>, i: nat)
    requires FramesAre(texts, frames) && 0 < i < |frames|
    ensures 0 < OpenPos(texts, i) <= |Joined(texts, |frames|)|
    ensures Joined(texts, |frames|)[OpenPos(texts, i) - 1] == '\n'
  {
    FrameStands(frames, texts, |frames|, i - 1);
    NextOpen(frames, texts, i - 1);
  }

  lemma {:induction false} NewlineBeforeClose(frames: seq<Frame>, texts: seq<string>, i: nat)
    requires FramesAre(texts, frames) && i < |frames|
    ensures
      var (s, p) := (Joined(texts, |frames|), ClosePos(frames, texts, i));
      0 < p <= |s| && (s[p - 1] == '\n' <==> frames[i].raw == "" || Terminated(frames[i].raw))
  {
    FrameStands(frames, texts, |frames|, i);
    EndOfRaw(Joined(texts, |frames|), frames[i], OpenPos(texts, i));
  }

  lemma {:induction false} NewlineBefore(frames: seq<Frame>, texts: seq<string>, t: TagRef)
    requires FramesAre(texts, frames) && Of(frames, t)
    ensures
      var (s, p) := (Joined(texts, |frames|), Place(frames, texts, t));
      p <= |s| && (BehindNewline(frames, t) <==> p > 0 && s[p - 1] == '\n')
  {
    if t.closing {
      NewlineBeforeClose(frames, texts, t.frame);
    } else if t.frame > 0 {
      NewlineBeforeOpen(frames, texts, t.frame);
    }
  }

  lemma {:induction false} OpenReads(s: string, p: int, body: string, key: string)
    requires OpenIs(s, p, body) && |body| == |key|
    ensures Fits(key, body) <==> OpenAt(s, p, key)
  {
    TagReads(s, p, body, key);
  }

  lemma {:induction false} CloseReads(s: string, p: int, body: string, key: string)
    requires TagIs(s, p, body) && |body| == |key| + 1
    ensures Fits("/" + key, body) && p > 0 && s[p - 1] == '\n' <==> CloseAt(s, p - 1, key)
  {
    TagReads(s, p, body, "/" + key);
  }

  lemma {:induction false} OpensThere(frames: seq<Frame>, texts: seq<string>, k: nat, t: TagRef)
    requires FramesAre(texts, frames) && k < |frames| && Of(frames, t) && |Body(frames, t)| == |frames[k].key|
    ensures Opens(frames, k, t) <==> OpenAt(Joined(texts, |frames|), Place(frames, texts, t), frames[k].key)
  {
    TagStands(frames, texts, t);
    OpenReads(Joined(texts, |frames|), Place(frames, texts, t), Body(frames, t), frames[k].key);
  }

  lemma {:induction false} ClosesThere(frames: seq<Frame>, texts: seq<string>, k: nat, t: TagRef)
    requires FramesAre(texts, frames) && k < |frames| && Of(frames, t) && |Body(frames, t)| == |frames[k].key| + 1
    ensures Closes(frames, k, t) <==> CloseAt(Joined(texts, |frames|), Place(frames, texts, t) - 1, frames[k].key)
  {
    TagBehind(frames, texts, t, Joined(texts, |frames|), Place(frames, texts, t));
    ClosesWhere(frames, k, t, Joined(texts, |frames|), Place(frames, texts, t));
  }

  /** The tag stands at p, and has a newline before it or not. */
  ghost predicate IsTagAt(frames: seq<Frame>, t: TagRef, s: string, p: int)
    requires Of(frames, t)
  {
    TagIs(s, p, Body(frames, t)) && (BehindNewline(frames, t) <==> p > 0 && s[p - 1] == '\n')
  }

  lemma {:induction false} TagBehind(frames: seq<Frame>, texts: seq<string>, t: TagRef, s: string, p: int)
    requires FramesAre(texts, frames) && Of(frames, t) && s == Joined(texts, |frames|) && p == Place(frames, texts, t)
    ensures IsTagAt(frames, t, s, p)
  {
    TagStands(frames, texts, t);
    NewlineBefore(frames, texts, t);
  }

  lemma {:induction false} ClosesWhere(frames: seq<Frame>, k: nat, t: TagRef, s: string, p: int)
    requires k < |frames| && Of(frames, t) && |Body(frames, t)| == |frames[k].key| + 1
    requires IsTagAt(frames, t, s, p)
    ensures Closes(frames, k, t) <==> CloseAt(s, p - 1, frames[k].key)
  {
    CloseReads(s, p, Body(frames, t), frames[k].key);
  }

  /** Two tags that are read as a command's own are a match of its expression, on any outputs. */
  lemma {:induction false} ReadTagsMatch(frames: seq<Frame>, texts: seq<string>, k: nat, t: TagRef, u: TagRef)
    requires FramesAre(texts, frames) && k < |frames| && Of(frames, t) && Of(frames, u)
    requires Opens(frames, k, t) && Closes(frames, k, u) && Apart(frames, t, u)
    ensures Matches(Joined(texts, |frames|), frames[k].key, Place(frames, texts, t), Place(frames, texts, u) - 1)
  {
    OpensThere(frames, texts, k, t);
    ClosesThere(frames, texts, k, u);
    ApartIff(frames, texts, t, u);
  }

  /** The group's output is proper for one pattern. */
  ghost predicate ProperFor(frames: seq<Frame>, texts: seq<string>, pattern: string)
    requires |texts| == |frames|
  {
    && SingleTags(Joined(texts, |frames|), pattern)
    && forall i :: 0 <= i < |frames| ==> BracketFree(frames[i].key) && FreeOf(frames[i].raw, pattern)
  }

  ghost predicate ProperForKey(frames: seq<Frame>, texts: seq<string>, k: nat)
    requires |texts| == |frames|
  {
    k < |frames| && ProperFor(frames, texts, frames[k].key) && ProperFor(frames, texts, "/" + frames[k].key)
  }

  lemma {:induction false} ProperKey(frames: seq<Frame>, texts: seq<string>, k: nat)
    requires |texts| == |frames| && Proper(frames) && Joined(texts, |frames|) == GroupText(frames) && k < |frames|
    ensures ProperForKey(frames, texts, k)
  {
  }

  lemma {:induction false} MatchedTag(frames: seq<Frame>, texts: seq<string>, p: int, pattern: string) returns (t: TagRef)
    requires FramesAre(texts, frames) && TagAt(Joined(texts, |frames|), p, pattern)
    requires ProperFor(frames, texts, pattern)
    ensures Of(frames, t) && p == Place(frames, texts, t) && Fits(pattern, Body(frames, t))
  {
    var s := Joined(texts, |frames|);
    var body := s[p + 1..p + 1 + |pattern|];
    forall i | 0 <= i < |frames|
      ensures WithoutTag(frames[i].raw, body)
    {
      FreeOfFitting(frames[i].raw, pattern, body);
    }
    var i := TagIsFrames(frames, texts, |frames|, p, body);
    t := TagRef(i, p != OpenPos(texts, i));
    FramesInOrder(frames, texts, i, i + 1);
  }

  lemma {:induction false} FreeOfFitting(raw: string, pattern: string, body: string)
    requires FreeOf(raw, pattern) && Fits(pattern, body)
    ensures WithoutTag(raw, body)
  {
    forall p
      ensures !TagIs(raw, p, body)
    {
      assert !TagAt(raw, p, pattern);
    }
  }

  /** Every match of a command's expression in its group's output is between two tags that it reads
      as its own. */
  lemma {:induction false} MatchReadsTags(frames: seq<Frame>, texts: seq<string>, k: nat, p: int, q: int)
    returns (t: TagRef, u: TagRef)
    requires FramesAre(texts, frames) && ProperForKey(frames, texts, k)
    requires Matches(Joined(texts, |frames|), frames[k].key, p, q)
    ensures Of(frames, t) && Of(frames, u) && p == Place(frames, texts, t) && q + 1 == Place(frames, texts, u)
    ensures Opens(frames, k, t) && Closes(frames, k, u) && Apart(frames, t, u)
  {
    t := MatchOpens(frames, texts, k, p);
    u := MatchCloses(frames, texts, k, q);
    ApartIff(frames, texts, t, u);
  }

  lemma {:induction false} MatchOpens(frames: seq<Frame>, texts: seq<string>, k: nat, p: int) returns (t: TagRef)
    requires FramesAre(texts, frames) && k < |frames| && ProperFor(frames, texts, frames[k].key)
    requires TagAt(Joined(texts, |frames|), p, frames[k].key)
    ensures Of(frames, t) && p == Place(frames, texts, t) && Opens(frames, k, t)
  {
    t := MatchedTag(frames, texts, p, frames[k].key);
  }

  lemma {:induction false} MatchCloses(frames: seq<Frame>, texts: seq<string>, k: nat, q: int) returns (u: TagRef)
    requires FramesAre(texts, frames) && k < |frames| && ProperFor(frames, texts, "/" + frames[k].key)
    requires CloseAt(Joined(texts, |frames|), q, frames[k].key)
    ensures Of(frames, u) && q + 1 == Place(frames, texts, u) && Closes(frames, k, u)
  {
    u := MatchedTag(frames, texts, q + 1, "/" + frames[k].key);
    ClosesThere(frames, texts, k, u);
  }

  // ---- The round trip

  lemma {:induction false} CaptureMatches(s: string, key: string) returns (p: int, q: int)
    requires Capture(s, key).Some?
    ensures Matches(s, key, p, q) && Capture(s, key) == Some(s[AfterOpen(p, key)..q])
    ensures forall p', q' :: Matches(s, key, p', q') ==> p <= p' && q' <= q
  {
    p, q := FirstOpen(s, key, 0), LastClose(s, key, |s|);
    FirstOpenIsFirst(s, key, 0);
    LastCloseIsLast(s, key, |s|);
  }

  /** The match from own to close captures what is expected of the frame. */
  ghost predicate OwnMatch(s: string, f: Frame, own: int, close: int) {
    Matches(s, f.key, own, close) && Expected(f) == Some(s[AfterOpen(own, f.key)..close])
  }

  lemma {:induction false} OwnTagsIff(frames: seq<Frame>, k: nat)
    requires k < |frames|
    ensures Opens(frames, k, TagRef(k, false))
    ensures Closes(frames, k, TagRef(k, true)) && Apart(frames, TagRef(k, false), TagRef(k, true)) <==> Terminated(frames[k].raw)
  {
  }

  lemma {:induction false} OwnTags(frames: seq<Frame>, texts: seq<string>, k: nat)
    requires FramesAre(texts, frames) && k < |frames| && Terminated(frames[k].raw)
    ensures OwnMatch(Joined(texts, |frames|), frames[k], OpenPos(texts, k), ClosePos(frames, texts, k) - 1)
  {
    OwnTagsIff(frames, k);
    ReadTagsMatch(frames, texts, k, TagRef(k, false), TagRef(k, true));
    OwnOutput(frames, texts, k);
  }

  lemma {:induction false} OwnOutput(frames: seq<Frame>, texts: seq<string>, k: nat)
    requires FramesAre(texts, frames) && k < |frames| && Terminated(frames[k].raw)
    ensures
      var (own, close) := (OpenPos(texts, k), ClosePos(frames, texts, k) - 1);
      && 0 <= AfterOpen(own, frames[k].key) <= close <= |Joined(texts, |frames|)|
      && Expected(frames[k]) == Some(Joined(texts, |frames|)[AfterOpen(own, frames[k].key)..close])
  {
    FrameStands(frames, texts, |frames|, k);
    EndOfRaw(Joined(texts, |frames|), frames[k], OpenPos(texts, k));
  }

  lemma {:induction false} OnlyOwnMatch(frames: seq<Frame>, texts: seq<string>, k: nat, p: int, q: int)
    requires FramesAre(texts, frames) && ProperForKey(frames, texts, k) && !Misread(frames)
    requires Matches(Joined(texts, |frames|), frames[k].key, p, q)
    ensures p == OpenPos(texts, k) && q == ClosePos(frames, texts, k) - 1 && Terminated(frames[k].raw)
  {
    var t, u := MatchReadsTags(frames, texts, k, p, q);
    assert !Misreads(frames, k, t, u);
    OwnTagsIff(frames, k);
  }

  lemma {:induction false} CapturedWhenOnly(s: string, f: Frame, own: int, close: int)
    requires forall p, q :: Matches(s, f.key, p, q) ==> p == own && q == close && Terminated(f.raw)
    requires Terminated(f.raw) ==> OwnMatch(s, f, own, close)
    ensures Capture(s, f.key) == Expected(f)
  {
    if Capture(s, f.key).Some? {
      var p, q := CaptureMatches(s, f.key);
    } else {
      CaptureFailsIff(s, f.key);
    }
  }

  lemma {:induction false} OwnFrameIsCaptured(frames: seq<Frame>, texts: seq<string>, k: nat)
    requires FramesAre(texts, frames) && ProperForKey(frames, texts, k) && !Misread(frames)
    ensures Capture(Joined(texts, |frames|), frames[k].key) == Expected(frames[k])
  {
    var (s, own, close) := (Joined(texts, |frames|), OpenPos(texts, k), ClosePos(frames, texts, k) - 1);
    forall p, q | Matches(s, frames[k].key, p, q)
      ensures p == own && q == close && Terminated(frames[k].raw)
    {
      OnlyOwnMatch(frames, texts, k, p, q);
    }
    if Terminated(frames[k].raw) {
      OwnTags(frames, texts, k);
    }
    CapturedWhenOnly(s, frames[k], own, close);
  }

  /** A match that does not lie inside the expected one makes the captured text another. */
  lemma {:induction false} OtherMatch(s: string, key: string, p: int, q: int, own: int, close: int)
    requires Matches(s, key, p, q) && (p < own || close < q)
    requires Matches(s, key, own, close)
    ensures Capture(s, key) != Some(s[AfterOpen(own, key)..close])
  {
    CaptureFailsIff(s, key);
    var first, last := CaptureMatches(s, key);
    assert |s[AfterOpen(first, key)..last]| > |s[AfterOpen(own, key)..close]|;
  }

  lemma {:induction false} PlacesInOrder(frames: seq<Frame>, texts: seq<string>, t: TagRef, u: TagRef)
    requires FramesAre(texts, frames) && Of(frames, t) && Of(frames, u)
    requires t.frame < u.frame || (t.frame == u.frame && !t.closing && u.closing)
    ensures Place(frames, texts, t) < Place(frames, texts, u)
  {
    if t.frame < u.frame {
      FramesInOrder(frames, texts, t.frame, u.frame);
    }
  }

  lemma {:induction false} MisreadLiesBeyond(frames: seq<Frame>, texts: seq<string>, k: nat, t: TagRef, u: TagRef)
    requires FramesAre(texts, frames) && Misreads(frames, k, t, u)
    ensures Place(frames, texts, t) < OpenPos(texts, k) || ClosePos(frames, texts, k) < Place(frames, texts, u)
  {
    if t.frame < k {
      PlacesInOrder(frames, texts, t, TagRef(k, false));
    } else {
      PlacesInOrder(frames, texts, TagRef(k, true), u);
    }
  }

  /** A command that misreads two tags does not capture its own output, on any outputs. */
  lemma {:induction false} MisreadIsNotCaptured(frames: seq<Frame>, texts: seq<string>, k: nat, t: TagRef, u: TagRef)
    requires FramesAre(texts, frames) && Misreads(frames, k, t, u)
    ensures Capture(Joined(texts, |frames|), frames[k].key) != Expected(frames[k])
  {
    var (p, q) := (Place(frames, texts, t), Place(frames, texts, u) - 1);
    var (own, close) := (OpenPos(texts, k), ClosePos(frames, texts, k) - 1);
    ReadTagsMatch(frames, texts, k, t, u);
    MisreadLiesBeyond(frames, texts, k, t, u);
    if Terminated(frames[k].raw) {
      OwnTags(frames, texts, k);
    }
    NotCaptured(Joined(texts, |frames|), frames[k], p, q, own, close);
  }

  lemma {:induction false} NotCaptured(s: string, f: Frame, p: int, q: int, own: int, close: int)
    requires Matches(s, f.key, p, q) && (p < own || close < q)
    requires Terminated(f.raw) ==> OwnMatch(s, f, own, close)
    ensures Capture(s, f.key) != Expected(f)
  {
    if Terminated(f.raw) {
      OtherMatch(s, f.key, p, q, own, close);
    } else {
      CaptureFailsIff(s, f.key);
    }
  }

  ghost function TextsOf(frames: seq<Frame>): (texts: seq<string>)
    ensures |texts| == |frames| && GroupText(frames) == Joined(texts, |frames|)
    ensures forall i :: 0 <= i < |frames| ==> texts[i] == FrameText(frames[i])
  {
    seq(|frames|, i requires 0 <= i < |frames| => FrameText(frames[i]))
  }

  lemma {:induction false} TextsAreFrames(frames: seq<Frame>)
    ensures FramesAre(TextsOf(frames), frames)
  {
    forall i | 0 <= i < |frames|
      ensures FrameIs(TextsOf(frames)[i], frames[i])
    {
      FrameParts(frames[i]);
    }
  }

  /** Of the commands of a group, each one's output is found under its key when it ends with a
      newline, and nothing is found when it does not, if and only if no command can take two tags
      of the group for its own that are not. */
  lemma {:induction false} RoundTripIff(frames: seq<Frame>)
    requires Proper(frames)
    ensures (forall k :: 0 <= k < |frames| ==> Capture(GroupText(frames), frames[k].key) == Expected(frames[k]))
            <==> !Misread(frames)
  {
    var texts := TextsOf(frames);
    TextsAreFrames(frames);
    if Misread(frames) {
      var k, t, u :| Misreads(frames, k, t, u);
      MisreadIsNotCaptured(frames, texts, k, t, u);
    } else {
      forall k | 0 <= k < |frames|
        ensures Capture(GroupText(frames), frames[k].key) == Expected(frames[k])
      {
        ProperKey(frames, texts, k);
        OwnFrameIsCaptured(frames, texts, k);
      }
    }
  }

  // ---- What misreading means for the keys

  /** The keys of an earlier and a later command, one of which fits the other's tags. */
  predicate KeysClash(earlier: string, later: string) {
    || Fits(later, earlier) || Fits(earlier, later)
    || Fits(later, "/" + earlier) || Fits("/" + earlier, later)
  }

  lemma {:induction false} FitsBehindSlash(pattern: string, text: string)
    ensures Fits("/" + pattern, "/" + text) <==> Fits(pattern, text)
  {
    if Fits("/" + pattern, "/" + text) {
      forall i | 0 <= i < |text|
        ensures pattern[i] == '.' || pattern[i] == text[i]
      {
        assert ("/" + pattern)[i + 1] == pattern[i] && ("/" + text)[i + 1] == text[i];
      }
    }
  }

  lemma {:induction false} MisreadMeansClash(frames: seq<Frame>, k: nat, t: TagRef, u: TagRef)
    requires Misreads(frames, k, t, u)
    ensures t.frame < k || k < u.frame
    ensures t.frame < k ==> KeysClash(frames[t.frame].key, frames[k].key)
    ensures k < u.frame ==> KeysClash(frames[k].key, frames[u.frame].key)
  {
    FitsBehindSlash(frames[k].key, frames[u.frame].key);
  }

  lemma {:induction false} ClashIsMisread(frames: seq<Frame>, i: nat, j: nat)
    requires i < j < |frames| && KeysClash(frames[i].key, frames[j].key)
    requires Terminated(frames[j].raw)
    ensures Misread(frames)
  {
    var (earlier, later) := (frames[i].key, frames[j].key);
    FitsBehindSlash(earlier, later);
    FitsBehindSlash(later, later);
    if Fits(later, earlier) {
      assert Misreads(frames, j, TagRef(i, false), TagRef(j, true));
    } else if Fits(earlier, later) {
      assert Misreads(frames, i, TagRef(i, false), TagRef(j, true));
    } else if Fits(later, "/" + earlier) {
      assert Misreads(frames, j, TagRef(i, true), TagRef(j, true));
    } else {
      assert Misreads(frames, i, TagRef(i, false), TagRef(j, false));
    }
  }

  /** When all outputs but the first end with a newline, tags are misread if and only if the keys of
      two commands clash. */
  lemma {:induction false} MisreadIffClash(frames: seq<Frame>)
    requires forall i :: 0 < i < |frames| ==> Terminated(frames[i].raw)
    ensures Misread(frames) <==> exists i, j :: 0 <= i < j < |frames| && KeysClash(frames[i].key, frames[j].key)
  {
    if Misread(frames) {
      var k, t, u :| Misreads(frames, k, t, u);
      MisreadMeansClash(frames, k, t, u);
    }
    if i, j :| 0 <= i < j < |frames| && KeysClash(frames[i].key, frames[j].key) {
      ClashIsMisread(frames, i, j);
    }
  }

  lemma {:induction false} LiteralFits(key: string, text: string)
    requires '.' !in key
    ensures Fits(key, text) <==> key == text
  {
  }

  lemma {:induction false} SlashIsConfused(frames: seq<Frame>, i: nat, j: nat)
    requires i < j < |frames| && frames[j].key == "/" + frames[i].key
    ensures Misreads(frames, i, TagRef(i, false), TagRef(j, false))
  {
  }

  /** Without dots in distinct keys, tags are misread, on any outputs, if and only if some key is a
      slash followed by the key of an earlier command. */
  lemma {:induction false} LiteralMisreadIff(frames: seq<Frame>)
    requires forall i :: 0 <= i < |frames| ==> '.' !in frames[i].key
    requires forall i, j :: 0 <= i < j < |frames| ==> frames[i].key != frames[j].key
    ensures Misread(frames) <==> exists i, j :: 0 <= i < j < |frames| && frames[j].key == "/" + frames[i].key
  {
    if Misread(frames) {
      var k, t, u :| Misreads(frames, k, t, u);
      LiteralMisread(frames, k, t, u);
    }
    if i, j :| 0 <= i < j < |frames| && frames[j].key == "/" + frames[i].key {
      SlashIsConfused(frames, i, j);
    }
  }

  lemma {:induction false} SlashCancels(key: string, other: string)
    ensures "/" + key == "/" + other <==> key == other
  {
    assert key == ("/" + key)[1..] && other == ("/" + other)[1..];
  }

  lemma {:induction false} LiteralMisread(frames: seq<Frame>, k: nat, t: TagRef, u: TagRef)
    requires Misreads(frames, k, t, u)
    requires forall i :: 0 <= i < |frames| ==> '.' !in frames[i].key
    requires forall i, j :: 0 <= i < j < |frames| ==> frames[i].key != frames[j].key
    ensures exists i, j :: 0 <= i < j < |frames| && frames[j].key == "/" + frames[i].key
  {
    var key := frames[k].key;
    LiteralFits(key, Body(frames, t));
    LiteralFits("/" + key, Body(frames, u));
    SlashCancels(key, frames[u.frame].key);
    if t.closing && t.frame < k {
      assert frames[k].key == "/" + frames[t.frame].key;
    } else {
      assert frames[u.frame].key == "/" + frames[k].key;
    }
  }

  lemma {:induction false} LiteralSingleTags(s: string, pattern: string)
    requires '.' !in pattern && BracketFree(pattern)
    ensures SingleTags(s, pattern)
  {
    forall p | TagAt(s, p, pattern)
      ensures BracketFree(s[p + 1..p + 1 + |pattern|])
    {
      LiteralFits(pattern, s[p + 1..p + 1 + |pattern|]);
    }
  }

  /** Keys of plain characters without dots need not be looked for in the text. */
  lemma {:induction false} LiteralIsProper(frames: seq<Frame>)
    requires forall i :: 0 <= i < |frames| ==> Plain(frames[i].key) && BracketFree(frames[i].key) && '.' !in frames[i].key
    requires forall i, j :: 0 <= i < j < |frames| ==> frames[i].key != frames[j].key
    requires forall i, j :: 0 <= i < |frames| && 0 <= j < |frames| ==>
               FreeOf(frames[i].raw, frames[j].key) && FreeOf(frames[i].raw, "/" + frames[j].key)
    ensures Proper(frames)
  {
    forall i | 0 <= i < |frames|
      ensures SingleTags(GroupText(frames), frames[i].key) && SingleTags(GroupText(frames), "/" + frames[i].key)
    {
      LiteralSingleTags(GroupText(frames), frames[i].key);
      LiteralSingleTags(GroupText(frames), "/" + frames[i].key);
    }
  }

  /** Keys that only stand for themselves are found, each with its own output, if and only if no key is
      a slash followed by the key of an earlier command. */
  lemma {:induction false} LiteralRoundTripIff(frames: seq<Frame>)
    requires forall i :: 0 <= i < |frames| ==> Plain(frames[i].key) && BracketFree(frames[i].key) && '.' !in frames[i].key
    requires forall i, j :: 0 <= i < j < |frames| ==> frames[i].key != frames[j].key
    requires forall i, j :: 0 <= i < |frames| && 0 <= j < |frames| ==>
               FreeOf(frames[i].raw, frames[j].key) && FreeOf(frames[i].raw, "/" + frames[j].key)
    ensures (forall k :: 0 <= k < |frames| ==> Capture(GroupText(frames), frames[k].key) == Expected(frames[k]))
            <==> !exists i, j :: 0 <= i < j < |frames| && frames[j].key == "/" + frames[i].key
  {
    LiteralIsProper(frames);
    RoundTripIff(frames);
    LiteralMisreadIff(frames);
  }

  // ---- Single commands

  /** In a single frame, only the tags themselves fit the tags of its key. */
  lemma {:induction false} TagOfSingle(t: string, f: Frame, p: int, pattern: string)
    requires FrameIs(t, f) && BracketFree(f.key) && FreeOf(f.raw, pattern)
    requires |pattern| == |f.key| || (|pattern| == |f.key| + 1 && pattern[0] == '/')
    requires TagAt(t, p, pattern)
    ensures BracketFree(t[p + 1..p + 1 + |pattern|])
  {
    var (open, close, end) := (AfterOpen(0, f.key), CloseIn(f), p + 1 + |pattern|);
    if p == 0 {
      assert end == |f.key| + 1;
    } else if p < open - 1 {
      InsideTag(t, 0, f.key, p);
    } else if p < close {
      SingleTagInside(t, f, p, pattern);
    } else if p > close {
      InsideTag(t, close, "/" + f.key, p);
    } else if end == close + |f.key| + 1 {
      InsideTag(t, close, "/" + f.key, end);
    }
  }

  lemma {:induction false} SingleTagInside(t: string, f: Frame, p: int, pattern: string)
    requires FrameIs(t, f) && BracketFree(f.key) && AfterOpen(0, f.key) <= p < CloseIn(f)
    requires |f.key| <= |pattern| <= |f.key| + 1 && TagAt(t, p, pattern)
    ensures TagAt(f.raw, p - AfterOpen(0, f.key), pattern)
  {
    var (open, close, end) := (AfterOpen(0, f.key), CloseIn(f), p + 1 + |pattern|);
    if close < end {
      InsideTag(t, close, "/" + f.key, end);
    }
    var k := p - open + 1;
    SliceOfSlice(t, open, close, k, k + |pattern|);
  }

  lemma {:induction false} SingleIsProper(key: string, raw: string)
    requires Plain(key) && BracketFree(key) && FreeOf(raw, key) && FreeOf(raw, "/" + key)
    ensures Proper([Frame(key, raw)]) && GroupText([Frame(key, raw)]) == FrameText(Frame(key, raw))
  {
    var frames := [Frame(key, raw)];
    OneText(frames);
    var text := FrameText(frames[0]);
    FrameParts(frames[0]);
    SingleHasSingleTags(text, frames[0], key);
    SingleHasSingleTags(text, frames[0], "/" + key);
    OneIsProper(frames, text);
  }

  lemma {:induction false} OneIsProper(frames: seq<Frame>, text: string)
    requires |frames| == 1 && GroupText(frames) == text
    requires var f := frames[0]; Plain(f.key) && BracketFree(f.key) && FreeOf(f.raw, f.key) && FreeOf(f.raw, "/" + f.key)
    requires SingleTags(text, frames[0].key) && SingleTags(text, "/" + frames[0].key)
    ensures Proper(frames)
  {
  }

  lemma {:induction false} OneText(frames: seq<Frame>)
    requires |frames| == 1
    ensures GroupText(frames) == FrameText(frames[0])
  {
    assert Joined(TextsOf(frames), 1) == Joined(TextsOf(frames), 0) + FrameText(frames[0]);
  }

  lemma {:induction false} SingleHasSingleTags(t: string, f: Frame, pattern: string)
    requires FrameIs(t, f) && BracketFree(f.key) && FreeOf(f.raw, pattern)
    requires pattern == f.key || pattern == "/" + f.key
    ensures SingleTags(t, pattern)
  {
    forall p | TagAt(t, p, pattern)
      ensures BracketFree(t[p + 1..p + 1 + |pattern|])
    {
      TagOfSingle(t, f, p, pattern);
    }
  }

  /** The output of a single command is found if and only if it ends with a newline. */
  lemma {:induction false} FoundIffTerminated(key: string, raw: string)
    requires Plain(key) && BracketFree(key) && FreeOf(raw, key) && FreeOf(raw, "/" + key)
    ensures Capture(FrameText(Frame(key, raw)), key).Some? <==> Terminated(raw)
  {
    var frames := [Frame(key, raw)];
    SingleIsProper(key, raw);
    if Misread(frames) {
      var k, t, u :| Misreads(frames, k, t, u);
      MisreadMeansClash(frames, k, t, u);
    }
    RoundTripIff(frames);
    assert Capture(GroupText(frames), frames[0].key) == Expected(frames[0]);
  }

  lemma {:induction false} NotTheSecond(first: Frame, second: Frame, found: string)
    requires Fits(second.key, first.key) && second.raw == found + "\n"
    ensures Capture(GroupText([first, second]), second.key) != Some(found)
  {
    var frames := [first, second];
    TextsAreFrames(frames);
    FitsBehindSlash(second.key, second.key);
    MisreadIsNotCaptured(frames, TextsOf(frames), 1, TagRef(0, false), TagRef(1, true));
    assert second.raw[..|second.raw| - 1] == found;
  }

  lemma {:induction false} NotTheFirst(first: Frame, second: Frame, found: string)
    requires second.key == "/" + first.key && first.raw == found + "\n"
    ensures Capture(GroupText([first, second]), first.key) != Some(found)
  {
    var frames := [first, second];
    TextsAreFrames(frames);
    SlashIsConfused(frames, 0, 1);
    MisreadIsNotCaptured(frames, TextsOf(frames), 0, TagRef(0, false), TagRef(1, false));
    assert first.raw[..|first.raw| - 1] == found;
  }

  predicate Dots(pattern: string) {
    forall i :: 0 <= i < |pattern| ==> pattern[i] == '.'
  }

  /** A key of dots takes both tags of an empty output for one tag. */
  lemma {:induction false} NotTheLong(first: Frame, second: Frame, found: string)
    requires first.raw == "" && Dots(second.key) && |second.key| == 2 * |first.key| + 4 && second.raw == found + "\n"
    ensures Capture(GroupText([first, second]), second.key) != Some(found)
  {
    var frames := [first, second];
    var texts := TextsOf(frames);
    TextsAreFrames(frames);
    DotsOpenFirst(frames, texts, second.key);
    OwnTags(frames, texts, 1);
    FramesInOrder(frames, texts, 0, 1);
    EarlierOpen(Joined(texts, 2), second, 0, OpenPos(texts, 1), ClosePos(frames, texts, 1) - 1);
    assert second.raw[..|second.raw| - 1] == found;
  }

  lemma {:induction false} EarlierOpen(s: string, f: Frame, p: nat, own: nat, close: int)
    requires OpenAt(s, p, f.key) && p < own && OwnMatch(s, f, own, close)
    ensures Capture(s, f.key) != Expected(f)
  {
    OtherMatch(s, f.key, p, close, own, close);
  }

  lemma {:induction false} DotsOpenFirst(frames: seq<Frame>, texts: seq<string>, pattern: string)
    requires FramesAre(texts, frames) && |frames| == 2
    requires frames[0].raw == "" && Dots(pattern) && |pattern| == 2 * |frames[0].key| + 4
    ensures OpenAt(Joined(texts, 2), 0, pattern)
  {
    FrameStands(frames, texts, 2, 0);
    DotsOpen(Joined(texts, 2), frames[0], pattern);
  }

  lemma {:induction false} DotsOpen(s: string, first: Frame, pattern: string)
    requires FrameAt(s, first, 0) && first.raw == "" && Dots(pattern) && |pattern| == 2 * |first.key| + 4
    ensures OpenAt(s, 0, pattern)
  {
  }

  /** An output without a final newline, a key that reads like another one's closing tag, a key with a
      dot that fits another, and one of dots that fits several tags. */
  lemma {:induction false} NotFound()
    ensures Capture(FrameText(Frame("k", "foo")), "k").None?
    ensures Capture(GroupText([Frame("a", "x\n"), Frame("/a", "y\n")]), "a") != Some("x")
    ensures Capture(GroupText([Frame("aXb", "x\n"), Frame("a.b", "y\n")]), "a.b") != Some("y")
    ensures Capture(GroupText([Frame("a", ""), Frame("......", "y\n")]), "......") != Some("y")
  {
    FoundIffTerminated("k", "foo");
    NotTheFirst(Frame("a", "x\n"), Frame("/a", "y\n"), "x");
    NotTheSecond(Frame("aXb", "x\n"), Frame("a.b", "y\n"), "y");
    NotTheLong(Frame("a", ""), Frame("......", "y\n"), "y");
  }

  // ---- Groups of commands

  /** A command's output may be processed before it is returned, which may fail. */
  datatype Cmd = Cmd(key: string, outputProcessor: Option<string -> Option<string>>)

  function CmdResult(c: Cmd, s: string): Option<string> {
    var found := Capture(s, c.key);
    if found.Some? && c.outputProcessor.Some? then c.outputProcessor.value(found.value) else found
  }

  /** The results of the first n commands; of commands with the same key the last one counts. */
  ghost predicate ResultsOf(results: map<string, string>, cmds: seq<Cmd>, n: nat, s: string)
    requires n <= |cmds|
  {
    && (forall i :: 0 <= i < n ==> CmdResult(cmds[i], s).Some?)
    && results == LastValues(Found(cmds, n, s))
  }

  /** The keys of the first n commands, with what is found for them. */
  function Found(cmds: seq<Cmd>, n: nat, s: string): (pairs: seq<(string, Option<string>)>)
    requires n <= |cmds|
    ensures |pairs| == n && forall i :: 0 <= i < n ==> pairs[i] == (cmds[i].key, CmdResult(cmds[i], s))
  {
    if n == 0 then [] else Found(cmds, n - 1, s) + [(cmds[n - 1].key, CmdResult(cmds[n - 1], s))]
  }

  /** Every key with the last value it has. */
  ghost function LastValues(pairs: seq<(string, Option<string>)>): map<string, string> {
    if pairs == [] then map[]
    else
      var (key, value) := pairs[|pairs| - 1];
      var before := LastValues(pairs[..|pairs| - 1]);
      if value.Some? then before[key := value.value] else before
  }

  lemma {:induction false} DistinctKeepTheirValues(pairs: seq<(string, Option<string>)>)
    requires forall i, j :: 0 <= i < j < |pairs| ==> pairs[i].0 != pairs[j].0
    requires forall i :: 0 <= i < |pairs| ==> pairs[i].1.Some?
    ensures forall key :: key in LastValues(pairs) ==> exists i :: 0 <= i < |pairs| && pairs[i].0 == key
    ensures forall i :: 0 <= i < |pairs| ==> pairs[i].0 in LastValues(pairs) && LastValues(pairs)[pairs[i].0] == pairs[i].1.value
  {
    if pairs != [] {
      var before := pairs[..|pairs| - 1];
      DistinctKeepTheirValues(before);
      assert forall i :: 0 <= i < |before| ==> before[i] == pairs[i];
    }
  }

  lemma {:induction false} OneMoreResult(results: map<string, string>, cmds: seq<Cmd>, n: nat, s: string, value: string)
    requires n < |cmds| && ResultsOf(results, cmds, n, s) && CmdResult(cmds[n], s) == Some(value)
    ensures ResultsOf(results[cmds[n].key := value], cmds, n + 1, s)
  {
    assert Found(cmds, n + 1, s)[..n] == Found(cmds, n, s);
  }

  class CmdGroup {
    var cmds: seq<Cmd>

    constructor ()
      ensures cmds == []
    {
      cmds := [];
    }

    method AddCommand(c: Cmd)
      modifies this
      ensures cmds == old(cmds) + [c]
    {
      cmds := cmds + [c];
    }

    /** Stops at the first command without a result, and returns the results before it. */
    method ExtractResult(s: string) returns (results: map<string, string>, ok: bool)
      ensures ok ==> ResultsOf(results, cmds, |cmds|, s)
      ensures !ok ==> exists n :: 0 <= n < |cmds| && CmdResult(cmds[n], s).None? && ResultsOf(results, cmds, n, s)
    {
      results := map[];
      for i := 0 to |cmds|
        invariant ResultsOf(results, cmds, i, s)
      {
        var result := CmdResult(cmds[i], s);
        if result.None? {
          return results, false;
        }
        OneMoreResult(results, cmds, i, s, result.value);
        results := results[cmds[i].key := result.value];
      }
      return results, true;
    }
  }

  /** What becomes of a command's output: it is the result, unless a processor makes it another or
      refuses it. */
  ghost predicate Becomes(c: Cmd, output: string, result: Option<string>) {
    match c.outputProcessor
    case None => result == Some(output)
    case Some(process) => result == process(output)
  }

  ghost predicate AreCommandsOf(cmds: seq<Cmd>, frames: seq<Frame>) {
    |cmds| == |frames| && forall i :: 0 <= i < |cmds| ==> cmds[i].key == frames[i].key
  }

  /** Extracting the results of a group from its own frames gives what becomes of every output under
      its key, up to the first command whose output does not end with a newline or is refused by its
      processor: there it stops, and the outputs of the commands behind it are lost. */
  lemma {:induction false} GroupRoundTrip(frames: seq<Frame>, cmds: seq<Cmd>, results: map<string, string>, n: nat)
    requires Proper(frames) && !Misread(frames) && AreCommandsOf(cmds, frames) && n <= |cmds|
    requires ResultsOf(results, cmds, n, GroupText(frames))
    requires n < |cmds| ==> CmdResult(cmds[n], GroupText(frames)).None?
    ensures forall key :: key in results <==> exists i :: 0 <= i < n && frames[i].key == key
    ensures forall i :: 0 <= i < n ==>
              && frames[i].raw != "" && frames[i].raw[|frames[i].raw| - 1] == '\n'
              && Becomes(cmds[i], frames[i].raw[..|frames[i].raw| - 1], Some(results[frames[i].key]))
    ensures n < |frames| ==> frames[n].raw != "" && frames[n].raw[|frames[n].raw| - 1] == '\n' ==>
              Becomes(cmds[n], frames[n].raw[..|frames[n].raw| - 1], None)
  {
    var text := GroupText(frames);
    forall i | 0 <= i < |cmds|
      ensures IsResult(cmds[i], frames[i], CmdResult(cmds[i], text))
    {
      ResultIs(frames, cmds, i);
    }
    ResultsUpTo(frames, cmds, Found(cmds, n, text), n);
  }

  ghost predicate IsResult(c: Cmd, f: Frame, result: Option<string>) {
    if Terminated(f.raw) then Becomes(c, f.raw[..|f.raw| - 1], result) else result.None?
  }

  lemma {:induction false} ResultIs(frames: seq<Frame>, cmds: seq<Cmd>, i: nat)
    requires Proper(frames) && !Misread(frames) && AreCommandsOf(cmds, frames) && i < |cmds|
    ensures IsResult(cmds[i], frames[i], CmdResult(cmds[i], GroupText(frames)))
  {
    RoundTripIff(frames);
    assert Capture(GroupText(frames), frames[i].key) == Expected(frames[i]);
  }

  lemma {:induction false} ResultsUpTo(frames: seq<Frame>, cmds: seq<Cmd>, pairs: seq<(string, Option<string>)>, n: nat)
    requires n == |pairs| <= |frames| == |cmds|
    requires forall i, j :: 0 <= i < j < |frames| ==> frames[i].key != frames[j].key
    requires forall i :: 0 <= i < n ==>
               pairs[i].0 == frames[i].key && pairs[i].1.Some? && IsResult(cmds[i], frames[i], pairs[i].1)
    ensures forall key :: key in LastValues(pairs) <==> exists i :: 0 <= i < n && frames[i].key == key
    ensures forall i :: 0 <= i < n ==>
              && Terminated(frames[i].raw)
              && Becomes(cmds[i], frames[i].raw[..|frames[i].raw| - 1], Some(LastValues(pairs)[frames[i].key]))
  {
    DistinctKeepTheirValues(pairs);
    assert forall i :: 0 <= i < n ==> pairs[i].0 == frames[i].key;
  }
}
