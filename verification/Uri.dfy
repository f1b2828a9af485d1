/** Test URIs relative to a base (testdrive/src/testdrive/uri.py; section 3.3 of RFC 3986), from
    text to text: the library's urlsplit and urlunsplit are modelled as in Python 3.10. */
module Uri {
  import opened Outcomes

  // ---- Splitting and joining

  function Split(s: string, sep: char): (parts: seq<string>)
    ensures |parts| >= 1
    ensures forall i :: 0 <= i < |parts| ==> sep !in parts[i]
  {
    if s == "" then [""]
    else if s[0] == sep then [""] + Split(s[1..], sep)
    else
      var parts := Split(s[1..], sep);
      [[s[0]] + parts[0]] + parts[1..]
  }

  function Join(parts: seq<string>, sep: char): string {
    if parts == [] then ""
    else if |parts| == 1 then parts[0]
    else parts[0] + [sep] + Join(parts[1..], sep)
  }

  lemma {:induction false} JoinOfSplit(s: string, sep: char)
    ensures Join(Split(s, sep), sep) == s
  {
    if s != "" {
      JoinOfSplit(s[1..], sep);
      var rest := Split(s[1..], sep);
      if s[0] == sep {
        assert ([""] + rest)[1..] == rest;
      } else if |rest| > 1 {
        assert ([[s[0]] + rest[0]] + rest[1..])[1..] == rest[1..];
      }
    }
  }

  lemma {:induction false} SplitOfHead(part: string, rest: string, sep: char)
    requires sep !in part
    ensures Split(part, sep) == [part]
    ensures Split(part + [sep] + rest, sep) == [part] + Split(rest, sep)
  {
    var s := part + [sep] + rest;
    if part == "" {
      assert s[0] == sep && s[1..] == rest;
    } else {
      SplitOfHead(part[1..], rest, sep);
      assert s[1..] == part[1..] + [sep] + rest;
      assert part == [part[0]] + part[1..];
    }
  }

  lemma {:induction false} SplitOfJoin(parts: seq<string>, sep: char)
    requires parts != [] && forall i :: 0 <= i < |parts| ==> sep !in parts[i]
    ensures Split(Join(parts, sep), sep) == parts
  {
    if |parts| == 1 {
      SplitOfHead(parts[0], "", sep);
    } else {
      SplitOfJoin(parts[1..], sep);
      SplitOfHead(parts[0], Join(parts[1..], sep), sep);
    }
  }

  // ---- The library's split of a text into the parts of a URI

  datatype SplitUri = SplitUri(scheme: string, authority: string, path: string, query: string, fragment: string)

  /** Characters that are removed from a text before it is split. */
  const UNSAFE := {'\t', '\r', '\n'}

  /** Schemes whose URIs are written with an authority, be it an empty one. */
  const USES_AUTHORITY := {"ftp", "http", "gopher", "nntp", "telnet", "imap", "wais", "file", "mms", "https", "shttp",
                           "snews", "prospero", "rtsp", "rtspu", "rsync", "svn", "svn+ssh", "sftp", "nfs", "git",
                           "git+ssh", "ws", "wss"}

  function LowerChar(c: char): char {
    if 'A' <= c <= 'Z' then (c as int + 32) as char else c
  }

  function Lower(s: string): (r: string)
    ensures |r| == |s| && forall i :: 0 <= i < |s| ==> r[i] == LowerChar(s[i])
  {
    if s == "" then "" else [LowerChar(s[0])] + Lower(s[1..])
  }

  predicate SchemeChar(c: char) {
    'a' <= c <= 'z' || 'A' <= c <= 'Z' || '0' <= c <= '9' || c == '+' || c == '-' || c == '.'
  }

  function WithoutLeading(s: string): (r: string)
    ensures forall c :: c in r ==> c in s
  {
    if s != "" && s[0] <= ' ' then WithoutLeading(s[1..]) else s
  }

  function WithoutUnsafe(s: string): (r: string)
    ensures forall c :: c in r ==> c in s && c !in UNSAFE
  {
    if s == "" then "" else (if s[0] in UNSAFE then "" else [s[0]]) + WithoutUnsafe(s[1..])
  }

  /** The position of the first character that is one of `stop`, or the length. */
  function Find(s: string, stop: set<char>): (n: nat)
    ensures n <= |s| && (n < |s| ==> s[n] in stop)
    ensures forall i :: 0 <= i < n ==> s[i] !in stop
  {
    if s == "" || s[0] in stop then 0 else 1 + Find(s[1..], stop)
  }

  /** What is before the first c, and what is after it. */
  function CutAt(s: string, c: char): (string, string) {
    var n := Find(s, {c});
    (s[..n], if n < |s| then s[n + 1..] else "")
  }

  function CutScheme(s: string): (string, string) {
    var n := Find(s, {':'});
    if 0 < n < |s| && forall i :: 0 <= i < n ==> SchemeChar(s[i]) then (Lower(s[..n]), s[n + 1..]) else ("", s)
  }

  predicate TwoSlashes(s: string) {
    |s| >= 2 && s[0] == '/' && s[1] == '/'
  }

  function CutAuthority(s: string): (string, string) {
    if TwoSlashes(s) then
      var n := Find(s[2..], {'/', '?', '#'});
      (s[2..][..n], s[2..][n..])
    else ("", s)
  }

  /** Authority, path, query and fragment. */
  function SplitRest(scheme: string, rest: string): SplitUri {
    var (authority, afterAuthority) := CutAuthority(rest);
    var (beforeFragment, fragment) := CutAt(afterAuthority, '#');
    var (path, query) := CutAt(beforeFragment, '?');
    SplitUri(scheme, authority, path, query, fragment)
  }

  function UrlSplit(text: string): SplitUri {
    var (scheme, rest) := CutScheme(WithoutUnsafe(WithoutLeading(text)));
    SplitRest(scheme, rest)
  }

  // ---- The library's text for the parts of a URI

  predicate HasSlashes(scheme: string, authority: string, path: string) {
    authority != "" || (scheme in USES_AUTHORITY && !TwoSlashes(path))
  }

  /** Behind an authority, a path gets a slash in front. */
  function WrittenPath(scheme: string, authority: string, path: string): string {
    if HasSlashes(scheme, authority, path) && path != "" && path[0] != '/' then "/" + path else path
  }

  function WrittenQuery(query: string): string {
    if query != "" then "?" + query else ""
  }

  function UrlUnsplit(scheme: string, authority: string, path: string, query: string): string {
    var slashes := if HasSlashes(scheme, authority, path) then "//" + authority else "";
    scheme + ":" + (slashes + (WrittenPath(scheme, authority, path) + WrittenQuery(query)))
  }

  // ---- Building and rebasing

  function Sep(scheme: string): char {
    if Lower(scheme) == "urn" then ':' else '/'
  }

  function WithoutEmptyLast(parts: seq<string>): seq<string> {
    if parts != [] && parts[|parts| - 1] == "" then parts[..|parts| - 1] else parts
  }

  datatype UriBuilder = UriBuilder(scheme: string, authority: string, head: seq<string>)

  predicate EndsInHash(text: string) {
    text != "" && text[|text| - 1] == '#'
  }

  /** A builder, or nothing when the base is refused. */
  function NewBuilder(base: string): Option<UriBuilder> {
    var u := UrlSplit(base);
    if u.scheme == "" || u.query != "" || u.fragment != "" || EndsInHash(base) then None
    else Some(UriBuilder(u.scheme, u.authority, WithoutEmptyLast(Split(u.path, Sep(u.scheme)))))
  }

  /** A path's segments, without one empty segment at each end. An empty path has no last segment
      to look at, and fails. */
  function Segments(path: string): Outcome<seq<string>> {
    var tail := Split(path, '/');
    var rest := if tail[0] == "" then tail[1..] else tail;
    if rest == [] then Panicked else Done(WithoutEmptyLast(rest))
  }

  function BuildTail(b: UriBuilder, segments: seq<string>): seq<string> {
    if Sep(b.scheme) == ':' then segments else segments + [""]
  }

  function BuiltPath(b: UriBuilder, segments: seq<string>): string {
    Join(b.head + BuildTail(b, segments), Sep(b.scheme))
  }

  /** The characters that an encoded query consists of. */
  type Query = s: string | forall c :: c in s ==> EncodedChar(c)

  predicate EncodedChar(c: char) {
    SchemeChar(c) || c == '%' || c == '&' || c == '=' || c == '_' || c == '~'
  }

  function Build(b: UriBuilder, path: string, query: Query): Outcome<string> {
    var segments :- Segments(path);
    Done(UrlUnsplit(b.scheme, b.authority, BuiltPath(b, segments), query))
  }

  /** The path of a URI below the builder's base; nothing when the URI is refused. */
  function Below(b: UriBuilder, uri: string): Option<seq<string>> {
    var u := UrlSplit(uri);
    var path := Split(u.path, Sep(b.scheme));
    if Lower(u.scheme) != Lower(b.scheme) || u.authority != b.authority || !(b.head <= path)
       || u.fragment != "" || EndsInHash(uri)
    then None else Some(path[|b.head|..])
  }

  function Rebase(b: UriBuilder, uri: string, base: string): Outcome<Option<string>> {
    var below := Below(b, uri);
    var other := NewBuilder(base);
    if below.None? || other.None? then Done(None)
    else
      var rebased :- Build(other.value, Join(below.value, '/'), "");
      Done(Some(rebased))
  }

  // ---- Failures at run time

  lemma {:induction false} BuildFailsIff(b: UriBuilder, path: string, query: Query)
    ensures Build(b, path, query).Panicked? <==> path == ""
  {
    JoinOfSplit(path, '/');
  }

  /** Rebasing fails at run time for the base's own URI, and for no other. */
  lemma {:induction false} RebaseFailsIff(b: UriBuilder, uri: string, other: string)
    ensures Rebase(b, uri, other).Panicked?
            <==> NewBuilder(other).Some? && Below(b, uri).Some?
                 && (Below(b, uri).value == [] || Below(b, uri).value == [""])
  {
    var (below, builder) := (Below(b, uri), NewBuilder(other));
    if below.Some? && builder.Some? {
      BuildFailsIff(builder.value, Join(below.value, '/'), "");
      EmptyJoin(below.value, '/');
    }
  }

  lemma {:induction false} EmptyJoin(parts: seq<string>, sep: char)
    ensures Join(parts, sep) == "" <==> parts == [] || parts == [""]
  {
    if |parts| == 1 && parts[0] == "" {
      assert parts == [""];
    } else if |parts| > 1 {
      assert |Join(parts, sep)| >= 1;
    }
  }

  // ---- Splitting what was written

  predicate FreeOf(s: string, chars: set<char>) {
    forall c :: c in s ==> c !in chars
  }

  /** No character that a path loses when it is written into a URI and split again. */
  predicate Clean(path: string) {
    FreeOf(path, UNSAFE) && FreeOf(path, {'#', '?'})
  }

  predicate IsScheme(s: string) {
    s != "" && Lower(s) == s && forall i :: 0 <= i < |s| ==> SchemeChar(s[i])
  }

  lemma {:induction false} FindIs(s: string, stop: set<char>, n: nat)
    requires n <= |s| && (n < |s| ==> s[n] in stop) && forall i :: 0 <= i < n ==> s[i] !in stop
    ensures Find(s, stop) == n
  {
  }

  lemma {:induction false} SafeStays(s: string)
    requires FreeOf(s, UNSAFE)
    ensures WithoutUnsafe(s) == s
  {
    if s != "" {
      assert forall c :: c in s[1..] ==> c in s;
      SafeStays(s[1..]);
      assert s == [s[0]] + s[1..];
    }
  }

  lemma {:induction false} FreeJoin(s: string, t: string, chars: set<char>)
    requires FreeOf(s, chars) && FreeOf(t, chars)
    ensures FreeOf(s + t, chars)
  {
  }

  lemma {:induction false} SchemeIsSafe(scheme: string)
    requires IsScheme(scheme)
    ensures FreeOf(scheme + ":", UNSAFE) && scheme[0] > ' '
  {
    assert SchemeChar(scheme[0]);
    forall c | c in scheme
      ensures SchemeChar(c)
    {
    }
  }

  lemma {:induction false} CutOfScheme(scheme: string, rest: string)
    requires IsScheme(scheme)
    ensures CutScheme(scheme + ":" + rest) == (scheme, rest)
  {
    var text := scheme + ":" + rest;
    assert forall i :: 0 <= i < |scheme| ==> text[i] == scheme[i] && SchemeChar(scheme[i]);
    FindIs(text, {':'}, |scheme|);
    assert text[..|scheme|] == scheme && text[|scheme| + 1..] == rest;
  }

  lemma {:induction false} SchemeIsCut(scheme: string, rest: string)
    requires IsScheme(scheme) && FreeOf(rest, UNSAFE)
    ensures UrlSplit(scheme + ":" + rest) == SplitRest(scheme, rest)
  {
    SchemeIsSafe(scheme);
    FreeJoin(scheme + ":", rest, UNSAFE);
    SafeStays(scheme + ":" + rest);
    CutOfScheme(scheme, rest);
  }

  lemma {:induction false} AuthorityIsCut(authority: string, rest: string)
    requires FreeOf(authority, {'/', '?', '#'})
    requires rest != "" ==> rest[0] in {'/', '?', '#'}
    ensures CutAuthority("//" + authority + rest) == (authority, rest)
  {
    var s := "//" + authority + rest;
    assert s[2..] == authority + rest;
    FindIs(authority + rest, {'/', '?', '#'}, |authority|);
  }

  lemma {:induction false} PathIsCut(scheme: string, rest: string, authority: string, path: string, query: string)
    requires CutAuthority(rest) == (authority, path + WrittenQuery(query))
    requires FreeOf(path, {'#', '?'}) && FreeOf(query, {'#'})
    ensures SplitRest(scheme, rest) == SplitUri(scheme, authority, path, query, "")
  {
    NoFragment(path, query);
    QueryIsCut(path, query);
  }

  lemma {:induction false} NoFragment(path: string, query: string)
    requires FreeOf(path, {'#', '?'}) && FreeOf(query, {'#'})
    ensures CutAt(path + WrittenQuery(query), '#') == (path + WrittenQuery(query), "")
  {
    var s := path + WrittenQuery(query);
    FindIs(s, {'#'}, |s|);
    assert s[..|s|] == s;
  }

  lemma {:induction false} QueryIsCut(path: string, query: string)
    requires FreeOf(path, {'#', '?'})
    ensures CutAt(path + WrittenQuery(query), '?') == (path, query)
  {
    if query == "" {
      FindIs(path, {'?'}, |path|);
      assert path + "" == path && path[..|path|] == path;
    } else {
      MarkIsCut(path, query);
      assert path + ("?" + query) == path + "?" + query;
    }
  }

  lemma {:induction false} MarkIsCut(path: string, query: string)
    requires FreeOf(path, {'#', '?'})
    ensures CutAt(path + "?" + query, '?') == (path, query)
  {
    var s := path + "?" + query;
    FindIs(s, {'?'}, |path|);
    assert s[..|path|] == path && s[|path| + 1..] == query;
  }

  lemma {:induction false} QueryIsSafe(query: Query)
    ensures FreeOf(query, {'#'}) && FreeOf(WrittenQuery(query), UNSAFE) && FreeOf(WrittenQuery(query), {'#'})
  {
    forall c | c in query
      ensures c !in UNSAFE && c != '#'
    {
      assert EncodedChar(c);
    }
  }

  lemma {:induction false} SplitFrom(scheme: string, rest: string, authority: string, path: string, query: string)
    requires IsScheme(scheme) && FreeOf(rest, UNSAFE)
    requires CutAuthority(rest) == (authority, path + WrittenQuery(query))
    requires FreeOf(path, {'#', '?'}) && FreeOf(query, {'#'})
    ensures UrlSplit(scheme + ":" + rest) == SplitUri(scheme, authority, path, query, "")
  {
    SchemeIsCut(scheme, rest);
    PathIsCut(scheme, rest, authority, path, query);
  }

  lemma {:induction false} SplitWithAuthority(scheme: string, authority: string, path: string, query: string, end: string)
    requires IsScheme(scheme) && FreeOf(authority, {'/', '?', '#'}) && FreeOf("//" + authority, UNSAFE)
    requires FreeOf(end, UNSAFE) && FreeOf(path, {'#', '?'}) && FreeOf(query, {'#'})
    requires end == path + WrittenQuery(query) && (path != "" ==> path[0] == '/')
    ensures UrlSplit(scheme + ":" + ("//" + authority + end)) == SplitUri(scheme, authority, path, query, "")
  {
    FreeJoin("//" + authority, end, UNSAFE);
    AuthorityIsCut(authority, end);
    SplitFrom(scheme, "//" + authority + end, authority, path, query);
  }

  lemma {:induction false} SplitWithoutAuthority(scheme: string, path: string, query: string, end: string)
    requires IsScheme(scheme) && FreeOf(end, UNSAFE) && FreeOf(path, {'#', '?'}) && FreeOf(query, {'#'})
    requires end == path + WrittenQuery(query) && !TwoSlashes(path)
    ensures UrlSplit(scheme + ":" + ("" + end)) == SplitUri(scheme, "", path, query, "")
  {
    assert "" + end == end;
    SplitFrom(scheme, end, "", path, query);
  }

  lemma {:induction false} WrittenIsFree(scheme: string, authority: string, path: string, chars: set<char>)
    requires FreeOf(path, chars) && '/' !in chars
    ensures FreeOf(WrittenPath(scheme, authority, path), chars)
  {
    FreeJoin("/", path, chars);
  }

  /** What is written is split into the same parts again, except for the slash in front of the path,
      when the path does not read like an authority. */
  lemma {:induction false} SplitOfWritten(scheme: string, authority: string, path: string, query: Query)
    requires IsScheme(scheme) && FreeOf(authority, {'/', '?', '#'}) && FreeOf(authority, UNSAFE)
    requires Clean(path)
    requires authority == "" ==> !TwoSlashes(path)
    ensures UrlSplit(UrlUnsplit(scheme, authority, path, query))
         == SplitUri(scheme, authority, WrittenPath(scheme, authority, path), query, "")
  {
    var w := WrittenPath(scheme, authority, path);
    QueryIsSafe(query);
    WrittenIsFree(scheme, authority, path, UNSAFE);
    WrittenIsFree(scheme, authority, path, {'#', '?'});
    FreeJoin(w, WrittenQuery(query), UNSAFE);
    FreeJoin("//", authority, UNSAFE);
    if HasSlashes(scheme, authority, path) {
      SplitWithAuthority(scheme, authority, w, query, w + WrittenQuery(query));
    } else {
      SplitWithoutAuthority(scheme, w, query, w + WrittenQuery(query));
    }
  }

  /** No text with these parts ends in a hash. */
  lemma {:induction false} NoHashWritten(scheme: string, authority: string, path: string, query: Query)
    requires IsScheme(scheme) && FreeOf(authority, {'/', '?', '#'}) && FreeOf(path, {'#', '?'})
    ensures !EndsInHash(UrlUnsplit(scheme, authority, path, query))
  {
    QueryIsSafe(query);
    var slashes := if HasSlashes(scheme, authority, path) then "//" + authority else "";
    var (written, query') := (WrittenPath(scheme, authority, path), WrittenQuery(query));
    assert forall c :: c in scheme ==> SchemeChar(c);
    assert '#' !in slashes && '#' !in written && '#' !in query';
    EndWithoutHash(scheme + ":", slashes, written, query');
  }

  lemma {:induction false} EndWithoutHash(s: string, t: string, u: string, v: string)
    requires '#' !in s && '#' !in t && '#' !in u && '#' !in v
    ensures !EndsInHash(s + (t + (u + v)))
  {
    assert forall c :: c in s + (t + (u + v)) ==> c in s || c in t || c in u || c in v;
  }

  // ---- The parts that a split gives

  lemma {:induction false} LowerTwice(s: string)
    ensures Lower(Lower(s)) == Lower(s)
  {
    assert forall i :: 0 <= i < |s| ==> Lower(Lower(s))[i] == Lower(s)[i];
  }

  lemma {:induction false} SchemeFound(s: string)
    ensures var (scheme, rest) := CutScheme(s); (scheme != "" ==> IsScheme(scheme)) && forall c :: c in rest ==> c in s
  {
    var n := Find(s, {':'});
    LowerTwice(s[..n]);
    assert forall i :: 0 <= i < n ==> s[..n][i] == s[i];
  }

  lemma {:induction false} AuthorityFound(s: string)
    ensures
      var (authority, rest) := CutAuthority(s);
      && FreeOf(authority, {'/', '?', '#'}) && (forall c :: c in authority || c in rest ==> c in s)
      && (authority != "" && rest != "" ==> rest[0] in {'/', '?', '#'})
  {
    if TwoSlashes(s) {
      var t := s[2..];
      var n := Find(t, {'/', '?', '#'});
      assert forall i :: 0 <= i < n ==> t[..n][i] == t[i];
    }
  }

  lemma {:induction false} CutFound(s: string, c: char)
    ensures FreeOf(CutAt(s, c).0, {c}) && forall d :: d in CutAt(s, c).0 ==> d in s
    ensures CutAt(s, c).0 != "" ==> CutAt(s, c).0[0] == s[0]
  {
    var n := Find(s, {c});
    assert forall i :: 0 <= i < n ==> s[..n][i] == s[i];
  }

  /** What the parts of any text are like. */
  ghost predicate IsSplit(u: SplitUri) {
    && (u.scheme != "" ==> IsScheme(u.scheme))
    && FreeOf(u.authority, {'/', '?', '#'}) && FreeOf(u.authority, UNSAFE)
    && Clean(u.path)
    && (u.authority != "" && u.path != "" ==> u.path[0] == '/')
  }

  lemma {:induction false} SplitIsSplit(text: string)
    ensures IsSplit(UrlSplit(text))
  {
    var t := WithoutUnsafe(WithoutLeading(text));
    var (scheme, rest) := CutScheme(t);
    SchemeFound(t);
    AuthorityFound(rest);
    var end := CutAuthority(rest).1;
    CutFound(end, '#');
    CutFound(CutAt(end, '#').0, '?');
  }

  // ---- Joined parts

  lemma {:induction false} JoinHas(parts: seq<string>, sep: char, i: nat, c: char)
    requires i < |parts| && c in parts[i]
    ensures c in Join(parts, sep)
  {
    if |parts| > 1 && i > 0 {
      JoinHas(parts[1..], sep, i - 1, c);
    }
  }

  lemma {:induction false} JoinFrom(parts: seq<string>, sep: char, c: char)
    requires c in Join(parts, sep)
    ensures c == sep || exists i :: 0 <= i < |parts| && c in parts[i]
  {
    if |parts| > 1 && c in Join(parts[1..], sep) {
      JoinFrom(parts[1..], sep, c);
      if c != sep {
        var i :| 0 <= i < |parts[1..]| && c in parts[1..][i];
        assert c in parts[i + 1];
      }
    }
  }

  ghost predicate AllFree(parts: seq<string>, chars: set<char>) {
    forall i :: 0 <= i < |parts| ==> FreeOf(parts[i], chars)
  }

  lemma {:induction false} JoinIsFree(parts: seq<string>, sep: char, chars: set<char>)
    requires AllFree(parts, chars) && sep !in chars
    ensures FreeOf(Join(parts, sep), chars)
  {
    forall c | c in Join(parts, sep)
      ensures c !in chars
    {
      JoinFrom(parts, sep, c);
    }
  }

  lemma {:induction false} SplitIsFree(s: string, sep: char, chars: set<char>)
    requires FreeOf(s, chars)
    ensures AllFree(Split(s, sep), chars)
  {
    JoinOfSplit(s, sep);
    forall i, c | 0 <= i < |Split(s, sep)| && c in Split(s, sep)[i]
      ensures c !in chars
    {
      JoinHas(Split(s, sep), sep, i, c);
    }
  }

  // ---- Rebasing what was built

  /** Segments of which the first and the last are not empty, with no separator in any. */
  ghost predicate Plain(segments: seq<string>) {
    && segments != [] && segments[0] != "" && segments[|segments| - 1] != ""
    && forall i :: 0 <= i < |segments| ==> '/' !in segments[i] && ':' !in segments[i]
  }

  ghost predicate IsBuilder(base: SplitUri, b: UriBuilder) {
    && IsSplit(base) && base.scheme != ""
    && b == UriBuilder(base.scheme, base.authority, WithoutEmptyLast(Split(base.path, Sep(base.scheme))))
  }

  /** Without an authority, the base's path must not read like one, and it must not be relative when
      the library writes an authority for the scheme. */
  predicate Restorable(base: SplitUri) {
    || base.authority != ""
    || (!TwoSlashes(base.path) && (base.scheme in USES_AUTHORITY && base.path != "" ==> base.path[0] == '/'))
  }

  lemma {:induction false} JoinWithEmptyFirst(parts: seq<string>, sep: char)
    requires parts != []
    ensures Join([""] + parts, sep) == [sep] + Join(parts, sep)
  {
    assert ([""] + parts)[1..] == parts;
  }

  lemma {:induction false} JoinWithLongerFirst(parts: seq<string>, c: char, sep: char)
    requires parts != []
    ensures Join([[c] + parts[0]] + parts[1..], sep) == [c] + Join(parts, sep)
  {
    assert ([[c] + parts[0]] + parts[1..])[1..] == parts[1..];
  }

  /** Segments with an empty one before or after them are the same segments. */
  function Padded(before: bool, segments: seq<string>, after: bool): seq<string> {
    (if before then [""] else []) + segments + (if after then [""] else [])
  }

  lemma {:induction false} SegmentsOfPadded(before: bool, segments: seq<string>, after: bool)
    requires Plain(segments)
    ensures Segments(Join(Padded(before, segments, after), '/')) == Done(segments)
  {
    var parts := Padded(before, segments, after);
    var inner := segments + (if after then [""] else []);
    SplitOfJoin(parts, '/');
    assert inner[0] == segments[0];
    assert if before then parts[0] == "" && parts[1..] == inner else parts == inner;
    assert WithoutEmptyLast(inner) == segments;
  }

  /** What is left of the path "/..." of a URI built on an empty base. */
  lemma {:induction false} SlashedPath(segments: seq<string>, sep: char)
    requires Plain(segments) && (sep == '/' || sep == ':')
    ensures
      var parts := if sep == ':' then segments else segments + [""];
      Join(Split("/" + Join(parts, sep), sep), '/') == Join(Padded(true, segments, sep == '/'), '/')
  {
    var parts := if sep == ':' then segments else segments + [""];
    if sep == '/' {
      JoinWithEmptyFirst(parts, sep);
      SplitOfJoin([""] + parts, sep);
      assert [""] + parts == Padded(true, segments, true);
    } else {
      var slashed := [['/'] + segments[0]] + segments[1..];
      JoinWithLongerFirst(segments, '/', sep);
      SplitOfJoin(slashed, sep);
      JoinWithLongerFirst(segments, '/', '/');
      JoinWithEmptyFirst(segments, '/');
      assert [""] + segments == Padded(true, segments, false);
    }
  }

  lemma {:induction false} TailOfParts(b: UriBuilder, segments: seq<string>)
    ensures (b.head + BuildTail(b, segments))[|b.head|..] == Padded(false, segments, Sep(b.scheme) == '/')
    ensures b.head <= b.head + BuildTail(b, segments)
  {
    assert BuildTail(b, segments) == Padded(false, segments, Sep(b.scheme) == '/');
  }

  lemma {:induction false} SegmentsAreFree(path: string, chars: set<char>)
    requires Segments(path).Done? && FreeOf(path, chars)
    ensures AllFree(Segments(path).value, chars)
  {
    SplitIsFree(path, '/', chars);
  }

  lemma {:induction false} BuiltIsFree(base: SplitUri, b: UriBuilder, path: string, chars: set<char>)
    requires IsBuilder(base, b) && Segments(path).Done?
    requires FreeOf(path, chars) && FreeOf(base.path, chars) && '/' !in chars && ':' !in chars
    ensures FreeOf(BuiltPath(b, Segments(path).value), chars)
  {
    SplitIsFree(base.path, Sep(b.scheme), chars);
    SegmentsAreFree(path, chars);
    assert FreeOf("", chars);
    assert AllFree(b.head + BuildTail(b, Segments(path).value), chars);
    JoinIsFree(b.head + BuildTail(b, Segments(path).value), Sep(b.scheme), chars);
  }

  lemma {:induction false} TwoSlashesOfJoin(parts: seq<string>)
    requires parts != [] && forall i :: 0 <= i < |parts| ==> '/' !in parts[i]
    ensures TwoSlashes(Join(parts, '/')) <==> |parts| >= 3 && parts[0] == "" && parts[1] == ""
  {
    if |parts| == 1 {
      assert parts[0] != "" ==> parts[0][0] in parts[0];
    } else {
      assert parts[0] != "" ==> Join(parts, '/')[0] == parts[0][0] && parts[0][0] in parts[0];
      assert parts[0] == "" ==> Join(parts, '/') == "/" + Join(parts[1..], '/');
      assert parts[1] != "" ==> Join(parts[1..], '/')[0] == parts[1][0] && parts[1][0] in parts[1];
    }
  }

  lemma {:induction false} TwoSlashesInFirst(parts: seq<string>)
    requires parts != []
    ensures TwoSlashes(Join(parts, ':')) <==> TwoSlashes(parts[0])
  {
  }

  /** A built path reads like an authority exactly when the base's own path does. */
  lemma {:induction false} BuiltSlashes(base: SplitUri, b: UriBuilder, segments: seq<string>)
    requires IsBuilder(base, b) && Plain(segments)
    ensures TwoSlashes(BuiltPath(b, segments)) <==> TwoSlashes(base.path)
  {
    var sep := Sep(b.scheme);
    var own := Split(base.path, sep);
    var parts := b.head + BuildTail(b, segments);
    JoinOfSplit(base.path, sep);
    assert segments[0][0] in segments[0];
    if sep == '/' {
      TwoSlashesOfJoin(own);
      TwoSlashesOfJoin(parts);
    } else {
      TwoSlashesInFirst(own);
      TwoSlashesInFirst(parts);
    }
  }

  // ---- When rebasing inverts building

  /** A slash goes in front of the path of an empty base only. */
  lemma {:induction false} EmptyHead(base: SplitUri, b: UriBuilder, segments: seq<string>)
    requires IsBuilder(base, b) && Restorable(base)
    requires WrittenPath(b.scheme, b.authority, BuiltPath(b, segments)) != BuiltPath(b, segments)
    ensures b.head == []
  {
    if base.path != "" {
      assert base.path[0] == '/';
      JoinOfSplit(base.path, Sep(b.scheme));
    }
  }

  /** The path that is written for built segments, below the builder's head. */
  lemma {:induction false} BelowWritten(base: SplitUri, b: UriBuilder, segments: seq<string>) returns (before: bool)
    requires IsBuilder(base, b) && Restorable(base) && Plain(segments)
    ensures
      var parts := Split(WrittenPath(b.scheme, b.authority, BuiltPath(b, segments)), Sep(b.scheme));
      && b.head <= parts
      && Join(parts[|b.head|..], '/') == Join(Padded(before, segments, Sep(b.scheme) == '/'), '/')
  {
    var sep := Sep(b.scheme);
    var parts := b.head + BuildTail(b, segments);
    before := WrittenPath(b.scheme, b.authority, BuiltPath(b, segments)) != BuiltPath(b, segments);
    if before {
      EmptyHead(base, b, segments);
      assert parts == BuildTail(b, segments);
      SlashedPath(segments, sep);
      var slashed := Split("/" + Join(parts, sep), sep);
      assert slashed[0..] == slashed;
    } else {
      SplitOfJoin(parts, sep);
      TailOfParts(b, segments);
    }
  }

  lemma {:induction false} SplitOfBuilt(base: SplitUri, b: UriBuilder, path: string, query: Query)
    requires IsBuilder(base, b) && Segments(path).Done? && Clean(path) && Plain(Segments(path).value)
    requires b.authority == "" ==> !TwoSlashes(base.path)
    ensures
      var (built, text) := (BuiltPath(b, Segments(path).value), Build(b, path, query).value);
      && UrlSplit(text) == SplitUri(b.scheme, b.authority, WrittenPath(b.scheme, b.authority, built), query, "")
      && !EndsInHash(text)
  {
    var segments := Segments(path).value;
    BuiltIsFree(base, b, path, UNSAFE);
    BuiltIsFree(base, b, path, {'#', '?'});
    BuiltSlashes(base, b, segments);
    SplitOfWritten(b.scheme, b.authority, BuiltPath(b, segments), query);
    NoHashWritten(b.scheme, b.authority, BuiltPath(b, segments), query);
  }

  lemma {:induction false} BelowBuilt(base: SplitUri, b: UriBuilder, path: string, uri: string, query: Query)
    returns (before: bool)
    requires IsBuilder(base, b) && Restorable(base)
    requires Segments(path).Done? && Plain(Segments(path).value) && Clean(path)
    requires Build(b, path, query) == Done(uri)
    ensures Below(b, uri).Some?
    ensures Join(Below(b, uri).value, '/') == Join(Padded(before, Segments(path).value, Sep(b.scheme) == '/'), '/')
  {
    SplitOfBuilt(base, b, path, query);
    before := BelowWritten(base, b, Segments(path).value);
  }

  lemma {:induction false} RestoredWhenClean(base: SplitUri, b: UriBuilder, other: string, path: string, query: Query)
    requires IsBuilder(base, b) && Restorable(base) && NewBuilder(other).Some?
    requires Segments(path).Done? && Plain(Segments(path).value) && Clean(path)
    ensures Rebase(b, Build(b, path, query).value, other)
         == Done(Some(Build(NewBuilder(other).value, path, "").value))
  {
    var uri := Build(b, path, query).value;
    var before := BelowBuilt(base, b, path, uri, query);
    SegmentsOfPadded(before, Segments(path).value, Sep(b.scheme) == '/');
    SameSegments(b, uri, other, path);
  }

  lemma {:induction false} SameSegments(b: UriBuilder, uri: string, other: string, path: string)
    requires NewBuilder(other).Some? && Below(b, uri).Some? && Segments(path).Done?
    requires Segments(Join(Below(b, uri).value, '/')) == Segments(path)
    ensures Rebase(b, uri, other) == Done(Some(Build(NewBuilder(other).value, path, "").value))
  {
  }

  lemma {:induction false} BuilderIsBuilder(text: string)
    requires NewBuilder(text).Some?
    ensures IsBuilder(UrlSplit(text), NewBuilder(text).value)
  {
    SplitIsSplit(text);
  }

  // ---- What is lost

  lemma {:induction false} BelowIsFree(b: UriBuilder, uri: string, chars: set<char>)
    requires Below(b, uri).Some? && (chars == UNSAFE || chars == {'#', '?'})
    ensures FreeOf(Join(Below(b, uri).value, '/'), chars)
  {
    SplitIsSplit(uri);
    SplitIsFree(UrlSplit(uri).path, Sep(b.scheme), chars);
    JoinIsFree(Below(b, uri).value, '/', chars);
  }

  lemma {:induction false} BuiltTextIsFree(other: string, path: string, chars: set<char>)
    requires NewBuilder(other).Some? && Segments(path).Done? && FreeOf(path, chars)
    requires chars == UNSAFE || chars == {'#', '?'}
    ensures FreeOf(Build(NewBuilder(other).value, path, "").value, chars)
  {
    BuilderIsBuilder(other);
    BuiltByIsFree(UrlSplit(other), NewBuilder(other).value, path, chars);
  }

  lemma {:induction false} BuiltByIsFree(base: SplitUri, b: UriBuilder, path: string, chars: set<char>)
    requires IsBuilder(base, b) && Segments(path).Done? && FreeOf(path, chars)
    requires chars == UNSAFE || chars == {'#', '?'}
    ensures FreeOf(Build(b, path, "").value, chars)
  {
    BuiltIsFree(base, b, path, chars);
    TextIsFree(b.scheme, b.authority, BuiltPath(b, Segments(path).value), chars);
  }

  lemma {:induction false} RebasedIsFree(b: UriBuilder, uri: string, other: string, chars: set<char>)
    requires Rebase(b, uri, other).Done? && Rebase(b, uri, other).value.Some?
    requires chars == UNSAFE || chars == {'#', '?'}
    ensures FreeOf(Rebase(b, uri, other).value.value, chars)
  {
    BelowIsFree(b, uri, chars);
    BuiltTextIsFree(other, Join(Below(b, uri).value, '/'), chars);
  }

  lemma {:induction false} TextIsFree(scheme: string, authority: string, path: string, chars: set<char>)
    requires IsScheme(scheme) && FreeOf(authority, {'/', '?', '#'}) && FreeOf(authority, UNSAFE) && FreeOf(path, chars)
    requires chars == UNSAFE || chars == {'#', '?'}
    ensures FreeOf(UrlUnsplit(scheme, authority, path, ""), chars)
  {
    SchemeIsFree(scheme, chars);
    WrittenIsFree(scheme, authority, path, chars);
    var slashes := if HasSlashes(scheme, authority, path) then "//" + authority else "";
    FreeJoin("//", authority, chars);
    FreeJoin(slashes, WrittenPath(scheme, authority, path) + "", chars);
    FreeJoin(scheme + ":", slashes + (WrittenPath(scheme, authority, path) + ""), chars);
  }

  lemma {:induction false} SchemeIsFree(scheme: string, chars: set<char>)
    requires IsScheme(scheme) && (chars == UNSAFE || chars == {'#', '?'})
    ensures FreeOf(scheme + ":", chars)
  {
    forall c | c in scheme
      ensures SchemeChar(c)
    {
    }
  }

  lemma {:induction false} SegmentsHave(path: string, c: char) returns (i: nat)
    requires Segments(path).Done? && c in path && c != '/'
    ensures i < |Segments(path).value| && c in Segments(path).value[i]
  {
    var parts := Split(path, '/');
    JoinOfSplit(path, '/');
    JoinFrom(parts, '/', c);
    var k :| 0 <= k < |parts| && c in parts[k];
    i := if parts[0] == "" then k - 1 else k;
  }

  lemma {:induction false} BuiltPathHas(b: UriBuilder, path: string, c: char)
    requires Segments(path).Done? && c in path && c != '/'
    ensures c in BuiltPath(b, Segments(path).value)
  {
    var segments := Segments(path).value;
    var i := SegmentsHave(path, c);
    var parts := b.head + BuildTail(b, segments);
    assert parts[|b.head| + i] == segments[i];
    JoinHas(parts, Sep(b.scheme), |b.head| + i, c);
  }

  lemma {:induction false} BuiltTextHas(b: UriBuilder, path: string, c: char)
    requires Segments(path).Done? && c in path && c != '/'
    ensures c in Build(b, path, "").value
  {
    BuiltPathHas(b, path, c);
    assert c in WrittenPath(b.scheme, b.authority, BuiltPath(b, Segments(path).value));
  }

  /** A character that a path loses is missing in whatever is rebased. */
  lemma {:induction false} UncleanIsLost(b: UriBuilder, uri: string, other: string, path: string)
    requires NewBuilder(other).Some? && Segments(path).Done? && !Clean(path)
    ensures Rebase(b, uri, other) != Done(Some(Build(NewBuilder(other).value, path, "").value))
  {
    var chars := if FreeOf(path, UNSAFE) then {'#', '?'} else UNSAFE;
    var c :| c in path && c in chars;
    BuiltTextHas(NewBuilder(other).value, path, c);
    var r := Rebase(b, uri, other);
    if r.Done? && r.value.Some? {
      RebasedIsFree(b, uri, other, chars);
    }
  }

  /** A relative path gets a slash in front that the base does not have. */
  lemma {:induction false} RelativeIsRefused(base: SplitUri, b: UriBuilder, path: string, query: Query)
    requires IsBuilder(base, b) && Segments(path).Done? && Plain(Segments(path).value) && Clean(path)
    requires base.authority == "" && base.scheme in USES_AUTHORITY && base.path != "" && base.path[0] != '/'
    ensures Below(b, Build(b, path, query).value) == None
  {
    var built := BuiltPath(b, Segments(path).value);
    SplitOfBuilt(base, b, path, query);
    SchemeIsNoUrn(base.scheme);
    BuiltSlashes(base, b, Segments(path).value);
    BuiltIsRelative(base, b, Segments(path).value);
    RefusedByHead(b, Build(b, path, query).value, built);
  }

  lemma {:induction false} RefusedByHead(b: UriBuilder, uri: string, built: string)
    requires UrlSplit(uri).path == "/" + built && Sep(b.scheme) == '/' && b.head != [] && b.head[0] != ""
    ensures Below(b, uri) == None
  {
    SplitOfHead("", built, '/');
    assert "" + ['/'] + built == "/" + built;
  }

  lemma {:induction false} BuiltIsRelative(base: SplitUri, b: UriBuilder, segments: seq<string>)
    requires IsBuilder(base, b) && Plain(segments) && Sep(base.scheme) == '/' && base.path != "" && base.path[0] != '/'
    ensures b.head != [] && b.head[0] != "" && BuiltPath(b, segments) != "" && BuiltPath(b, segments)[0] != '/'
  {
    JoinOfSplit(base.path, '/');
    var own := Split(base.path, '/');
    assert own[0] != "" && b.head[0] == own[0];
    assert BuiltPath(b, segments)[0] == own[0][0];
  }

  lemma {:induction false} SchemeIsNoUrn(scheme: string)
    requires IsScheme(scheme) && scheme in USES_AUTHORITY
    ensures Sep(scheme) == '/'
  {
  }

  lemma {:induction false} EmptyByTwos(parts: seq<string>, n: nat, i: nat)
    requires n + 2 <= |parts| && parts[0] == "" && parts[1] == ""
    requires forall k :: 0 <= k < n ==> parts[k] == parts[k + 2]
    requires i <= n + 1
    ensures parts[i] == ""
  {
    if i >= 2 {
      EmptyByTwos(parts, n, i - 2);
    }
  }

  lemma {:induction false} NotBehindItself(parts: seq<string>, n: nat)
    requires 2 <= n < |parts| && parts[0] == "" && parts[1] == "" && parts[n] != ""
    ensures !(parts[..n] <= parts[2..])
  {
    if parts[..n] <= parts[2..] {
      forall k | 0 <= k < n
        ensures parts[k] == parts[k + 2]
      {
        assert parts[..n][k] == parts[2..][k];
      }
      EmptyByTwos(parts, n, n);
    }
  }

  lemma {:induction false} WithoutTwoSlashes(parts: seq<string>)
    requires |parts| >= 3 && parts[0] == "" && parts[1] == "" && forall i :: 0 <= i < |parts| ==> '/' !in parts[i]
    ensures |Join(parts, '/')| >= 2 && Split(Join(parts, '/')[2..], '/') == parts[2..]
  {
    JoinWithEmptyFirst(parts[1..], '/');
    JoinWithEmptyFirst(parts[2..], '/');
    assert parts == [""] + parts[1..] && parts[1..] == [""] + parts[2..];
    assert Join(parts, '/')[2..] == Join(parts[2..], '/');
    SplitOfJoin(parts[2..], '/');
  }

  lemma {:induction false} ShorterFirst(parts: seq<string>)
    requires parts != [] && TwoSlashes(parts[0]) && forall i :: 0 <= i < |parts| ==> ':' !in parts[i]
    ensures |Join(parts, ':')| >= 2 && Split(Join(parts, ':')[2..], ':')[0] == parts[0][2..]
  {
    var shorter := [parts[0][2..]] + parts[1..];
    assert shorter[1..] == parts[1..];
    assert Join(parts, ':')[2..] == Join(shorter, ':');
    SplitOfJoin(shorter, ':');
  }

  /** What is left of a built path when its first two slashes are taken for those of an authority
      does not start with the builder's head. */
  lemma {:induction false} HeadIsLost(base: SplitUri, b: UriBuilder, segments: seq<string>)
    requires IsBuilder(base, b) && Plain(segments) && TwoSlashes(base.path) && TwoSlashes(BuiltPath(b, segments))
    ensures !(b.head <= Split(BuiltPath(b, segments)[2..], Sep(b.scheme)))
  {
    var sep := Sep(b.scheme);
    var own := Split(base.path, sep);
    var parts := b.head + BuildTail(b, segments);
    JoinOfSplit(base.path, sep);
    if sep == '/' {
      TwoSlashesOfJoin(own);
      TwoSlashesOfJoin(parts);
      WithoutTwoSlashes(parts);
      assert parts[|b.head|] == segments[0] && parts[..|b.head|] == b.head;
      NotBehindItself(parts, |b.head|);
    } else {
      TwoSlashesInFirst(own);
      ShorterFirst(parts);
      assert parts[0] == own[0] == b.head[0];
    }
  }

  /** A path that reads like an authority is cut short, or taken for another authority. */
  lemma {:induction false} SlashesAreRefused(base: SplitUri, b: UriBuilder, path: string, query: Query)
    requires IsBuilder(base, b) && Segments(path).Done? && Plain(Segments(path).value) && Clean(path)
    requires base.authority == "" && TwoSlashes(base.path)
    ensures Below(b, Build(b, path, query).value) == None
  {
    var built := BuiltPath(b, Segments(path).value);
    BuiltIsFree(base, b, path, UNSAFE);
    BuiltIsFree(base, b, path, {'#', '?'});
    BuiltSlashes(base, b, Segments(path).value);
    HeadIsLost(base, b, Segments(path).value);
    CutShort(b.scheme, built, query, built + WrittenQuery(query));
  }

  lemma {:induction false} TextWithoutSlashes(scheme: string, path: string, query: Query)
    requires TwoSlashes(path)
    ensures UrlUnsplit(scheme, "", path, query) == scheme + ":" + (path + WrittenQuery(query))
  {
    assert "" + (path + WrittenQuery(query)) == path + WrittenQuery(query);
  }

  lemma {:induction false} CutShort(scheme: string, path: string, query: Query, end: string)
    requires IsScheme(scheme) && Clean(path) && TwoSlashes(path) && end == path + WrittenQuery(query)
    ensures
      var u := UrlSplit(UrlUnsplit(scheme, "", path, query));
      u.authority != "" || u.path == path[2..]
  {
    QueryIsSafe(query);
    FreeJoin(path, WrittenQuery(query), UNSAFE);
    TextWithoutSlashes(scheme, path, query);
    SchemeIsCut(scheme, end);
    CutShortRest(scheme, path, query, end);
  }

  lemma {:induction false} CutShortRest(scheme: string, path: string, query: string, end: string)
    requires TwoSlashes(path) && FreeOf(path, {'#', '?'}) && FreeOf(query, {'#'}) && end == path + WrittenQuery(query)
    ensures SplitRest(scheme, end).authority != "" || SplitRest(scheme, end).path == path[2..]
  {
    var (authority, rest) := CutAuthority(end);
    if authority == "" {
      assert end[2..] == path[2..] + WrittenQuery(query);
      assert forall c :: c in path[2..] ==> c in path;
      PathIsCut(scheme, end, "", path[2..], query);
    }
  }

  /** Whatever is built on a base that cannot be restored is refused. */
  lemma {:induction false} UnrestorableRefuses(base: string, other: string, path: string, query: Query)
    requires NewBuilder(base).Some? && !Restorable(UrlSplit(base))
    requires Segments(path).Done? && Plain(Segments(path).value) && Clean(path)
    ensures var b := NewBuilder(base).value; Rebase(b, Build(b, path, query).value, other) == Done(None)
  {
    var (b, u) := (NewBuilder(base).value, UrlSplit(base));
    BuilderIsBuilder(base);
    if TwoSlashes(u.path) {
      SlashesAreRefused(u, b, path, query);
    } else {
      RelativeIsRefused(u, b, path, query);
    }
  }

  /** A URI built on one base and rebased onto another is what the other base builds, whatever the
      query, if and only if the first base can be restored and the path has no character that is
      lost in a URI: a hash, a question mark, a tab or an end of line. */
  lemma {:induction false} RebaseInvertsBuildIff(base: string, other: string, path: string, query: Query)
    requires NewBuilder(base).Some? && NewBuilder(other).Some?
    requires Segments(path).Done? && Plain(Segments(path).value)
    ensures
      var (b, c) := (NewBuilder(base).value, NewBuilder(other).value);
      && Build(b, path, query).Done? && Build(c, path, "").Done?
      && (Rebase(b, Build(b, path, query).value, other) == Done(Some(Build(c, path, "").value))
          <==> Restorable(UrlSplit(base)) && Clean(path))
  {
    var (b, u) := (NewBuilder(base).value, UrlSplit(base));
    BuilderIsBuilder(base);
    if !Clean(path) {
      UncleanIsLost(b, Build(b, path, query).value, other, path);
    } else if Restorable(u) {
      RestoredWhenClean(u, b, other, path, query);
    } else {
      UnrestorableRefuses(base, other, path, query);
    }
  }

  lemma {:induction false} HashBehindAuthority(s: string)
    requires '#' in s
    ensures '#' in CutAuthority(s).1
    ensures var end := CutAuthority(s).1; end[|end| - 1] == s[|s| - 1]
  {
    var h :| 0 <= h < |s| && s[h] == '#';
    if TwoSlashes(s) {
      var n := Find(s[2..], {'/', '?', '#'});
      assert s[2..][h - 2] == '#';
      assert s[2..][n..][h - 2 - n] == '#';
    }
  }

  lemma {:induction false} HashIsFragment(s: string)
    requires '#' in s
    ensures CutAt(s, '#').1 != "" || s[|s| - 1] == '#'
  {
    var h :| 0 <= h < |s| && s[h] == '#';
    assert Find(s, {'#'}) <= h;
  }

  /** A text with a hash has a fragment, be it an empty one. */
  lemma {:induction false} HashMeansRefused(b: UriBuilder, scheme: string, rest: string)
    requires IsScheme(scheme) && FreeOf(rest, UNSAFE) && '#' in rest
    ensures Below(b, scheme + ":" + rest) == None
  {
    SchemeIsCut(scheme, rest);
    RestWithHashIsRefused(b, scheme, rest, scheme + ":" + rest);
  }

  lemma {:induction false} RestWithHashIsRefused(b: UriBuilder, scheme: string, rest: string, uri: string)
    requires '#' in rest && uri == scheme + ":" + rest && UrlSplit(uri) == SplitRest(scheme, rest)
    ensures Below(b, uri) == None
  {
    HashInRest(scheme, rest);
    if EndsInHash(rest) {
      EndStays(scheme + ":", rest);
    }
    RefusedWithHash(b, uri);
  }

  lemma {:induction false} RefusedWithHash(b: UriBuilder, uri: string)
    requires UrlSplit(uri).fragment != "" || EndsInHash(uri)
    ensures Below(b, uri) == None
  {
  }

  lemma {:induction false} EndStays(s: string, t: string)
    requires EndsInHash(t)
    ensures EndsInHash(s + t)
  {
  }

  lemma {:induction false} HashInRest(scheme: string, rest: string)
    requires '#' in rest
    ensures SplitRest(scheme, rest).fragment != "" || EndsInHash(rest)
  {
    HashBehindAuthority(rest);
    HashIsFragment(CutAuthority(rest).1);
  }

  lemma {:induction false} BuiltHashIsRefused(base: string, path: string)
    requires NewBuilder(base).Some? && Segments(path).Done? && FreeOf(path, UNSAFE) && '#' in path
    ensures var b := NewBuilder(base).value; Below(b, Build(b, path, "").value) == None
  {
    var b := NewBuilder(base).value;
    BuilderIsBuilder(base);
    BuiltIsFree(UrlSplit(base), b, path, UNSAFE);
    BuiltPathHas(b, path, '#');
    HashWrittenIsRefused(b, BuiltPath(b, Segments(path).value));
  }

  lemma {:induction false} HashWrittenIsRefused(b: UriBuilder, built: string)
    requires IsScheme(b.scheme) && FreeOf(b.authority, UNSAFE) && FreeOf(built, UNSAFE) && '#' in built
    ensures Below(b, UrlUnsplit(b.scheme, b.authority, built, "")) == None
  {
    WrittenIsFree(b.scheme, b.authority, built, UNSAFE);
    var slashes := if HasSlashes(b.scheme, b.authority, built) then "//" + b.authority else "";
    var end := WrittenPath(b.scheme, b.authority, built) + WrittenQuery("");
    FreeJoin("//", b.authority, UNSAFE);
    FreeJoin(slashes, end, UNSAFE);
    assert '#' in end;
    HashMeansRefused(b, b.scheme, slashes + end);
  }

  lemma {:induction false} OneSegment(path: string)
    requires path != "" && '/' !in path
    ensures Segments(path) == Done([path])
  {
    SplitOfHead(path, "", '/');
  }

  lemma {:induction false} HashSegmentIsRefused(base: string, other: string, path: string)
    requires NewBuilder(base).Some?
    requires path != "" && '/' !in path && '#' in path && FreeOf(path, UNSAFE)
    ensures Segments(path) == Done([path])
    ensures var b := NewBuilder(base).value; Rebase(b, Build(b, path, "").value, other) == Done(None)
  {
    OneSegment(path);
    BuiltHashIsRefused(base, path);
  }

  /** The path "a#b" is refused on every base. */
  lemma {:induction false} HashIsRefused(base: string, other: string, path: string)
    requires NewBuilder(base).Some? && path == "a#b"
    ensures Segments(path) == Done([path]) && Plain([path])
    ensures var b := NewBuilder(base).value; Rebase(b, Build(b, path, "").value, other) == Done(None)
  {
    HashPath(path);
    HashSegmentIsRefused(base, other, path);
  }

  lemma {:induction false} HashPath(path: string)
    requires path == "a#b"
    ensures path != "" && '/' !in path && '#' in path && FreeOf(path, UNSAFE) && Plain([path])
  {
  }

  // ---- Concrete bases that refuse what is built on them

  lemma {:induction false} BaseOf(base: string, scheme: string, rest: string, path: string)
    requires IsScheme(scheme) && Clean(rest) && base == scheme + ":" + rest
    requires CutAuthority(rest) == ("", path)
    ensures UrlSplit(base) == SplitUri(scheme, "", path, "", "") && NewBuilder(base).Some?
  {
    SchemeIsCut(scheme, rest);
    forall c | c in path
      ensures c in rest
    {
    }
    assert path + WrittenQuery("") == path;
    PathIsCut(scheme, rest, "", path, "");
    NoHashAtEnd(scheme + ":", rest);
  }

  lemma {:induction false} NoHashAtEnd(s: string, t: string)
    requires s != "" && s[|s| - 1] != '#' && '#' !in t
    ensures !EndsInHash(s + t)
  {
    assert t != "" ==> t[|t| - 1] in t;
  }

  /** The base "http:a" refuses whatever is built on it. */
  lemma {:induction false} RelativeBaseRefuses(base: string, other: string, path: string, query: Query)
    requires base == "http:a"
    requires Segments(path).Done? && Plain(Segments(path).value) && Clean(path)
    ensures NewBuilder(base).Some?
    ensures var b := NewBuilder(base).value; Rebase(b, Build(b, path, query).value, other) == Done(None)
  {
    RelativeBase(base);
    UnrestorableRefuses(base, other, path, query);
  }

  lemma {:induction false} RelativeBase(base: string)
    requires base == "http:a"
    ensures NewBuilder(base).Some? && !Restorable(UrlSplit(base))
  {
    var scheme, rest := "http", "a";
    SmallBase(scheme, rest);
    BaseOf(base, scheme, rest, rest);
  }

  lemma {:induction false} SmallBase(scheme: string, rest: string)
    requires (scheme == "http" && rest == "a") || (scheme == "x" && rest == "//a")
    ensures IsScheme(scheme) && Clean(rest)
  {
  }

  /** The base "x:////a", whose path starts with two slashes behind an empty authority, does so too. */
  lemma {:induction false} SlashedBaseRefuses(base: string, other: string, path: string, query: Query)
    requires base == "x:////a"
    requires Segments(path).Done? && Plain(Segments(path).value) && Clean(path)
    ensures NewBuilder(base).Some?
    ensures var b := NewBuilder(base).value; Rebase(b, Build(b, path, query).value, other) == Done(None)
  {
    SlashedBase(base);
    UnrestorableRefuses(base, other, path, query);
  }

  lemma {:induction false} SlashedBase(base: string)
    requires base == "x:////a"
    ensures NewBuilder(base).Some? && !Restorable(UrlSplit(base))
  {
    var scheme, slashed := "x", "//a";
    SmallBase(scheme, slashed);
    SlashedBaseOf(base, scheme, slashed);
  }

  lemma {:induction false} SlashedBaseOf(base: string, scheme: string, slashed: string)
    requires IsScheme(scheme) && Clean(slashed) && TwoSlashes(slashed) && base == scheme + ":" + ("//" + slashed)
    ensures NewBuilder(base).Some? && !Restorable(UrlSplit(base))
  {
    var rest := "//" + slashed;
    assert rest == "//" + "" + slashed;
    AuthorityIsCut("", slashed);
    BaseOf(base, scheme, rest, slashed);
  }
}
