/** What the builder of test URIs accepts, writes and refuses, on texts
    (testdrive/src/testdrive/uri.py). */
module UriBuilding {
  import opened Outcomes
  import opened Uri

  // ---- Which bases are accepted

  /** Only the very last character may be a question mark. */
  predicate NoQuery(rest: string) {
    forall i :: 0 <= i < |rest| - 1 ==> rest[i] != '?'
  }

  /** A text with a scheme is a base if and only if it has no hash, and no question mark but at its end. */
  lemma {:induction false} AcceptedIff(scheme: string, rest: string)
    requires IsScheme(scheme) && FreeOf(rest, UNSAFE)
    ensures NewBuilder(scheme + ":" + rest).Some? <==> '#' !in rest && NoQuery(rest)
  {
    var base := scheme + ":" + rest;
    SchemeIsCut(scheme, rest);
    if '#' in rest {
      HashInRest(scheme, rest);
      if EndsInHash(rest) {
        EndStays(scheme + ":", rest);
      }
    } else {
      NoHashAtEnd(scheme + ":", rest);
      QueryOfRest(scheme, rest);
    }
  }

  lemma {:induction false} QueryOfRest(scheme: string, rest: string)
    requires '#' !in rest
    ensures SplitRest(scheme, rest).fragment == ""
    ensures SplitRest(scheme, rest).query == "" <==> NoQuery(rest)
  {
    var (authority, end) := CutAuthority(rest);
    var n := |rest| - |end|;
    assert rest[n..] == end && forall i :: 0 <= i < n ==> rest[i] != '?' by {
      AuthorityHasNoMark(rest);
    }
    FindIs(end, {'#'}, |end|);
    assert end[..|end|] == end;
    QueryIff(end);
    assert NoQuery(rest) <==> NoQuery(end) by {
      if NoQuery(end) {
        forall i | 0 <= i < |rest| - 1
          ensures rest[i] != '?'
        {
          assert i >= n ==> rest[i] == end[i - n];
        }
      }
      if NoQuery(rest) {
        forall i | 0 <= i < |end| - 1
          ensures end[i] != '?'
        {
          assert end[i] == rest[n + i];
        }
      }
    }
  }

  lemma {:induction false} AuthorityHasNoMark(rest: string)
    ensures
      var n := |rest| - |CutAuthority(rest).1|;
      n >= 0 && rest[n..] == CutAuthority(rest).1 && forall i :: 0 <= i < n ==> rest[i] != '?'
  {
    if TwoSlashes(rest) {
      var k := Find(rest[2..], {'/', '?', '#'});
      assert rest[2..][k..] == rest[2 + k..];
      forall i | 0 <= i < 2 + k
        ensures rest[i] != '?'
      {
        assert i >= 2 ==> rest[i] == rest[2..][i - 2];
      }
    } else {
      assert rest[0..] == rest;
    }
  }

  lemma {:induction false} QueryIff(end: string)
    ensures CutAt(end, '?').1 == "" <==> NoQuery(end)
  {
    var n := Find(end, {'?'});
    assert n < |end| ==> end[n] == '?';
  }

  /** Without a colon there is no scheme, and no base. */
  lemma {:induction false} NeedsScheme(text: string)
    requires ':' !in text
    ensures NewBuilder(text) == None
  {
    var s := WithoutUnsafe(WithoutLeading(text));
    FindIs(s, {':'}, |s|);
  }

  // ---- What is written

  lemma {:induction false} JoinConcat(s: seq<string>, t: seq<string>, sep: char)
    requires s != [] && t != []
    ensures Join(s + t, sep) == Join(s, sep) + [sep] + Join(t, sep)
  {
    if |s| == 1 {
      assert (s + t)[1..] == t;
    } else {
      assert (s + t)[1..] == s[1..] + t;
      JoinConcat(s[1..], t, sep);
    }
  }

  lemma {:induction false} LastOfSplit(s: string, sep: char)
    requires s != "" && s[|s| - 1] != sep
    ensures var parts := Split(s, sep); parts[|parts| - 1] != ""
  {
    if |s| > 1 {
      LastOfSplit(s[1..], sep);
    }
  }

  /** The path of the base, the separator, and the segments. */
  lemma {:induction false} BuiltBehind(path: string, scheme: string, authority: string, segments: seq<string>)
    requires path != "" && path[|path| - 1] != Sep(scheme) && segments != []
    ensures
      var b := UriBuilder(scheme, authority, WithoutEmptyLast(Split(path, Sep(scheme))));
      BuiltPath(b, segments) == path + [Sep(scheme)] + Join(BuildTail(b, segments), Sep(scheme))
  {
    var sep := Sep(scheme);
    var b := UriBuilder(scheme, authority, WithoutEmptyLast(Split(path, sep)));
    LastOfSplit(path, sep);
    JoinOfSplit(path, sep);
    JoinConcat(b.head, BuildTail(b, segments), sep);
  }

  /** To a URN the segments of a path are appended with colons. */
  lemma {:induction false} UrnIsExtended(base: string, name: string, path: string)
    requires base == "urn" + ":" + name && Clean(name) && name != "" && !TwoSlashes(name) && name[|name| - 1] != ':'
    requires Segments(path).Done? && Segments(path).value != []
    ensures NewBuilder(base).Some?
    ensures Build(NewBuilder(base).value, path, "") == Done(base + ":" + Join(Segments(path).value, ':'))
  {
    var scheme := "urn";
    UrnScheme(scheme);
    BaseOf(base, scheme, name, name);
    BuiltBehind(name, scheme, "", Segments(path).value);
    WrittenUrn(scheme, name, name + [':'] + Join(Segments(path).value, ':'), base, Join(Segments(path).value, ':'));
  }

  lemma {:induction false} UrnScheme(scheme: string)
    requires scheme == "urn"
    ensures IsScheme(scheme) && Sep(scheme) == ':' && scheme !in USES_AUTHORITY
  {
  }

  lemma {:induction false} WrittenUrn(scheme: string, name: string, built: string, base: string, joined: string)
    requires scheme !in USES_AUTHORITY && built == name + [':'] + joined && base == scheme + ":" + name
    ensures UrlUnsplit(scheme, "", built, "") == base + ":" + joined
  {
    assert WrittenPath(scheme, "", built) == built;
    assert "" + (built + "") == built;
    assert scheme + ":" + (name + [':'] + joined) == scheme + ":" + name + ":" + joined;
  }

  /** To a URL with an authority they are appended with slashes, and one more at the end. */
  lemma {:induction false} UrlIsExtended(base: string, scheme: string, authority: string, name: string, path: string)
    requires IsScheme(scheme) && Sep(scheme) == '/' && base == scheme + ":" + ("//" + authority + name)
    requires FreeOf(authority, {'/', '?', '#'}) && FreeOf("//" + authority, UNSAFE) && authority != ""
    requires Clean(name) && name != "" && name[0] == '/' && name[|name| - 1] != '/'
    requires Segments(path).Done? && Segments(path).value != []
    ensures NewBuilder(base).Some?
    ensures Build(NewBuilder(base).value, path, "") == Done(base + "/" + Join(Segments(path).value, '/') + "/")
  {
    var segments := Segments(path).value;
    assert name + WrittenQuery("") == name;
    SplitWithAuthority(scheme, authority, name, "", name);
    UrlHasNoHash(base, scheme, authority, name);
    BuiltBehind(name, scheme, authority, segments);
    JoinConcat(segments, [""], '/');
    WrittenUrl(scheme, authority, name, Join(segments, '/'), base);
  }

  lemma {:induction false} UrlHasNoHash(base: string, scheme: string, authority: string, name: string)
    requires base == scheme + ":" + ("//" + authority + name) && FreeOf(authority, {'/', '?', '#'}) && Clean(name)
    ensures !EndsInHash(base)
  {
    var end := "//" + authority + name;
    assert forall c :: c in end ==> c == '/' || c in authority || c in name;
    NoHashAtEnd(scheme + ":", end);
  }

  lemma {:induction false} WrittenUrl(scheme: string, authority: string, name: string, joined: string, base: string)
    requires authority != "" && name != "" && name[0] == '/' && base == scheme + ":" + ("//" + authority + name)
    ensures UrlUnsplit(scheme, authority, name + ['/'] + (joined + ['/'] + ""), "") == base + "/" + joined + "/"
  {
    var built := name + ['/'] + (joined + ['/'] + "");
    assert WrittenPath(scheme, authority, built) == built && built + "" == built;
    assert built == name + "/" + joined + "/";
    assert scheme + ":" + ("//" + authority + (name + "/" + joined + "/"))
        == scheme + ":" + ("//" + authority + name) + "/" + joined + "/";
  }

  // ---- Which URIs are rebased

  /** The parts of the path that a builder writes; the empty path of an authority gets a slash. */
  function WrittenParts(c: UriBuilder, segments: seq<string>): seq<string> {
    Split(WrittenPath(c.scheme, c.authority, BuiltPath(c, segments)), Sep(c.scheme))
  }

  /** A URI built on one base is refused by another, if and only if it has another scheme, another
      authority, or a path that does not start with the parts of that base. */
  lemma {:induction false} RefusedIff(base: string, origin: string, other: string, path: string, query: Query)
    requires NewBuilder(base).Some? && NewBuilder(origin).Some? && NewBuilder(other).Some?
    requires Segments(path).Done? && Plain(Segments(path).value) && Clean(path) && Restorable(UrlSplit(origin))
    ensures
      var (b, c) := (NewBuilder(base).value, NewBuilder(origin).value);
      Rebase(b, Build(c, path, query).value, other) == Done(None) <==>
        b.scheme != c.scheme || b.authority != c.authority || !(b.head <= WrittenParts(c, Segments(path).value))
  {
    var (b, c) := (NewBuilder(base).value, NewBuilder(origin).value);
    BuilderIsBuilder(base);
    BuilderIsBuilder(origin);
    SplitOfBuilt(UrlSplit(origin), c, path, query);
    var uri := Build(c, path, query).value;
    RebaseRefusesIff(b, uri, other);
    BelowIff(b, c, Segments(path).value, uri, query);
  }

  lemma {:induction false} RebaseRefusesIff(b: UriBuilder, uri: string, other: string)
    requires NewBuilder(other).Some?
    ensures Rebase(b, uri, other) == Done(None) <==> Below(b, uri) == None
  {
  }

  lemma {:induction false} BelowIff(b: UriBuilder, c: UriBuilder, segments: seq<string>, uri: string, query: string)
    requires IsScheme(b.scheme) && IsScheme(c.scheme) && !EndsInHash(uri)
    requires UrlSplit(uri) ==
      SplitUri(c.scheme, c.authority, WrittenPath(c.scheme, c.authority, BuiltPath(c, segments)), query, "")
    ensures Below(b, uri) == None <==>
      b.scheme != c.scheme || b.authority != c.authority || !(b.head <= WrittenParts(c, segments))
  {
  }
}
