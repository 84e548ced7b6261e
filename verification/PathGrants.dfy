/**
 * Path authorization (src/auth/issuance.ts): a resource URI is authorized by a grant whose path
 * prefix is compared as text with a boundary slash, which is shown to be the comparison of
 * segment lists. URLs are taken as already parsed; None is one that does not parse.
 */
module PathGrants {
  import opened Basics

  datatype Url = Url(protocol: string, username: string, password: string, origin: string, pathname: string, search: string, hash: string)

  datatype Grant = Grant(origin: Option<Url>, pathPrefix: string)

  // ---------------------------------------------------------------- paths as segments

  predicate Segment(s: string) { s != "" && '/' !in s }

  function SlashAt(s: string): (i: nat)
    ensures i <= |s| && '/' !in s[..i] && (i < |s| ==> s[i] == '/')
    decreases |s|
  {
    if s == "" || s[0] == '/' then 0
    else
      var i := SlashAt(s[1..]) + 1;
      assert s[..i] == [s[0]] + s[1..][..i-1];
      i
  }

  // split("/"), without the empty segments.
  function Segments(s: string): (r: seq<string>)
    ensures forall t :: t in r ==> Segment(t)
    decreases |s|
  {
    if s == "" then []
    else if s[0] == '/' then Segments(s[1..])
    else [s[..SlashAt(s)]] + Segments(s[SlashAt(s)..])
  }

  // Each segment after a slash.
  function Slashed(segments: seq<string>): string
    decreases |segments|
  {
    if segments == [] then "" else "/" + (segments[0] + Slashed(segments[1..]))
  }

  function PathOf(segments: seq<string>): string { if segments == [] then "/" else Slashed(segments) }

  predicate DoubleSlash(s: string) { exists i :: 0 <= i < |s| - 1 && s[i] == '/' && s[i+1] == '/' }

  predicate PlainText(s: string) { '%' !in s && '\\' !in s && '\0' !in s }

  predicate NoDots(segments: seq<string>) { "." !in segments && ".." !in segments }

  /** A path that cannot be read in two ways. */
  predicate CleanPath(s: string) {
    s != "" && s[0] == '/' && PlainText(s) && !DoubleSlash(s) && NoDots(Segments(s))
  }

  function Normalized(pathname: string): Option<string> {
    if CleanPath(pathname) then Some(PathOf(Segments(pathname))) else None
  }

  /** normalizeAuthorizedPath */
  method NormalizeAuthorizedPath(pathname: string) returns (r: Option<string>)
    ensures r == Normalized(pathname)
  {
    if pathname == "" || pathname[0] != '/' { return None; }
    if '%' in pathname || '\\' in pathname || '\0' in pathname { return None; }
    if DoubleSlash(pathname) { return None; }
    var segments := Segments(pathname);
    var i := 0;
    while i < |segments|
      invariant 0 <= i <= |segments|
      invariant forall j :: 0 <= j < i ==> segments[j] != "." && segments[j] != ".."
    {
      if segments[i] == "." || segments[i] == ".." { return None; }
      i := i + 1;
    }
    return Some(if segments == [] then "/" else Slashed(segments));
  }

  // ---------------------------------------------------------------- segments of a joined path

  predicate Tail(s: string) { s == "" || s[0] == '/' }

  lemma SlashedIsTail(segments: seq<string>)
    ensures Tail(Slashed(segments)) && (Slashed(segments) == "" <==> segments == [])
  {
  }

  lemma {:induction false} SlashAfter(p: string, x: string)
    requires '/' !in p && Tail(x)
    ensures SlashAt(p + x) == |p|
    decreases |p|
  {
    if p == "" { assert p + x == x; }
    else {
      assert (p + x)[1..] == p[1..] + x;
      SlashAfter(p[1..], x);
    }
  }

  // A segment followed by the end or a slash is cut off in one way only.
  lemma SegmentCut(p: string, x: string, s: string, y: string)
    requires '/' !in p && '/' !in s && Tail(x) && Tail(y) && p + x == s + y
    ensures p == s && x == y
  {
    SlashAfter(p, x);
    SlashAfter(s, y);
    assert (p + x)[..|p|] == p && (s + y)[..|s|] == s;
    assert (p + x)[|p|..] == x && (s + y)[|s|..] == y;
  }

  lemma {:induction false} SegmentsOfSlashed(segments: seq<string>)
    requires forall t :: t in segments ==> Segment(t)
    ensures Segments(Slashed(segments)) == segments
    decreases |segments|
  {
    if segments != [] {
      var s, more := segments[0], segments[1..];
      assert s in segments && forall t :: t in more ==> t in segments;
      SegmentsOfSlashed(more);
      SlashedIsTail(more);
      SlashAfter(s, Slashed(more));
      var rest := s + Slashed(more);
      assert Slashed(segments)[1..] == rest;
      assert rest[..|s|] == s && rest[|s|..] == Slashed(more);
      assert rest[0] == s[0] && s[0] in s;
    }
  }

  lemma SegmentsOfPath(segments: seq<string>)
    requires forall t :: t in segments ==> Segment(t)
    ensures Segments(PathOf(segments)) == segments
  {
    if segments == [] { assert "/"[1..] == "" && Segments("/") == Segments(""); } else { SegmentsOfSlashed(segments); }
  }

  lemma {:induction false} SegmentsWithin(s: string, x: char)
    requires x !in s
    ensures forall t :: t in Segments(s) ==> x !in t
    decreases |s|
  {
    if s != "" {
      if s[0] == '/' { SegmentsWithin(s[1..], x); } else { SegmentsWithin(s[SlashAt(s)..], x); }
    }
  }

  lemma {:induction false} SlashedLacks(segments: seq<string>, x: char)
    requires x != '/' && forall t :: t in segments ==> x !in t
    ensures x !in Slashed(segments)
    decreases |segments|
  {
    if segments != [] {
      assert segments[0] in segments && forall t :: t in segments[1..] ==> t in segments;
      SlashedLacks(segments[1..], x);
    }
  }

  lemma {:induction false} SlashedSingle(segments: seq<string>)
    requires forall t :: t in segments ==> Segment(t)
    ensures !DoubleSlash(Slashed(segments))
    decreases |segments|
  {
    if segments != [] {
      var s, more := segments[0], segments[1..];
      assert s in segments && forall t :: t in more ==> t in segments;
      SlashedSingle(more);
      SingleJoin(s, Slashed(more));
    }
  }

  lemma SingleJoin(s: string, rest: string)
    requires Segment(s) && !DoubleSlash(rest)
    ensures !DoubleSlash("/" + (s + rest))
  {
    var t := "/" + (s + rest);
    forall i | 0 <= i < |t| - 1 ensures !(t[i] == '/' && t[i+1] == '/') {
      if i <= |s| {
        assert t[if i == 0 then 1 else i] == s[if i == 0 then 0 else i - 1];
      } else {
        assert t[i] == rest[i - |s| - 1] && t[i+1] == rest[i - |s|];
      }
    }
  }

  /** Normalization is idempotent and keeps the segments. */
  lemma NormalizationIsStable(pathname: string)
    requires Normalized(pathname).Some?
    ensures var q := Normalized(pathname).value;
            Normalized(q) == Some(q) && Segments(q) == Segments(pathname)
  {
    var segments := Segments(pathname);
    SegmentsOfPath(segments);
    SegmentsWithin(pathname, '%');
    SegmentsWithin(pathname, '\\');
    SegmentsWithin(pathname, '\0');
    SlashedLacks(segments, '%');
    SlashedLacks(segments, '\\');
    SlashedLacks(segments, '\0');
    SlashedSingle(segments);
  }

  /** Two clean paths normalize alike exactly when they have the same segments. */
  lemma NormalizedDetermines(a: string, b: string)
    requires CleanPath(a) && CleanPath(b)
    ensures Normalized(a) == Normalized(b) <==> Segments(a) == Segments(b)
  {
    SegmentsOfPath(Segments(a));
    SegmentsOfPath(Segments(b));
  }

  // ---------------------------------------------------------------- text prefix is segment prefix

  predicate TextPrefix(p: string, s: string) { p == s || p + "/" <= s }

  lemma {:induction false} PrefixOfSegments(ps: seq<string>, ss: seq<string>)
    requires (forall t :: t in ps ==> Segment(t)) && (forall t :: t in ss ==> Segment(t))
    ensures TextPrefix(Slashed(ps), Slashed(ss)) <==> ps <= ss
    decreases |ps|
  {
    SlashedIsTail(ps);
    SlashedIsTail(ss);
    if ps == [] {
      if ss != [] { assert "" + "/" <= Slashed(ss); }
    } else if ss != [] {
      var p, s, pr, sr := ps[0], ss[0], ps[1..], ss[1..];
      assert p in ps && s in ss && (forall t :: t in pr ==> t in ps) && (forall t :: t in sr ==> t in ss);
      PrefixOfSegments(pr, sr);
      SlashedIsTail(pr);
      SlashedIsTail(sr);
      HeadsAgree(p, Slashed(pr), s, Slashed(sr));
      assert ps == [p] + pr && ss == [s] + sr;
      assert ps <= ss <==> p == s && pr <= sr;
    } else {
      assert !(Slashed(ps) + "/" <= "");
    }
  }

  lemma HeadsAgree(p: string, x: string, s: string, y: string)
    requires Segment(p) && Segment(s) && Tail(x) && Tail(y)
    ensures TextPrefix("/" + (p + x), "/" + (s + y)) <==> p == s && TextPrefix(x, y)
  {
    var a, b := "/" + (p + x), "/" + (s + y);
    assert a[1..] == p + x && b[1..] == s + y;
    if a == b { SegmentCut(p, x, s, y); }
    if a + "/" <= b {
      var z := b[|a + "/"|..];
      assert b == (a + "/") + z;
      assert s + y == p + (x + "/" + z);
      SegmentCut(p, x + "/" + z, s, y);
      assert x + "/" <= y;
    }
    if p == s && x + "/" <= y {
      var z := y[|x| + 1..];
      assert y == (x + "/") + z;
      assert b == (a + "/") + z;
    }
  }

  // ---------------------------------------------------------------- authorization

  predicate PlainUrl(u: Url) { u.protocol == "https:" && u.username == "" && u.password == "" }

  function RawPrefix(g: Grant): string { if g.pathPrefix == "" then "/" else g.pathPrefix }

  predicate UsableGrant(g: Grant) {
    && g.origin.Some? && PlainUrl(g.origin.value)
    && g.origin.value.pathname == "/" && g.origin.value.search == "" && g.origin.value.hash == ""
    && CleanPath(RawPrefix(g))
  }

  /** The grant covers the URI: same origin, and its segments begin the URI's. */
  predicate Covers(g: Grant, u: Url) {
    UsableGrant(g) && g.origin.value.origin == u.origin && Segments(RawPrefix(g)) <= Segments(u.pathname)
  }

  predicate Authorized(uri: Option<Url>, grants: seq<Grant>) {
    && uri.Some? && PlainUrl(uri.value) && CleanPath(uri.value.pathname)
    && exists i :: 0 <= i < |grants| && Covers(grants[i], uri.value)
  }

  lemma TextPrefixIsCover(prefix: string, path: string)
    requires CleanPath(prefix) && CleanPath(path)
    ensures var p, s := Normalized(prefix).value, Normalized(path).value;
            (p == "/" || s == p || p + "/" <= s) <==> Segments(prefix) <= Segments(path)
  {
    var ps, ss := Segments(prefix), Segments(path);
    SegmentsOfPath(ps);
    SegmentsOfPath(ss);
    PrefixOfSegments(ps, ss);
    SlashedIsTail(ps);
    if ps != [] {
      assert PathOf(ps) != "/" by { SegmentsOfPath([]); }
      if ss == [] { assert |Slashed(ps)| >= 2; }
    }
  }

  /** resourceUriAuthorized */
  method ResourceUriAuthorized(uri: Option<Url>, grants: seq<Grant>) returns (authorized: bool)
    ensures authorized <==> Authorized(uri, grants)
  {
    if uri.None? { return false; }
    var parsed := uri.value;
    if parsed.username != "" || parsed.password != "" || parsed.protocol != "https:" { return false; }
    var path := NormalizeAuthorizedPath(parsed.pathname);
    if path.None? { return false; }
    var i := 0;
    while i < |grants|
      invariant 0 <= i <= |grants|
      invariant forall j :: 0 <= j < i ==> !Covers(grants[j], parsed)
    {
      var covers := GrantCovers(grants[i], parsed, path.value);
      if covers { return true; }
      i := i + 1;
    }
    return false;
  }

  // One turn of the loop over the grants.
  method GrantCovers(g: Grant, parsed: Url, path: string) returns (covers: bool)
    requires Normalized(parsed.pathname) == Some(path)
    ensures covers <==> Covers(g, parsed)
  {
    if g.origin.None? { return false; }
    var origin := g.origin.value;
    if origin.protocol != "https:" || origin.pathname != "/" || origin.search != "" || origin.hash != ""
       || origin.username != "" || origin.password != "" { return false; }
    if parsed.origin != origin.origin { return false; }
    var rawPrefix := if g.pathPrefix == "" then "/" else g.pathPrefix;
    if '%' in rawPrefix || '\\' in rawPrefix { return false; }
    var prefix := NormalizeAuthorizedPath(rawPrefix);
    if prefix.None? { return false; }
    TextPrefixIsCover(rawPrefix, parsed.pathname);
    if prefix.value == "/" { return true; }
    if path == prefix.value { return true; }
    var boundary := if prefix.value[|prefix.value| - 1] == '/' then prefix.value else prefix.value + "/";
    NoTrailingSlash(Segments(rawPrefix));
    covers := boundary <= path;
  }

  lemma {:induction false} NoTrailingSlash(segments: seq<string>)
    requires segments != [] && forall t :: t in segments ==> Segment(t)
    ensures var s := Slashed(segments); s != "" && s[|s| - 1] != '/'
    decreases |segments|
  {
    var s, more := segments[0], segments[1..];
    assert s in segments && forall t :: t in more ==> t in segments;
    if more == [] { assert Slashed(more) == ""; assert s[|s| - 1] in s; } else { NoTrailingSlash(more); }
  }
}
