/**
 * Path authorization (src/auth/issuance.ts) told on characters and positions: which paths are
 * refused, what an accepted one becomes, and when a grant covers a URI.
 */
module PathText {
  import opened Basics
  import opened PathGrants

  // After the slash at position i comes t, up to the next slash or the end.
  predicate StandsAt(s: string, i: int, t: string) {
    && 0 <= i && i + 1 + |t| <= |s| && s[i] == '/' && s[i + 1..i + 1 + |t|] == t
    && (i + 1 + |t| == |s| || s[i + 1 + |t|] == '/')
  }

  predicate Leads(s: string, t: string) { t <= s && (|t| == |s| || s[|t|] == '/') }

  ghost predicate Stands(s: string, t: string) { exists i :: StandsAt(s, i, t) }

  lemma ShiftOne(s: string, t: string, i: int)
    requires s != "" && i >= 0
    ensures StandsAt(s, i + 1, t) <==> StandsAt(s[1..], i, t)
  {
    if i + 2 + |t| <= |s| { assert s[1..][i + 1..i + 1 + |t|] == s[i + 2..i + 2 + |t|]; }
  }

  lemma AtStart(s: string, t: string)
    requires s != "" && s[0] == '/'
    ensures StandsAt(s, 0, t) <==> Leads(s[1..], t)
  {
    if 1 + |t| <= |s| { assert s[1..][..|t|] == s[1..1 + |t|]; }
  }

  // Past a slash.
  lemma StandsAfterSlash(s: string, t: string)
    requires s != "" && s[0] == '/'
    ensures Stands(s, t) <==> Leads(s[1..], t) || Stands(s[1..], t)
  {
    AtStart(s, t);
    if i :| StandsAt(s[1..], i, t) { ShiftOne(s, t, i); assert StandsAt(s, i + 1, t); }
    if i :| StandsAt(s, i, t) && i > 0 { ShiftOne(s, t, i - 1); assert StandsAt(s[1..], i - 1, t); }
  }

  lemma StandsAfterOther(s: string, t: string)
    requires s != "" && s[0] != '/'
    ensures Stands(s, t) <==> Stands(s[1..], t)
  {
    if i :| StandsAt(s[1..], i, t) { ShiftOne(s, t, i); assert StandsAt(s, i + 1, t); }
    if i :| StandsAt(s, i, t) { ShiftOne(s, t, i - 1); assert StandsAt(s[1..], i - 1, t); }
  }

  // Past a whole segment.
  lemma {:induction false} StandsAfterSegment(s: string, t: string)
    ensures Stands(s, t) <==> Stands(s[SlashAt(s)..], t)
    decreases |s|
  {
    if s != "" && s[0] != '/' {
      StandsAfterOther(s, t);
      StandsAfterSegment(s[1..], t);
      assert s[SlashAt(s)..] == s[1..][SlashAt(s[1..])..];
    } else {
      assert s[0..] == s;
    }
  }

  lemma FirstSegment(s: string, t: string)
    requires s != "" && s[0] != '/' && Segment(t)
    ensures t == s[..SlashAt(s)] <==> Leads(s, t)
    ensures !Leads(s[SlashAt(s)..], t)
  {
    var k := SlashAt(s);
    forall i | 0 <= i < |t| ensures t[i] != '/' { assert t[i] in t; }
    forall i | 0 <= i < k ensures s[i] != '/' { assert s[i] in s[..k]; }
    if Leads(s, t) { assert s[..|t|] == t; }
  }

  // A list without empty parts holds t exactly when t leads the text or stands in it.
  lemma {:induction false} SegmentsStand(s: string, t: string)
    requires Segment(t)
    ensures t in Segments(s) <==> Leads(s, t) || Stands(s, t)
    decreases |s|
  {
    if s != "" {
      if s[0] == '/' {
        SegmentsStand(s[1..], t);
        StandsAfterSlash(s, t);
        NotLeading(s, t);
      } else {
        SegmentsStand(s[SlashAt(s)..], t);
        StandsAfterSegment(s, t);
        FirstSegment(s, t);
      }
    }
  }

  lemma NotLeading(s: string, t: string)
    requires s != "" && s[0] == '/' && Segment(t)
    ensures !Leads(s, t)
  {
    assert t[0] in t;
  }

  // Somewhere a percent sign, a backslash or a NUL.
  predicate OddCharacter(s: string) { exists i :: 0 <= i < |s| && (s[i] == '%' || s[i] == '\\' || s[i] as int == 0) }

  /**
   * A path is accepted exactly when it begins with a slash and holds, at no position, a percent
   * sign, a backslash, a NUL, two slashes in a row, or a segment of one or two dots.
   */
  lemma AcceptedExactly(s: string)
    ensures Normalized(s).Some? <==>
              && s != "" && s[0] == '/' && !OddCharacter(s)
              && !(exists i :: 0 <= i < |s| - 1 && s[i] == '/' && s[i + 1] == '/')
              && !(exists i :: StandsAt(s, i, ".")) && !(exists i :: StandsAt(s, i, ".."))
  {
    if s != "" && s[0] == '/' {
      SegmentsStand(s, ".");
      SegmentsStand(s, "..");
      NotLeading(s, ".");
      NotLeading(s, "..");
      OddAt(s);
    }
  }

  lemma OddAt(s: string)
    ensures PlainText(s) <==> !OddCharacter(s)
  {
    assert '\0' as int == 0;
    forall c | c == '%' || c == '\\' || c == '\0' ensures c in s ==> OddCharacter(s) {
      if c in s { var i :| 0 <= i < |s| && s[i] == c; }
    }
  }

  // ---------------------------------------------------------------- the normalized text

  function WithoutLastSlash(s: string): string { if s != "" && s[|s|-1] == '/' then s[..|s|-1] else s }

  lemma SegmentsStep(p: string, tail: string)
    requires Segment(p) && Tail(tail)
    ensures Segments("/" + (p + tail)) == [p] + Segments(tail)
  {
    var rest := p + tail;
    assert ("/" + rest)[1..] == rest;
    SlashAfter(p, tail);
    assert rest[0] == p[0] && p[0] in p;
    assert rest[..|p|] == p && rest[|p|..] == tail;
  }

  // A text that begins with a slash and goes on: its first segment and what follows it.
  lemma FirstPart(s: string) returns (p: string, tail: string)
    requires |s| > 1 && s[0] == '/' && s[1] != '/'
    ensures Segment(p) && Tail(tail) && s == "/" + (p + tail) && tail == s[|s| - |tail|..]
  {
    var k := SlashAt(s[1..]);
    p, tail := s[1..][..k], s[1..][k..];
    assert s[1..] == p + tail;
  }

  lemma {:induction false} SlashedSegments(s: string)
    requires Tail(s) && !DoubleSlash(s)
    ensures Slashed(Segments(s)) == WithoutLastSlash(s)
    decreases |s|
  {
    if |s| > 1 {
      var p, tail := FirstPart(s);
      SegmentsStep(p, tail);
      NoDoubleIn(s, |s| - |tail|);
      SlashedSegments(tail);
      KeepSegment(p, tail);
      SlashedStep(p, Segments(tail));
    } else if s == "/" {
      assert s[1..] == "" && Segments("") == [];
    }
  }

  lemma SlashedStep(p: string, more: seq<string>)
    ensures Slashed([p] + more) == "/" + (p + Slashed(more))
  {
    assert ([p] + more)[1..] == more;
  }

  lemma NoDoubleIn(s: string, k: nat)
    requires !DoubleSlash(s) && k <= |s|
    ensures !DoubleSlash(s[k..])
  {
    forall i | 0 <= i < |s[k..]| - 1 ensures !(s[k..][i] == '/' && s[k..][i+1] == '/') { assert s[k..][i] == s[i+k]; }
  }

  lemma KeepSegment(p: string, tail: string)
    requires Segment(p) && Tail(tail)
    ensures WithoutLastSlash("/" + (p + tail)) == "/" + (p + WithoutLastSlash(tail))
  {
    var s := "/" + (p + tail);
    if tail == "" {
      assert s == "/" + p && s[|s|-1] == p[|p|-1] && p[|p|-1] in p;
    } else {
      assert s[|s|-1] == tail[|tail|-1];
    }
  }

  /** An accepted path only loses a slash at its end; the root stays what it is. */
  lemma NormalizedText(s: string)
    requires Normalized(s).Some?
    ensures Normalized(s).value == if s == "/" then "/" else WithoutLastSlash(s)
  {
    SlashedSegments(s);
    if Segments(s) == [] { assert WithoutLastSlash(s) == ""; assert s == "/"; }
    if s == "/" { assert s[1..] == ""; assert Segments(s) == Segments(""); }
  }

  // ---------------------------------------------------------------- authorization

  // An https URL without credentials.
  predicate Https(u: Url) { u.protocol == "https:" && |u.username| == 0 && |u.password| == 0 }

  // The grant names an https origin and nothing more, the same as the URI's, and its prefix, or the root without one, is accepted.
  predicate SameSite(g: Grant, u: Url) {
    && g.origin.Some? && Https(g.origin.value) && g.origin.value.pathname == "/"
    && |g.origin.value.search| == 0 && |g.origin.value.hash| == 0 && g.origin.value.origin == u.origin
    && Normalized(if g.pathPrefix == "" then "/" else g.pathPrefix).Some?
  }

  // The path is the prefix or goes on from it with a slash, slashes at the end aside.
  predicate GoesOnFrom(prefix: string, path: string) {
    var p := WithoutLastSlash(prefix);
    p == "" || WithoutLastSlash(path) == p || p + "/" <= WithoutLastSlash(path)
  }

  /** A URI is authorized exactly when it is https, its path is accepted, and it goes on from the prefix of a grant for its site. */
  lemma AuthorizedExactly(uri: Option<Url>, grants: seq<Grant>)
    ensures Authorized(uri, grants) <==>
              && uri.Some? && Https(uri.value) && Normalized(uri.value.pathname).Some?
              && exists i :: 0 <= i < |grants| && SameSite(grants[i], uri.value) && GoesOnFrom(grants[i].pathPrefix, uri.value.pathname)
  {
    if uri.Some? && Normalized(uri.value.pathname).Some? {
      forall i | 0 <= i < |grants|
        ensures Covers(grants[i], uri.value) <==> SameSite(grants[i], uri.value) && GoesOnFrom(grants[i].pathPrefix, uri.value.pathname)
      {
        CoversExactly(grants[i], uri.value);
      }
    }
  }

  lemma CoversExactly(g: Grant, u: Url)
    requires Normalized(u.pathname).Some?
    ensures Covers(g, u) <==> SameSite(g, u) && GoesOnFrom(g.pathPrefix, u.pathname)
  {
    if Normalized(RawPrefix(g)).Some? {
      PrefixText(RawPrefix(g), u.pathname);
      assert GoesOnFrom(RawPrefix(g), u.pathname) == GoesOnFrom(g.pathPrefix, u.pathname);
    }
  }

  lemma PrefixText(prefix: string, path: string)
    requires CleanPath(prefix) && CleanPath(path)
    ensures Segments(prefix) <= Segments(path) <==> GoesOnFrom(prefix, path)
  {
    TextPrefixIsCover(prefix, path);
    NormalizedText(prefix);
    NormalizedText(path);
  }
}
