/**
 * Keys and hash inputs that the service builds by joining strings with a separator, and why
 * each of them determines all of its parts.
 */
module Framing {
  import opened Basics

  predicate Free(s: string, c: char) { c !in s }

  lemma NotYetCut(a: string, x: string, c: char)
    requires Free(a, c)
    ensures forall i :: 0 <= i < |a| ==> (a + [c] + x)[i] != c
  {
  }

  // A separator that the first part does not contain splits a joined string in one way only.
  lemma FirstCut(a: string, x: string, b: string, y: string, c: char)
    requires Free(a, c) && Free(b, c) && a + [c] + x == b + [c] + y
    ensures a == b && x == y
  {
    var s := a + [c] + x;
    assert s[|a|] == c && s[|b|] == c;
    NotYetCut(a, x, c);
    NotYetCut(b, y, c);
    assert s[..|a|] == a && s[..|b|] == b;
    assert s[|a| + 1..] == x && s[|b| + 1..] == y;
  }

  // So does a last part of known length.
  lemma LastCut(a: string, x: string, b: string, y: string, c: char)
    requires |x| == |y| && a + [c] + x == b + [c] + y
    ensures a == b && x == y
  {
    var s := a + [c] + x;
    assert s[..|a|] == a && s[..|b|] == b;
    assert s[|a| + 1..] == x && s[|b| + 1..] == y;
  }

  // ---------------------------------------------------------------- provider replay keys

  datatype ScopeKind = Global | RelyingParty | Action | Session

  function KindText(k: ScopeKind): string {
    match k case Global => "global" case RelyingParty => "relying_party" case Action => "action" case Session => "session"
  }

  datatype ProviderEntry = ProviderEntry(providerId: string, methodId: string, kind: ScopeKind, scopeId: string, subjectDigest: string)

  predicate IdentifierChar(c: char) { 'a' <= c <= 'z' || '0' <= c <= '9' || c == '.' || c == '_' || c == '-' }

  // catalog.ts: a provider or method identifier.
  predicate Identifier(s: string) {
    && 1 <= |s| <= 100 && s[0] != '.' && s[0] != '_' && s[0] != '-'
    && forall i :: 0 <= i < |s| ==> IdentifierChar(s[i])
  }

  predicate Base64UrlChar(c: char) { 'A' <= c <= 'Z' || 'a' <= c <= 'z' || '0' <= c <= '9' || c == '-' || c == '_' }

  const HMAC := "hmac-sha256:"

  predicate ReplayDigest(s: string) {
    |s| == |HMAC| + 43 && HMAC <= s && forall i :: |HMAC| <= i < |s| ==> Base64UrlChar(s[i])
  }

  // What satisfy passes to the provider replay store. A scope ID is any text, separators included.
  predicate Replayable(e: ProviderEntry) {
    Identifier(e.providerId) && Identifier(e.methodId) && e.scopeId != "" && ReplayDigest(e.subjectDigest)
  }

  function Joined(e: ProviderEntry, c: char): string {
    e.providerId + [c] + (e.methodId + [c] + (KindText(e.kind) + [c] + (e.scopeId + [c] + e.subjectDigest)))
  }

  function RedisProviderKey(prefix: string, e: ProviderEntry): string { prefix + ":provider:" + Joined(e, ':') }

  /** Both the colon-joined Redis key and the NUL-joined key determine all five parts. */
  lemma JoinedInjective(a: ProviderEntry, b: ProviderEntry, c: char)
    requires Replayable(a) && Replayable(b) && (c == ':' || c == '\0') && Joined(a, c) == Joined(b, c)
    ensures a == b
  {
    FirstCut(a.providerId, a.methodId + [c] + (KindText(a.kind) + [c] + (a.scopeId + [c] + a.subjectDigest)),
             b.providerId, b.methodId + [c] + (KindText(b.kind) + [c] + (b.scopeId + [c] + b.subjectDigest)), c);
    FirstCut(a.methodId, KindText(a.kind) + [c] + (a.scopeId + [c] + a.subjectDigest),
             b.methodId, KindText(b.kind) + [c] + (b.scopeId + [c] + b.subjectDigest), c);
    FirstCut(KindText(a.kind), a.scopeId + [c] + a.subjectDigest, KindText(b.kind), b.scopeId + [c] + b.subjectDigest, c);
    LastCut(a.scopeId, a.subjectDigest, b.scopeId, b.subjectDigest, c);
  }

  lemma RedisProviderKeyInjective(prefix: string, a: ProviderEntry, b: ProviderEntry)
    requires Replayable(a) && Replayable(b)
    ensures RedisProviderKey(prefix, a) == RedisProviderKey(prefix, b) <==> a == b
  {
    var n := |prefix + ":provider:"|;
    assert RedisProviderKey(prefix, a)[n..] == Joined(a, ':') && RedisProviderKey(prefix, b)[n..] == Joined(b, ':');
    if RedisProviderKey(prefix, a) == RedisProviderKey(prefix, b) { JoinedInjective(a, b, ':'); }
  }

  // A digest of free length would not do: the scope ID may end in what looks like one.
  lemma FreeLengthDigestsCollide()
    ensures var a := ProviderEntry("p", "m", Global, "s:t", "u");
            var b := ProviderEntry("p", "m", Global, "s", "t:u");
            a != b && Joined(a, ':') == Joined(b, ':')
  {
    var a := ProviderEntry("p", "m", Global, "s:t", "u");
    var b := ProviderEntry("p", "m", Global, "s", "t:u");
    assert a.scopeId + [':'] + a.subjectDigest == b.scopeId + [':'] + b.subjectDigest;
  }

  // ---------------------------------------------------------------- tenant and state identifiers

  /** An authenticated principal; only some kinds of principal have an issuer. */
  datatype Principal = Principal(issuer: Option<string>, subject: string)

  predicate ControlChar(c: char) { c <= '\U{1f}' || c == '\U{7f}' }

  predicate PrincipalString(s: string, longest: nat) { 0 < |s| <= longest && forall i :: 0 <= i < |s| ==> !ControlChar(s[i]) }

  predicate Authenticated(p: Principal) {
    PrincipalString(p.subject, 512) && (p.issuer.Some? ==> PrincipalString(p.issuer.value, 2_048))
  }

  type Hash = string -> string

  ghost predicate Sha256Like(hash: Hash) {
    && (forall x, y :: hash(x) == hash(y) ==> x == y)
    && (forall x :: "sha256:" <= hash(x) && Free(hash(x), '\0'))
  }

  function TenantText(p: Principal): string {
    "x424-tenant-v2\0" + ((if p.issuer.Some? then p.issuer.value else "") + ['\0'] + p.subject)
  }

  function StateText(tenantId: string, stateId: string): string { "x424-state-v1\0" + (tenantId + ['\0'] + stateId) }

  function TenantStateId(hash: Hash, p: Option<Principal>): string {
    if p.None? then "dev-local-unauthenticated" else hash(TenantText(p.value))
  }

  function ScopedStateId(hash: Hash, p: Option<Principal>, stateId: string): string {
    hash(StateText(TenantStateId(hash, p), stateId))
  }

  lemma TenantTextInjective(p: Principal, q: Principal)
    requires Authenticated(p) && Authenticated(q) && TenantText(p) == TenantText(q)
    ensures p == q
  {
    var i, j := if p.issuer.Some? then p.issuer.value else "", if q.issuer.Some? then q.issuer.value else "";
    assert TenantText(p)[15..] == i + ['\0'] + p.subject && TenantText(q)[15..] == j + ['\0'] + q.subject;
    FirstCut(i, p.subject, j, q.subject, '\0');
  }

  /** State of one tenant is never found under another: a scoped ID determines issuer, subject and state ID. */
  lemma ScopedStateIdInjective(hash: Hash, p: Option<Principal>, s: string, q: Option<Principal>, t: string)
    requires Sha256Like(hash)
    requires (p.Some? ==> Authenticated(p.value)) && (q.Some? ==> Authenticated(q.value))
    ensures ScopedStateId(hash, p, s) == ScopedStateId(hash, q, t) <==> p == q && s == t
  {
    if ScopedStateId(hash, p, s) == ScopedStateId(hash, q, t) {
      var a, b := TenantStateId(hash, p), TenantStateId(hash, q);
      assert StateText(a, s)[14..] == a + ['\0'] + s && StateText(b, t)[14..] == b + ['\0'] + t;
      FirstCut(a, s, b, t, '\0');
      TenantStateIdInjective(hash, p, q);
    }
  }

  lemma TenantStateIdInjective(hash: Hash, p: Option<Principal>, q: Option<Principal>)
    requires Sha256Like(hash) && TenantStateId(hash, p) == TenantStateId(hash, q)
    requires (p.Some? ==> Authenticated(p.value)) && (q.Some? ==> Authenticated(q.value))
    ensures p == q
  {
    assert "dev-local-unauthenticated"[0] == 'd' && "sha256:"[0] == 's';
    if p.Some? && q.Some? { TenantTextInjective(p.value, q.value); }
  }

  /** A scoped ID is never a tenant ID: the two hash inputs begin differently. */
  lemma TenantsAndStatesApart(hash: Hash, p: Principal, q: Option<Principal>, s: string)
    requires Sha256Like(hash)
    ensures TenantStateId(hash, Some(p)) != ScopedStateId(hash, q, s)
  {
    assert TenantText(p)[5] == 't' && StateText(TenantStateId(hash, q), s)[5] == 's';
  }
}
