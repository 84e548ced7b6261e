/**
 * The durable handoff record of src/handoff.ts, the writes the service proposes to it,
 * and the three-method store contract (create, getAuthorized, update).
 */
module HandoffRecords {
  import opened Basics

  datatype Status = Pending | Polling | Completed | Failed | Expired | Cancelled

  predicate Terminal(s: Status) { s != Pending && s != Polling }

  datatype Presentation = Presentation(uri: string, userCode: Option<string>)

  // Timestamps are milliseconds. A claim expiry that does not parse is None.
  datatype Handoff = Handoff(
    handoffId: string,
    dependencyId: string,
    providerId: string,
    methodId: string,
    accessTokenDigest: string,
    status: Status,
    pollClaimExpiresAt: Option<nat>,
    presentation: Presentation,
    protectedState: string,
    protectedCompletion: Option<string>,
    failureCode: Option<string>,
    pollAfterMs: nat,
    expiresAt: nat,
    version: nat)

  const SEAL := "x424-handoff-a256gcm-v1."

  // Encryption is kept only as a pair of inverse functions.
  function Protect(token: string): string { SEAL + token }

  function Unprotect(text: string): Option<string> {
    if SEAL <= text then Some(text[|SEAL|..]) else None
  }

  lemma UnprotectProtect(token: string)
    ensures Unprotect(Protect(token)) == Some(token)
  {
    assert Protect(token)[|SEAL|..] == token;
  }

  predicate LeaseLive(r: Handoff, now: int) {
    r.pollClaimExpiresAt.Some? && r.pollClaimExpiresAt.value > now
  }

  predicate Overdue(r: Handoff, now: int) { r.expiresAt <= now && !Terminal(r.status) }

  const LONGEST_LEASE_MS := 30_000

  function LeaseEnd(r: Handoff, now: nat): nat {
    Min(r.expiresAt, now + Max(10_000, r.pollAfterMs * 3))
  }

  // Provider failure codes keep [A-Z0-9_] and at most 100 characters.
  function SanitizedCode(code: string): string {
    var clean := seq(|code|, i requires 0 <= i < |code| =>
      if 'A' <= code[i] <= 'Z' || '0' <= code[i] <= '9' || code[i] == '_' then code[i] else '_');
    if |clean| > 100 then clean[..100] else clean
  }

  datatype Purpose = ForPoll | ForCancel

  /** The compare-and-swap writes that the service and its stores ever issue. */
  datatype Write =
    | Reclaim
    | Claim(lease: nat)
    | Release
    | Complete(token: string)
    | Fail(code: string)
    | Cancel
    | Expire(purpose: Purpose, digest: string, at: int)

  // Writes that only the poll holding a claim may issue.
  predicate HolderWrite(k: Write) { k.Release? || k.Complete? || k.Fail? }

  function Next(k: Write, r: Handoff): Handoff {
    var bumped := r.(version := r.version + 1);
    match k
    case Reclaim => bumped.(status := Pending, pollClaimExpiresAt := None)
    case Claim(lease) => bumped.(status := Polling, pollClaimExpiresAt := Some(lease))
    case Release => bumped.(status := Pending, pollClaimExpiresAt := None)
    case Complete(token) => bumped.(status := Completed, protectedCompletion := Some(Protect(token)))
    case Fail(code) => bumped.(status := Failed, failureCode := Some(SanitizedCode(code)))
    case Cancel => bumped.(status := Cancelled)
    case Expire(_, _, _) => bumped.(status := Expired)
  }

  // What the service has checked by time `at` before it issues write k over record r.
  predicate Justified(k: Write, r: Handoff, at: int) {
    match k
    case Reclaim => r.status == Polling && !LeaseLive(r, at)
    case Claim(lease) => r.status == Pending && lease <= r.expiresAt && lease <= at + LONGEST_LEASE_MS
    case Release => r.status == Polling
    case Complete(_) => r.status == Polling
    case Fail(_) => r.status == Polling
    case Cancel => !Terminal(r.status)
    case Expire(_, _, checked) => checked <= at && Overdue(r, checked)
  }

  predicate SameIdentity(a: Handoff, b: Handoff) {
    && a.handoffId == b.handoffId && a.dependencyId == b.dependencyId
    && a.providerId == b.providerId && a.methodId == b.methodId
    && a.accessTokenDigest == b.accessTokenDigest
    && a.presentation == b.presentation && a.protectedState == b.protectedState
    && a.pollAfterMs == b.pollAfterMs && a.expiresAt == b.expiresAt
  }

  // The record that start() builds; it also checks that the record has not expired already.
  predicate FirstVersion(r: Handoff) {
    && r.status == Pending && r.version == 1
    && r.pollClaimExpiresAt == None && r.protectedCompletion == None && r.failureCode == None
    && 500 <= r.pollAfterMs <= 10_000
  }

  /** Live records and the index from a dependency to its one active handoff. */
  datatype Store = Store(records: map<string, Handoff>, active: map<string, string>)

  predicate CreateAccepts(s: Store, r: Handoff) {
    r.handoffId !in s.records && r.dependencyId !in s.active
  }

  function Created(s: Store, r: Handoff): Store {
    Store(s.records[r.handoffId := r], s.active[r.dependencyId := r.handoffId])
  }

  // The version-and-token compare; the record's current status plays no part.
  predicate UpdateAccepts(s: Store, prev: Handoff, next: Handoff) {
    && prev.handoffId in s.records
    && s.records[prev.handoffId].version == prev.version
    && s.records[prev.handoffId].accessTokenDigest == prev.accessTokenDigest
    && next.version == prev.version + 1
  }

  function Updated(s: Store, next: Handoff): Store {
    Store(s.records[next.handoffId := next],
          if Terminal(next.status) then s.active - {next.dependencyId} else s.active)
  }

  predicate Readable(s: Store, id: string, digest: string) {
    id in s.records && s.records[id].accessTokenDigest == digest
  }

  // A key with a time to live takes its record and its index entry away together.
  function Vanished(s: Store, ids: set<string>): Store {
    Store(s.records - ids, map d | d in s.active && s.active[d] !in ids :: s.active[d])
  }

  // The whole-record compare that Redis makes on the stored text.
  predicate WholeAccepts(s: Store, prev: Handoff) {
    prev.handoffId in s.records && s.records[prev.handoffId] == prev
  }

  // Version and token digest single out the record they were read from.
  predicate VersionFixes(s: Store, prev: Handoff) {
    && prev.handoffId in s.records
    && s.records[prev.handoffId].version == prev.version
    && s.records[prev.handoffId].accessTokenDigest == prev.accessTokenDigest
    ==> s.records[prev.handoffId] == prev
  }

  /** The two compares accept alike exactly when version and token digest single out the record. */
  lemma ComparesAgree(s: Store, prev: Handoff, next: Handoff)
    requires next.version == prev.version + 1
    ensures (UpdateAccepts(s, prev, next) <==> WholeAccepts(s, prev)) <==> VersionFixes(s, prev)
  {
  }

  /** The index is exactly the set of non-terminal records, one for each dependency. */
  ghost predicate IndexExact(s: Store) {
    && (forall id :: id in s.records ==> s.records[id].handoffId == id)
    && (forall d :: d in s.active ==>
          s.active[d] in s.records && s.records[s.active[d]].dependencyId == d && !Terminal(s.records[s.active[d]].status))
    && (forall id :: id in s.records && !Terminal(s.records[id].status) ==>
          s.records[id].dependencyId in s.active && s.active[s.records[id].dependencyId] == id)
  }

  // The update starts from an unfinished record, or finishes a finished one that no other handoff has followed.
  predicate KeepsIndex(s: Store, prev: Handoff, next: Handoff) {
    !Terminal(prev.status) || (Terminal(next.status) && prev.dependencyId !in s.active)
  }

  /** An accepted update leaves the index exact if and only if it is of that kind; update() itself checks neither half. */
  lemma UpdateKeepsIndexExactly(s: Store, prev: Handoff, next: Handoff)
    requires IndexExact(s) && UpdateAccepts(s, prev, next) && s.records[prev.handoffId] == prev && SameIdentity(prev, next)
    ensures IndexExact(Updated(s, next)) <==> KeepsIndex(s, prev, next)
  {
    var t := Updated(s, next);
    if Terminal(prev.status) && prev.dependencyId in s.active {
      var other := s.active[prev.dependencyId];
      assert other != prev.handoffId && other in t.records && t.records[other] == s.records[other];
    }
    assert next.handoffId in t.records && t.records[next.handoffId] == next;
  }

  lemma IndexKept(s: Store, prev: Handoff, next: Handoff)
    requires IndexExact(s) && WholeAccepts(s, prev) && SameIdentity(prev, next) && KeepsIndex(s, prev, next)
    ensures IndexExact(Updated(s, next))
  {
  }

  lemma IndexVanished(s: Store, ids: set<string>)
    requires IndexExact(s)
    ensures IndexExact(Vanished(s, ids))
  {
  }
}
