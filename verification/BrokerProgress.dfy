/**
 * What a start, a poll or a cancel that nothing disturbs does, from every reachable world: the
 * steps it takes are listed, and the answer and the stored record are given field by field. Where
 * another operation gets in between, what the loser answers.
 */
module BrokerProgress {
  import opened Basics
  import opened HandoffRecords
  import opened Broker
  import opened BrokerSafety
  import opened BrokerTheorems

  lemma {:induction false} RunConcat(w: World, a: seq<Event>, b: seq<Event>)
    ensures Run(w, a + b) == Run(Run(w, a), b)
    decreases |a|
  {
    if a == [] {
      assert a + b == b;
    } else {
      assert (a + b)[1..] == a[1..] + b;
      RunConcat(Apply(w, a[0]), a[1..], b);
    }
  }

  lemma One(w: World, a: Event)
    ensures Run(w, [a]) == Apply(w, a)
  {
    assert [a][1..] == [];
  }

  lemma Two(w: World, a: Event, b: Event)
    ensures Run(w, [a, b]) == Apply(Apply(w, a), b)
  {
    assert [a, b][1..] == [b];
    One(Apply(w, a), b);
  }

  lemma Three(w: World, a: Event, b: Event, c: Event)
    ensures Run(w, [a, b, c]) == Apply(Apply(Apply(w, a), b), c)
  {
    assert [a, b, c][1..] == [b, c];
    Two(Apply(w, a), b, c);
  }

  /** Some run leads here. */
  ghost predicate Reached(w: World) { exists es :: w == Run(Initial, es) }

  lemma ReachedHolds(w: World)
    requires Reached(w)
    ensures Inv(w)
  {
    var es :| w == Run(Initial, es);
    Reachable(es);
  }

  lemma ReachedOn(w: World, more: seq<Event>)
    requires Reached(w)
    ensures Reached(Run(w, more))
  {
    var es :| w == Run(Initial, es);
    RunConcat(Initial, es, more);
  }

  // The first steps of a call of poll or cancel with the token of record r.
  function Look(k: nat, purpose: Purpose, r: Handoff, now: nat): seq<Event> {
    [Begin(k, Reading(purpose, r.handoffId, r.accessTokenDigest, now)), LandRead(k), Proceed(k)]
  }

  // The steps by which a poll claims, asks its provider and stores what it said.
  function Ask(k: nat, v: Verdict): seq<Event> { [LandWrite(k, false), Decide(k, v), LandWrite(k, false)] }

  // A live record with time left, and a new operation.
  predicate Ready(w: World, id: string, k: nat) {
    id in w.store.records && w.now < w.store.records[id].expiresAt && k !in w.ops
  }

  // Operation k has moved to o and the store is now s; nothing else has happened.
  predicate Moved(w: World, w2: World, k: nat, o: Op, s: Store) {
    w2.ops == w.ops[k := o] && w2.store == s && w2.now == w.now
  }

  predicate Unwritten(w: World, w2: World) { w2.store == w.store && w2.history == w.history }

  lemma Looked(w: World, id: string, k: nat, purpose: Purpose)
    requires Inv(w) && Ready(w, id, k)
    ensures var r := w.store.records[id];
            var w2 := Run(w, Look(k, purpose, r, w.now));
            r.handoffId == id && Moved(w, w2, k, AfterRead(purpose, r, w.now), w.store) && Unwritten(w, w2)
  {
    CurrentIsKnown(w, id);
    var r := w.store.records[id];
    var begin := Begin(k, Reading(purpose, r.handoffId, r.accessTokenDigest, w.now));
    Three(w, begin, LandRead(k), Proceed(k));
    assert Apply(Apply(w, begin), LandRead(k)).ops == w.ops[k := Seen(purpose, r)];
  }

  // A write over the live record is accepted.
  lemma Stored(w: World, k: nat, kind: Write, r: Handoff)
    requires k in w.ops && w.ops[k] == Writing(kind, r) && r.handoffId in w.store.records && w.store.records[r.handoffId] == r
    ensures Moved(w, Apply(w, LandWrite(k, false)), k, AfterAccepted(kind, Next(kind, r)), Updated(w.store, Next(kind, r)))
  {
  }

  // A write over anything else is not.
  lemma Rejected(w: World, k: nat, kind: Write, r: Handoff)
    requires k in w.ops && w.ops[k] == Writing(kind, r) && !UpdateAccepts(w.store, r, Next(kind, r))
    ensures var w2 := Apply(w, LandWrite(k, false)); Moved(w, w2, k, AfterRejected(kind, r), w.store) && Unwritten(w, w2)
  {
  }

  // ---------------------------------------------------------------- polls

  function Lease(r: Handoff, now: nat): nat { Min(r.expiresAt, now + Max(10_000, r.pollAfterMs * 3)) }

  function Claimed(r: Handoff, now: nat): Handoff {
    r.(status := Polling, pollClaimExpiresAt := Some(Lease(r, now)), version := r.version + 1)
  }

  // A poll that has decided to claim r claims it.
  lemma ClaimStored(w: World, k: nat, r: Handoff)
    requires k in w.ops && w.ops[k] == Writing(Claim(LeaseEnd(r, w.now)), r)
    requires r.handoffId in w.store.records && w.store.records[r.handoffId] == r
    ensures Moved(w, Apply(w, LandWrite(k, false)), k, Held(Claimed(r, w.now)),
                  Store(w.store.records[r.handoffId := Claimed(r, w.now)], w.store.active))
  {
    Stored(w, k, Claim(LeaseEnd(r, w.now)), r);
  }

  // It stores what the provider said.
  lemma VerdictStored(w: World, k: nat, claim: Handoff, v: Verdict)
    requires k in w.ops && w.ops[k] == Held(claim)
    requires claim.handoffId in w.store.records && w.store.records[claim.handoffId] == claim
    ensures var kind := VerdictWrite(v);
            Moved(w, Apply(Apply(w, Decide(k, v)), LandWrite(k, false)), k, AfterAccepted(kind, Next(kind, claim)),
                  Updated(w.store, Next(kind, claim)))
  {
    var wA := Apply(w, Decide(k, v));
    assert wA.ops[k] == Writing(VerdictWrite(v), claim);
    Stored(wA, k, VerdictWrite(v), claim);
  }

  // Together.
  lemma Asked(w: World, k: nat, r: Handoff, v: Verdict)
    requires k in w.ops && w.ops[k] == Writing(Claim(LeaseEnd(r, w.now)), r) && r.status == Pending
    requires r.handoffId in w.store.records && w.store.records[r.handoffId] == r
    ensures var kind := VerdictWrite(v);
            var next := Next(kind, Claimed(r, w.now));
            Moved(w, Run(w, Ask(k, v)), k, AfterAccepted(kind, next),
                  Store(w.store.records[r.handoffId := next],
                        if Terminal(next.status) then w.store.active - {r.dependencyId} else w.store.active))
  {
    Three(w, LandWrite(k, false), Decide(k, v), LandWrite(k, false));
    ClaimStored(w, k, r);
    VerdictStored(Apply(w, LandWrite(k, false)), k, Claimed(r, w.now), v);
  }

  // The version a completing poll of pending record r leaves.
  function Completion(r: Handoff, now: nat, token: string): Handoff {
    r.(status := Completed, protectedCompletion := Some(Protect(token)), pollClaimExpiresAt := Some(Lease(r, now)), version := r.version + 2)
  }

  lemma AskedToComplete(w: World, k: nat, r: Handoff, token: string)
    requires k in w.ops && w.ops[k] == Writing(Claim(LeaseEnd(r, w.now)), r) && r.status == Pending
    requires r.handoffId in w.store.records && w.store.records[r.handoffId] == r
    ensures Moved(w, Run(w, Ask(k, Proved(token))), k, Finished(r.handoffId, Done(token)),
                  Store(w.store.records[r.handoffId := Completion(r, w.now, token)], w.store.active - {r.dependencyId}))
  {
    Asked(w, k, r, Proved(token));
  }

  // What a poll of pending record r leaves: it looks, then it asks.
  function Polled(w: World, k: nat, r: Handoff, v: Verdict): World { Run(Run(w, Look(k, ForPoll, r, w.now)), Ask(k, v)) }

  lemma AboutToAsk(w: World, id: string, k: nat)
    requires Reached(w) && Ready(w, id, k) && w.store.records[id].status == Pending
    ensures var r := w.store.records[id];
            r.handoffId == id && Moved(w, Run(w, Look(k, ForPoll, r, w.now)), k, Writing(Claim(LeaseEnd(r, w.now)), r), w.store)
  {
    ReachedHolds(w);
    Looked(w, id, k, ForPoll);
  }

  /**
   * The human has not acted yet: the poll answers pending and leaves the record as it was, without
   * a claim and two versions on, still indexed.
   */
  lemma PendingPoll(w: World, id: string, k: nat)
    requires Reached(w) && Ready(w, id, k) && w.store.records[id].status == Pending
    ensures var r := w.store.records[id];
            var w2 := Polled(w, k, r, NotYet);
            && Reached(w2)
            && Moved(w, w2, k, Finished(id, StillPending),
                     Store(w.store.records[id := r.(pollClaimExpiresAt := None, version := r.version + 2)], w.store.active))
            && w2.store.records[id].status == Pending
            && r.dependencyId in w2.store.active && w2.store.active[r.dependencyId] == id
  {
    var r := w.store.records[id];
    AboutToAsk(w, id, k);
    Asked(Run(w, Look(k, ForPoll, r, w.now)), k, r, NotYet);
    ReachedOn(w, Look(k, ForPoll, r, w.now));
    ReachedOn(Run(w, Look(k, ForPoll, r, w.now)), Ask(k, NotYet));
    ReachedHolds(w);
  }

  /** What the provider's failure code becomes: its capitals, digits and underscores, and at most 100 characters. */
  predicate CodeText(text: string, code: string) {
    && |text| == Min(|code|, 100)
    && forall i :: 0 <= i < |text| ==>
         text[i] == if 'A' <= code[i] <= 'Z' || '0' <= code[i] <= '9' || code[i] == '_' then code[i] else '_'
  }

  /** The provider reports a failure: the poll answers with its code, which is stored, and the dependency is free again. */
  lemma FailedPoll(w: World, id: string, k: nat, code: string) returns (text: string)
    requires Reached(w) && Ready(w, id, k) && w.store.records[id].status == Pending
    ensures CodeText(text, code)
    ensures var r := w.store.records[id];
            Moved(w, Polled(w, k, r, Verdict.Rejected(code)), k, Finished(id, FailedView(text)),
                  Store(w.store.records[id := r.(status := Failed, failureCode := Some(text),
                                                 pollClaimExpiresAt := Some(Lease(r, w.now)), version := r.version + 2)],
                        w.store.active - {r.dependencyId}))
  {
    var r := w.store.records[id];
    text := SanitizedCode(code);
    AboutToAsk(w, id, k);
    Asked(Run(w, Look(k, ForPoll, r, w.now)), k, r, Verdict.Rejected(code));
  }

  /** The proof has been verified: the poll answers with its token, which is stored sealed, and the dependency is free again. */
  lemma CompletedPoll(w: World, id: string, k: nat, token: string)
    requires Reached(w) && Ready(w, id, k) && w.store.records[id].status == Pending
    ensures var r := w.store.records[id];
            Moved(w, Polled(w, k, r, Proved(token)), k, Finished(id, Done(token)),
                  Store(w.store.records[id := r.(status := Completed, protectedCompletion := Some(Protect(token)),
                                                 pollClaimExpiresAt := Some(Lease(r, w.now)), version := r.version + 2)],
                        w.store.active - {r.dependencyId}))
  {
    var r := w.store.records[id];
    AboutToAsk(w, id, k);
    AskedToComplete(Run(w, Look(k, ForPoll, r, w.now)), k, r, token);
  }

  /** Waiting loses nothing: however long after a poll that answered pending, a later poll can still complete the handoff. */
  lemma LaterPollCompletes(w: World, id: string, k: nat, wait: nat, j: nat, token: string)
    requires Reached(w) && Ready(w, id, k) && w.store.records[id].status == Pending && w.now + wait < w.store.records[id].expiresAt
    requires j !in w.ops && j != k
    ensures var w1 := Apply(Polled(w, k, w.store.records[id], NotYet), Tick(wait));
            && id in w1.store.records
            && var w2 := Polled(w1, j, w1.store.records[id], Proved(token));
            && w2.ops == w.ops[k := Finished(id, StillPending)][j := Finished(id, Done(token))]
            && id in w2.store.records && w2.store.records[id].status == Completed
            && w2.store.records[id].protectedCompletion == Some(Protect(token))
  {
    PendingPoll(w, id, k);
    var waited := Polled(w, k, w.store.records[id], NotYet);
    ReachedOn(waited, [Tick(wait)]);
    One(waited, Tick(wait));
    CompletedPoll(Apply(waited, Tick(wait)), id, j, token);
  }

  // ---------------------------------------------------------------- polls of a claimed record

  /** While another poll's lease lives, a poll answers pending and writes nothing. */
  lemma LiveLeaseIsRespected(w: World, id: string, k: nat)
    requires Reached(w) && Ready(w, id, k) && w.store.records[id].status == Polling
    requires w.store.records[id].pollClaimExpiresAt.Some? && w.now < w.store.records[id].pollClaimExpiresAt.value
    ensures var w2 := Run(w, Look(k, ForPoll, w.store.records[id], w.now));
            Moved(w, w2, k, Finished(id, StillPending), w.store) && Unwritten(w, w2)
  {
    ReachedHolds(w);
    Looked(w, id, k, ForPoll);
  }

  // A poll that finds a lapsed claim takes it back and decides anew.
  function Reclaimed(w: World, k: nat, r: Handoff): World {
    Run(Run(w, Look(k, ForPoll, r, w.now)), [LandWrite(k, false), Proceed(k)])
  }

  function Unclaimed(r: Handoff): Handoff { r.(status := Pending, pollClaimExpiresAt := None, version := r.version + 1) }

  predicate Lapsed(w: World, id: string) {
    && id in w.store.records && w.store.records[id].status == Polling
    && (w.store.records[id].pollClaimExpiresAt.Some? ==> w.store.records[id].pollClaimExpiresAt.value <= w.now)
  }

  /** Once it has run out, a poll takes the claim back and goes on as from a pending record, one version on. */
  lemma LapsedLeaseIsReclaimed(w: World, id: string, k: nat)
    requires Reached(w) && Ready(w, id, k) && Lapsed(w, id)
    ensures var r := w.store.records[id];
            var w2 := Reclaimed(w, k, r);
            && Reached(w2) && r.handoffId == id
            && Moved(w, w2, k, Writing(Claim(Lease(r, w.now)), Unclaimed(r)), Store(w.store.records[id := Unclaimed(r)], w.store.active))
  {
    var r := w.store.records[id];
    ReachedHolds(w);
    Looked(w, id, k, ForPoll);
    var w1 := Run(w, Look(k, ForPoll, r, w.now));
    ReclaimStored(w1, k, r);
    ReachedOn(w, Look(k, ForPoll, r, w.now));
    ReachedOn(w1, [LandWrite(k, false), Proceed(k)]);
  }

  lemma ReclaimStored(w: World, k: nat, r: Handoff)
    requires k in w.ops && w.ops[k] == Writing(Reclaim, r)
    requires r.handoffId in w.store.records && w.store.records[r.handoffId] == r
    ensures Moved(w, Run(w, [LandWrite(k, false), Proceed(k)]), k, Writing(Claim(Lease(r, w.now)), Unclaimed(r)),
                  Store(w.store.records[r.handoffId := Unclaimed(r)], w.store.active))
  {
    Two(w, LandWrite(k, false), Proceed(k));
    Stored(w, k, Reclaim, r);
  }

  lemma TakenOver(w: World, w1: World, id: string, k: nat, token: string)
    requires id in w.store.records && w.store.records[id].handoffId == id
    requires var r := w.store.records[id];
             Moved(w, w1, k, Writing(Claim(Lease(r, w.now)), Unclaimed(r)), Store(w.store.records[id := Unclaimed(r)], w.store.active))
    ensures var r := w.store.records[id];
            Moved(w, Run(w1, Ask(k, Proved(token))), k, Finished(id, Done(token)),
                  Store(w.store.records[id := Completion(Unclaimed(r), w.now, token)], w.store.active - {r.dependencyId}))
  {
    var r := w.store.records[id];
    AskedToComplete(w1, k, Unclaimed(r), token);
    var done := Completion(Unclaimed(r), w.now, token);
    assert w.store.records[id := Unclaimed(r)][id := done] == w.store.records[id := done];
    assert w1.ops[k := Finished(id, Done(token))] == w.ops[k := Finished(id, Done(token))];
  }

  /** So a handoff whose poll has died is not lost: the next poll after the lease completes it. */
  lemma DeadPollIsReplaced(w: World, id: string, k: nat, token: string)
    requires Reached(w) && Ready(w, id, k) && Lapsed(w, id)
    ensures var r := w.store.records[id];
            Moved(w, Run(Reclaimed(w, k, r), Ask(k, Proved(token))), k, Finished(id, Done(token)),
                  Store(w.store.records[id := r.(status := Completed, protectedCompletion := Some(Protect(token)),
                                                 pollClaimExpiresAt := Some(Lease(r, w.now)), version := r.version + 3)],
                        w.store.active - {r.dependencyId}))
  {
    LapsedLeaseIsReclaimed(w, id, k);
    TakenOver(w, Reclaimed(w, k, w.store.records[id]), id, k, token);
  }

  // ---------------------------------------------------------------- finished and overdue records

  predicate AnswerOf(r: Handoff, o: Outcome) {
    match r.status
    case Completed => o.Done? && r.protectedCompletion == Some(Protect(o.token))
    case Failed => r.failureCode.Some? && o == FailedView(r.failureCode.value)
    case Expired => o == GoneView(Expired)
    case Cancelled => o == GoneView(Cancelled)
    case _ => false
  }

  lemma ViewIsAnswer(w: World, r: Handoff)
    requires Chains(w) && Known(w, r) && Terminal(r.status)
    ensures AnswerOf(r, TerminalView(r))
  {
    var linked := Link(w.history[r.handoffId], r.version - 1, r.handoffId, w.now);
    TerminalViewHolds(w, r);
    TerminalIsLast(w.history[r.handoffId], r.handoffId, w.now, r.version - 1);
  }

  /** A finished record is answered as it stands: its token, its code, or its status. */
  lemma FinishedIsAnswered(w: World, id: string, k: nat)
    requires Reached(w) && Ready(w, id, k) && Terminal(w.store.records[id].status)
    ensures var r := w.store.records[id];
            var w2 := Run(w, Look(k, ForPoll, r, w.now));
            Unwritten(w, w2) && k in w2.ops && w2.ops[k].Finished? && w2.ops[k].id == id && AnswerOf(r, w2.ops[k].outcome)
  {
    ReachedHolds(w);
    Looked(w, id, k, ForPoll);
    CurrentIsKnown(w, id);
    ViewIsAnswer(w, w.store.records[id]);
  }

  /** A cancel of a finished record writes nothing and answers true exactly when it was cancelled already. */
  lemma CancelOfFinished(w: World, id: string, k: nat)
    requires Reached(w) && Ready(w, id, k) && Terminal(w.store.records[id].status)
    ensures var w2 := Run(w, Look(k, ForCancel, w.store.records[id], w.now));
            Moved(w, w2, k, Finished(id, CancelSaid(w.store.records[id].status == Cancelled)), w.store) && Unwritten(w, w2)
  {
    ReachedHolds(w);
    Looked(w, id, k, ForCancel);
  }

  function CancelledBy(w: World, k: nat, r: Handoff): World { Apply(Run(w, Look(k, ForCancel, r, w.now)), LandWrite(k, false)) }

  /** A cancel of an unfinished record answers true, stores it, and frees the dependency. */
  lemma CancelCancels(w: World, id: string, k: nat)
    requires Reached(w) && Ready(w, id, k) && !Terminal(w.store.records[id].status)
    ensures var r := w.store.records[id];
            var w2 := CancelledBy(w, k, r);
            && Reached(w2)
            && Moved(w, w2, k, Finished(id, CancelSaid(true)),
                     Store(w.store.records[id := r.(status := Cancelled, version := r.version + 1)], w.store.active - {r.dependencyId}))
  {
    ReachedHolds(w);
    Looked(w, id, k, ForCancel);
    var w1 := Run(w, Look(k, ForCancel, w.store.records[id], w.now));
    Stored(w1, k, Cancel, w.store.records[id]);
    ReachedOn(w, Look(k, ForCancel, w.store.records[id], w.now));
    One(w1, LandWrite(k, false));
    ReachedOn(w1, [LandWrite(k, false)]);
  }

  /** Repeating it answers true again and writes nothing. */
  lemma CancelTwice(w: World, id: string, k: nat, j: nat)
    requires Reached(w) && Ready(w, id, k) && !Terminal(w.store.records[id].status) && j !in w.ops && j != k
    ensures var w1 := CancelledBy(w, k, w.store.records[id]);
            && id in w1.store.records
            && var w2 := Run(w1, Look(j, ForCancel, w1.store.records[id], w1.now));
            Moved(w1, w2, j, Finished(id, CancelSaid(true)), w1.store) && Unwritten(w1, w2)
  {
    CancelCancels(w, id, k);
    CancelOfFinished(CancelledBy(w, k, w.store.records[id]), id, j);
  }

  // The steps of a call that finds its record overdue: the expiry is written before anything is decided.
  function LookLate(w: World, k: nat, purpose: Purpose, r: Handoff): World {
    Run(Run(w, [Begin(k, Reading(purpose, r.handoffId, r.accessTokenDigest, w.now)), LandRead(k)]), [LandWrite(k, false), Proceed(k)])
  }

  /** An unfinished record past its time is expired by the next call that reads it: a poll answers expired, a cancel false. */
  lemma OverdueExpires(w: World, id: string, k: nat, purpose: Purpose)
    requires Reached(w) && id in w.store.records && !Terminal(w.store.records[id].status)
    requires w.store.records[id].expiresAt <= w.now && k !in w.ops
    ensures var r := w.store.records[id];
            Moved(w, LookLate(w, k, purpose, r), k,
                  Finished(id, if purpose == ForPoll then GoneView(Expired) else CancelSaid(false)),
                  Store(w.store.records[id := r.(status := Expired, version := r.version + 1)], w.store.active - {r.dependencyId}))
  {
    ReachedHolds(w);
    CurrentIsKnown(w, id);
    var r := w.store.records[id];
    ReadOverdue(w, k, purpose, r);
    ExpiryStored(Run(w, [Begin(k, Reading(purpose, r.handoffId, r.accessTokenDigest, w.now)), LandRead(k)]), k, purpose, r, w.now);
  }

  lemma ReadOverdue(w: World, k: nat, purpose: Purpose, r: Handoff)
    requires k !in w.ops && r.handoffId in w.store.records && w.store.records[r.handoffId] == r && Overdue(r, w.now)
    ensures var w1 := Run(w, [Begin(k, Reading(purpose, r.handoffId, r.accessTokenDigest, w.now)), LandRead(k)]);
            Moved(w, w1, k, Writing(Expire(purpose, r.accessTokenDigest, w.now), r), w.store)
  {
    Two(w, Begin(k, Reading(purpose, r.handoffId, r.accessTokenDigest, w.now)), LandRead(k));
  }

  lemma ExpiryStored(w: World, k: nat, purpose: Purpose, r: Handoff, at: nat)
    requires k in w.ops && w.ops[k] == Writing(Expire(purpose, r.accessTokenDigest, at), r)
    requires r.handoffId in w.store.records && w.store.records[r.handoffId] == r
    ensures Moved(w, Run(w, [LandWrite(k, false), Proceed(k)]), k,
                  Finished(r.handoffId, if purpose == ForPoll then GoneView(Expired) else CancelSaid(false)),
                  Store(w.store.records[r.handoffId := r.(status := Expired, version := r.version + 1)], w.store.active - {r.dependencyId}))
  {
    Two(w, LandWrite(k, false), Proceed(k));
    Stored(w, k, Expire(purpose, r.accessTokenDigest, at), r);
  }

  /** Without the record's own token, or without a record, a poll is refused and a cancel answers false; nothing is read out. */
  lemma WrongTokenSeesNothing(w: World, id: string, digest: string, k: nat, purpose: Purpose)
    requires k !in w.ops && (id in w.store.records ==> w.store.records[id].accessTokenDigest != digest)
    ensures var w2 := Apply(Apply(w, Begin(k, Reading(purpose, id, digest, w.now))), LandRead(k));
            Moved(w, w2, k, Finished(id, if purpose == ForPoll then Unknown else CancelSaid(false)), w.store) && Unwritten(w, w2)
  {
  }

  // ---------------------------------------------------------------- starts

  /** A start is accepted exactly when its ID is new and its dependency has no handoff in progress; then the record is pending and indexed. */
  lemma StartAccepts(w: World, k: nat)
    requires Reached(w) && k in w.ops && w.ops[k].Creating? && w.ops[k].record.handoffId !in w.history
    ensures var r, w2 := w.ops[k].record, Apply(w, LandCreate(k, false));
            var active := exists id :: id in w.store.records && w.store.records[id].dependencyId == r.dependencyId
                                       && (w.store.records[id].status == Pending || w.store.records[id].status == Polling);
            if active then Moved(w, w2, k, Finished(r.handoffId, Refused), w.store) && Unwritten(w, w2)
            else && Moved(w, w2, k, Finished(r.handoffId, Started),
                          Store(w.store.records[r.handoffId := r], w.store.active[r.dependencyId := r.handoffId]))
                 && r.status == Pending && r.version == 1
  {
    ReachedHolds(w);
    var r := w.ops[k].record;
    assert OpHolds(w, k, w.ops[k]);
    assert r.handoffId in w.store.records ==> Current(w, r.handoffId);
  }

  // ---------------------------------------------------------------- losers

  /** Of two polls that read one pending record, the first to write claims it and the other answers pending, writing nothing. */
  lemma SecondClaimLoses(w: World, j: nat, k: nat, r: Handoff, x: nat, y: nat)
    requires j != k && j in w.ops && w.ops[j] == Writing(Claim(x), r) && k in w.ops && w.ops[k] == Writing(Claim(y), r)
    requires r.handoffId in w.store.records && w.store.records[r.handoffId] == r
    ensures var w1 := Apply(w, LandWrite(j, false));
            var w2 := Apply(w1, LandWrite(k, false));
            && w1.ops[j].Held? && w1.ops[j].claim == r.(status := Polling, pollClaimExpiresAt := Some(x), version := r.version + 1)
            && Moved(w1, w2, k, Finished(r.handoffId, StillPending), w1.store) && Unwritten(w1, w2)
  {
    Stored(w, j, Claim(x), r);
    Rejected(Apply(w, LandWrite(j, false)), k, Claim(y), r);
  }

  // The claim is no longer the live record.
  predicate Superseded(w: World, claim: Handoff) {
    claim.handoffId in w.store.records ==> w.store.records[claim.handoffId].version != claim.version
  }

  function ProvenLate(w: World, k: nat, token: string): World {
    Apply(Apply(Apply(w, Decide(k, Proved(token))), LandWrite(k, false)), LandWrite(k, false))
  }

  /** A poll whose claim has been superseded answers failed, even with a proof in hand, and writes nothing. */
  lemma SupersededPollFails(w: World, k: nat, claim: Handoff, token: string)
    requires k in w.ops && w.ops[k] == Held(claim) && Superseded(w, claim)
    ensures var w2 := ProvenLate(w, k, token);
            Moved(w, w2, k, Finished(claim.handoffId, FailedView("HANDOFF_POLL_FAILED")), w.store) && Unwritten(w, w2)
  {
    var wA := Apply(w, Decide(k, Proved(token)));
    assert wA.ops[k] == Writing(Complete(token), claim);
    Rejected(wA, k, Complete(token), claim);
    var wB := Apply(wA, LandWrite(k, false));
    Rejected(wB, k, Fail("HANDOFF_POLL_FAILED"), claim);
    assert SanitizedCode("HANDOFF_POLL_FAILED") == "HANDOFF_POLL_FAILED";
  }

  /** A poll that only wanted to take back, claim or release a superseded version answers pending and writes nothing. */
  lemma SupersededPollWaits(w: World, k: nat, kind: Write, r: Handoff)
    requires k in w.ops && w.ops[k] == Writing(kind, r) && Superseded(w, r) && (kind.Reclaim? || kind.Claim? || kind.Release?)
    ensures var w2 := Apply(w, LandWrite(k, false)); Moved(w, w2, k, Finished(r.handoffId, StillPending), w.store) && Unwritten(w, w2)
  {
    Rejected(w, k, kind, r);
  }

  /** A completion that the store accepted but whose reply was lost: the poll answers failed, and the completion stays. */
  lemma LostReplyKeepsCompletion(w: World, k: nat, claim: Handoff, token: string)
    requires k in w.ops && w.ops[k] == Writing(Complete(token), claim)
    requires claim.handoffId in w.store.records && w.store.records[claim.handoffId] == claim
    ensures var w2 := Apply(Apply(w, LandWrite(k, true)), LandWrite(k, false));
            && k in w2.ops && w2.ops[k] == Finished(claim.handoffId, FailedView("HANDOFF_POLL_FAILED"))
            && claim.handoffId in w2.store.records && w2.store.records[claim.handoffId].status == Completed
            && w2.store.records[claim.handoffId].protectedCompletion == Some(Protect(token))
  {
    var w1 := Apply(w, LandWrite(k, true));
    assert w1.ops[k] == Writing(Fail("HANDOFF_POLL_FAILED"), claim);
    Rejected(w1, k, Fail("HANDOFF_POLL_FAILED"), claim);
    assert SanitizedCode("HANDOFF_POLL_FAILED") == "HANDOFF_POLL_FAILED";
  }

  /** A release that the store accepted but whose reply was lost: the poll answers failed, and the record stays pending. */
  lemma LostReplyKeepsRelease(w: World, k: nat, claim: Handoff)
    requires k in w.ops && w.ops[k] == Writing(Release, claim)
    requires claim.handoffId in w.store.records && w.store.records[claim.handoffId] == claim
    ensures var w2 := Apply(Apply(w, LandWrite(k, true)), LandWrite(k, false));
            && k in w2.ops && w2.ops[k] == Finished(claim.handoffId, FailedView("HANDOFF_POLL_FAILED"))
            && claim.handoffId in w2.store.records && w2.store.records[claim.handoffId].status == Pending
            && w2.store.records[claim.handoffId].pollClaimExpiresAt == None
  {
    var w1 := Apply(w, LandWrite(k, true));
    assert w1.ops[k] == Writing(Fail("HANDOFF_POLL_FAILED"), claim);
    Rejected(w1, k, Fail("HANDOFF_POLL_FAILED"), claim);
    assert SanitizedCode("HANDOFF_POLL_FAILED") == "HANDOFF_POLL_FAILED";
  }

  /** Any other write whose reply is lost rejects its call, and has or has not landed as the store decided. */
  lemma LostReplyThrows(w: World, k: nat, kind: Write, r: Handoff)
    requires k in w.ops && w.ops[k] == Writing(kind, r) && !kind.Release? && !kind.Complete?
    ensures var w2 := Apply(w, LandWrite(k, true));
            Moved(w, w2, k, Finished(r.handoffId, Threw),
                  if UpdateAccepts(w.store, r, Next(kind, r)) then Updated(w.store, Next(kind, r)) else w.store)
  {
  }

  /** So a cancel that lands while a poll waits for its provider wins: the record stays cancelled, and the poll answers failed. */
  lemma CancelBeatsCompletion(w: World, j: nat, k: nat, claim: Handoff, token: string)
    requires j != k && j in w.ops && w.ops[j] == Writing(Cancel, claim) && k in w.ops && w.ops[k] == Held(claim)
    requires claim.handoffId in w.store.records && w.store.records[claim.handoffId] == claim
    ensures var w1 := Apply(w, LandWrite(j, false));
            var w2 := ProvenLate(w1, k, token);
            && w1.ops[j] == Finished(claim.handoffId, CancelSaid(true))
            && Moved(w1, w2, k, Finished(claim.handoffId, FailedView("HANDOFF_POLL_FAILED")), w1.store) && Unwritten(w1, w2)
            && claim.handoffId in w2.store.records && w2.store.records[claim.handoffId].status == Cancelled
  {
    Stored(w, j, Cancel, claim);
    SupersededPollFails(Apply(w, LandWrite(j, false)), k, claim, token);
  }

  /** And a cancel that lands after the poll's completion answers false and changes nothing. */
  lemma CompletionBeatsCancel(w: World, j: nat, k: nat, claim: Handoff, token: string)
    requires j != k && j in w.ops && w.ops[j] == Writing(Cancel, claim) && k in w.ops && w.ops[k] == Writing(Complete(token), claim)
    requires claim.handoffId in w.store.records && w.store.records[claim.handoffId] == claim
    ensures var w1 := Apply(w, LandWrite(k, false));
            var w2 := Apply(w1, LandWrite(j, false));
            && w1.ops[k] == Finished(claim.handoffId, Done(token))
            && Moved(w1, w2, j, Finished(claim.handoffId, CancelSaid(false)), w1.store) && Unwritten(w1, w2)
            && claim.handoffId in w2.store.records && w2.store.records[claim.handoffId].status == Completed
  {
    Stored(w, k, Complete(token), claim);
    Rejected(Apply(w, LandWrite(k, false)), j, Cancel, claim);
  }
}
