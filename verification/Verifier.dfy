/**
 * X424Service as a state machine: register and satisfy cut at each await, with any number of
 * verifications in flight. Direct verification and handoff completion both go through satisfy.
 * The provider adapter answers anything at any time, or never.
 */
module Verifier {
  import opened Basics
  import opened Framing
  import opened MemoryStores
  import opened Policy

  /** What the pairwise deriver is given for a replay digest. */
  datatype Subject = Subject(providerId: string, methodId: string, scope: Scope, providerSubject: string)

  /**
   * durable says that a consumed nonce is deleted, as Redis and PostgreSQL do, rather than kept
   * and marked used. Only then does the machine rely on dependency IDs being random.
   */
  datatype Config = Config(catalog: Catalog, adapters: set<string>, ttlSeconds: int, durable: bool, derive: Subject -> string)

  datatype Op =
    | Consuming(r: Requirement, proof: Proof, checkedAt: nat)
    | Verifying(r: Requirement, proof: Proof, checkedAt: nat)
    | Recording(r: Requirement, proof: Proof, checkedAt: nat, v: Verified, issuedAt: nat)
    | Signing(r: Requirement, proof: Proof, checkedAt: nat, v: Verified, issuedAt: nat)
    | Issued(r: Requirement, proof: Proof, checkedAt: nat, v: Verified, issuedAt: nat, result: HumanResult)
    | Refused(dependencyId: string, attempted: bool)

  datatype World = World(now: nat, nonces: map<string, Nonce>, registered: set<string>, subjects: set<string>, ops: map<nat, Op>)

  datatype Event =
    | Tick(ms: nat)
    | Register(r: Requirement)
    | Lapse(dependencyId: string)
    | Satisfy(op: nat, r: Requirement, proof: Proof)
    | LandConsume(op: nat)
    | AdapterReturns(op: nat, v: Verified)
    | AdapterThrows(op: nat)
    | LandRecord(op: nat)
    | Sign(op: nat, resultId: string, pairwiseHumanId: string)

  const Initial := World(0, map[], {}, {}, map[])

  function At(w: World, k: nat, o: Op): World { w.(ops := w.ops[k := o]) }

  function SubjectOf(v: Verified): Subject { Subject(v.providerId, v.methodId, v.scope, v.providerSubject) }

  function EntryOf(c: Config, v: Verified): ProviderEntry {
    ProviderEntry(v.providerId, v.methodId, v.scope.kind, v.scope.id, c.derive(SubjectOf(v)))
  }

  function DependencyOf(o: Op): string { if o.Refused? then o.dependencyId else o.r.dependencyId }

  // adapter.verify has been called for this operation.
  predicate Attempted(o: Op) { if o.Refused? then o.attempted else !o.Consuming? }

  predicate PairwiseShaped(p: string) { "x424_human_" <= p && |p| <= 512 }

  // A result ID is a random UUID, never drawn twice.
  predicate ResultIdFree(w: World, id: string) {
    forall k :: k in w.ops && w.ops[k].Issued? ==> w.ops[k].result.resultId != id
  }

  function Apply(c: Config, w: World, e: Event): World {
    match e
    case Tick(ms) => w.(now := w.now + ms)
    case Register(r) =>
      if c.durable && r.dependencyId in w.registered then w
      else
        var (m, ok) := Serve(w.nonces, Put(r.dependencyId, r.nonce, r.expiresAt), c.durable);
        if ok then w.(nonces := m, registered := w.registered + {r.dependencyId}) else w
    case Lapse(id) => w.(nonces := Serve(w.nonces, NonceCall.Lapse(id), c.durable).0)
    case Satisfy(k, r, proof) =>
      if k in w.ops then w
      else if ProofAdmitted(c.catalog, c.adapters, r, proof, w.now) then At(w, k, Consuming(r, proof, w.now))
      else At(w, k, Refused(r.dependencyId, false))
    case LandConsume(k) =>
      if k !in w.ops || !w.ops[k].Consuming? then w
      else
        var o := w.ops[k];
        var (m, ok) := Serve(w.nonces, Consume(o.r.dependencyId, o.r.nonce, o.checkedAt), c.durable);
        At(w.(nonces := m), k, if ok then Verifying(o.r, o.proof, o.checkedAt) else Refused(o.r.dependencyId, false))
    case AdapterReturns(k, v) =>
      if k !in w.ops || !w.ops[k].Verifying? then w
      else
        var o := w.ops[k];
        if Issue(c.catalog, o.r, o.proof, v, w.now, c.ttlSeconds, "", "").None? then At(w, k, Refused(o.r.dependencyId, true))
        else if v.replayMode == ByVerifier then At(w, k, Recording(o.r, o.proof, o.checkedAt, v, w.now))
        else At(w, k, Signing(o.r, o.proof, o.checkedAt, v, w.now))
    case AdapterThrows(k) =>
      if k !in w.ops || !w.ops[k].Verifying? then w else At(w, k, Refused(w.ops[k].r.dependencyId, true))
    case LandRecord(k) =>
      if k !in w.ops || !w.ops[k].Recording? then w
      else
        var o := w.ops[k];
        var entry := EntryOf(c, o.v);
        if !ReplayDigest(entry.subjectDigest) || !NamesSubject(entry) || Joined(entry, '\0') in w.subjects
        then At(w, k, Refused(o.r.dependencyId, true))
        else At(w.(subjects := w.subjects + {Joined(entry, '\0')}), k, Signing(o.r, o.proof, o.checkedAt, o.v, o.issuedAt))
    case Sign(k, resultId, pairwise) =>
      if k !in w.ops || !w.ops[k].Signing? || !ResultIdFree(w, resultId) then w
      else
        var o := w.ops[k];
        var result := Issue(c.catalog, o.r, o.proof, o.v, o.issuedAt, c.ttlSeconds, resultId, pairwise);
        if result.None? || !PairwiseShaped(pairwise) then At(w, k, Refused(o.r.dependencyId, true))
        else At(w, k, Issued(o.r, o.proof, o.checkedAt, o.v, o.issuedAt, result.value))
  }

  function Run(c: Config, w: World, es: seq<Event>): World
    decreases |es|
  {
    if es == [] then w else Run(c, Apply(c, w, es[0]), es[1..])
  }

  // ---------------------------------------------------------------- invariant

  // The nonce of this dependency has been consumed, for good.
  predicate Spent(w: World, id: string) { id in w.registered && (id in w.nonces ==> w.nonces[id].used) }

  predicate UsesVerifierReplay(o: Op) { (o.Signing? || o.Issued?) && o.v.replayMode == ByVerifier }

  predicate OpHolds(c: Config, w: World, o: Op) {
    && (Attempted(o) ==> Spent(w, DependencyOf(o)))
    && (UsesVerifierReplay(o) ==> Joined(EntryOf(c, o.v), '\0') in w.subjects && ReplayDigest(EntryOf(c, o.v).subjectDigest))
    && (!o.Refused? ==> ProofAdmitted(c.catalog, c.adapters, o.r, o.proof, o.checkedAt))
    && (o.Issued? ==>
          && o.issuedAt <= w.now && PairwiseShaped(o.result.pairwiseHumanId)
          && Issue(c.catalog, o.r, o.proof, o.v, o.issuedAt, c.ttlSeconds, o.result.resultId, o.result.pairwiseHumanId) == Some(o.result))
    && (o.Recording? || o.Signing? ==> o.issuedAt <= w.now)
  }

  // Two operations never share a consumed nonce, a recorded provider subject or a result ID.
  predicate Apart(c: Config, a: Op, b: Op) {
    && (Attempted(a) && Attempted(b) ==> DependencyOf(a) != DependencyOf(b))
    && (UsesVerifierReplay(a) && UsesVerifierReplay(b) ==> EntryOf(c, a.v) != EntryOf(c, b.v))
    && (a.Issued? && b.Issued? ==> a.result.resultId != b.result.resultId)
  }

  ghost predicate Inv(c: Config, w: World) {
    && w.nonces.Keys <= w.registered && (!c.durable ==> w.registered <= w.nonces.Keys)
    && (forall k :: k in w.ops ==> OpHolds(c, w, w.ops[k]))
    && (forall j, k :: j in w.ops && k in w.ops && j != k ==> Apart(c, w.ops[j], w.ops[k]))
  }

  // ---------------------------------------------------------------- steps

  // What a step may do to everything but operation k.
  ghost predicate Grows(c: Config, w: World, w2: World) {
    && w.now <= w2.now && w.subjects <= w2.subjects
    && (forall id :: Spent(w, id) ==> Spent(w2, id))
    && w2.nonces.Keys <= w2.registered && (!c.durable ==> w2.registered <= w2.nonces.Keys)
  }

  lemma InvFrom(c: Config, w: World, w2: World, k: nat)
    requires Inv(c, w) && Grows(c, w, w2)
    requires k in w2.ops && w2.ops == w.ops[k := w2.ops[k]] && OpHolds(c, w2, w2.ops[k])
    requires forall j :: j in w.ops && j != k ==> Apart(c, w.ops[j], w2.ops[k]) && Apart(c, w2.ops[k], w.ops[j])
    ensures Inv(c, w2)
  {
    forall j | j in w2.ops ensures OpHolds(c, w2, w2.ops[j]) {
      if j != k { assert OpHolds(c, w, w.ops[j]); }
    }
  }

  lemma SameOps(c: Config, w: World, w2: World)
    requires Inv(c, w) && Grows(c, w, w2) && w2.ops == w.ops
    ensures Inv(c, w2)
  {
    forall j | j in w2.ops ensures OpHolds(c, w2, w2.ops[j]) { assert OpHolds(c, w, w.ops[j]); }
  }

  lemma StepConsume(c: Config, w: World, k: nat)
    requires Inv(c, w) && k in w.ops && w.ops[k].Consuming?
    ensures Inv(c, Apply(c, w, LandConsume(k)))
  {
    var o, w2 := w.ops[k], Apply(c, w, LandConsume(k));
    assert OpHolds(c, w, o);
    forall j | j in w.ops && j != k ensures Apart(c, w.ops[j], w2.ops[k]) && Apart(c, w2.ops[k], w.ops[j]) {
      assert OpHolds(c, w, w.ops[j]);
    }
    InvFrom(c, w, w2, k);
  }

  lemma StepRecord(c: Config, w: World, k: nat)
    requires Inv(c, w) && k in w.ops && w.ops[k].Recording?
    ensures Inv(c, Apply(c, w, LandRecord(k)))
  {
    var o, w2 := w.ops[k], Apply(c, w, LandRecord(k));
    assert OpHolds(c, w, o);
    forall j | j in w.ops && j != k ensures Apart(c, w.ops[j], w2.ops[k]) && Apart(c, w2.ops[k], w.ops[j]) {
      assert OpHolds(c, w, w.ops[j]) && Apart(c, w.ops[j], o);
    }
    InvFrom(c, w, w2, k);
  }

  lemma StepReturns(c: Config, w: World, k: nat, v: Verified)
    requires Inv(c, w) && k in w.ops && w.ops[k].Verifying?
    ensures Inv(c, Apply(c, w, AdapterReturns(k, v)))
  {
    var o, w2 := w.ops[k], Apply(c, w, AdapterReturns(k, v));
    assert OpHolds(c, w, o);
    forall j | j in w.ops && j != k ensures Apart(c, w.ops[j], w2.ops[k]) && Apart(c, w2.ops[k], w.ops[j]) {
      assert Apart(c, w.ops[j], o);
    }
    InvFrom(c, w, w2, k);
  }

  lemma StepSign(c: Config, w: World, k: nat, resultId: string, pairwise: string)
    requires Inv(c, w) && k in w.ops && w.ops[k].Signing?
    ensures Inv(c, Apply(c, w, Sign(k, resultId, pairwise)))
  {
    var o, w2 := w.ops[k], Apply(c, w, Sign(k, resultId, pairwise));
    if ResultIdFree(w, resultId) {
      assert OpHolds(c, w, o);
      forall j | j in w.ops && j != k ensures Apart(c, w.ops[j], w2.ops[k]) && Apart(c, w2.ops[k], w.ops[j]) {
        assert Apart(c, w.ops[j], o);
      }
      InvFrom(c, w, w2, k);
    }
  }

  // Steps that touch no operation.
  lemma OutsideGrows(c: Config, w: World, e: Event)
    requires Inv(c, w) && (e.Tick? || e.Register? || e.Lapse?)
    ensures Grows(c, w, Apply(c, w, e)) && Apply(c, w, e).ops == w.ops
  {
  }

  lemma StepSatisfy(c: Config, w: World, k: nat, r: Requirement, proof: Proof)
    requires Inv(c, w)
    ensures Inv(c, Apply(c, w, Satisfy(k, r, proof)))
  {
    if k !in w.ops { InvFrom(c, w, Apply(c, w, Satisfy(k, r, proof)), k); }
  }

  lemma StepThrows(c: Config, w: World, k: nat)
    requires Inv(c, w) && k in w.ops && w.ops[k].Verifying?
    ensures Inv(c, Apply(c, w, AdapterThrows(k)))
  {
    var w2 := Apply(c, w, AdapterThrows(k));
    assert OpHolds(c, w, w.ops[k]);
    forall j | j in w.ops && j != k ensures Apart(c, w.ops[j], w2.ops[k]) && Apart(c, w2.ops[k], w.ops[j]) {
      assert Apart(c, w.ops[j], w.ops[k]);
    }
    InvFrom(c, w, w2, k);
  }

  lemma Step(c: Config, w: World, e: Event)
    requires Inv(c, w)
    ensures Inv(c, Apply(c, w, e))
  {
    match e {
      case LandConsume(k) => if k in w.ops && w.ops[k].Consuming? { StepConsume(c, w, k); }
      case LandRecord(k) => if k in w.ops && w.ops[k].Recording? { StepRecord(c, w, k); }
      case AdapterReturns(k, v) => if k in w.ops && w.ops[k].Verifying? { StepReturns(c, w, k, v); }
      case Sign(k, id, p) => if k in w.ops && w.ops[k].Signing? { StepSign(c, w, k, id, p); }
      case Satisfy(k, r, proof) => StepSatisfy(c, w, k, r, proof);
      case AdapterThrows(k) => if k in w.ops && w.ops[k].Verifying? { StepThrows(c, w, k); }
      case _ => OutsideGrows(c, w, e); SameOps(c, w, Apply(c, w, e));
    }
  }

  lemma {:induction false} RunKeepsInv(c: Config, w: World, es: seq<Event>)
    requires Inv(c, w)
    ensures Inv(c, Run(c, w, es))
    decreases |es|
  {
    if es != [] { Step(c, w, es[0]); RunKeepsInv(c, Apply(c, w, es[0]), es[1..]); }
  }

  // ---------------------------------------------------------------- theorems

  lemma Reachable(c: Config, es: seq<Event>)
    ensures Inv(c, Run(c, Initial, es))
  {
    RunKeepsInv(c, Initial, es);
  }

  /** Of all verifications of one dependency, ever, at most one reaches the provider adapter. */
  lemma OneAttemptPerDependency(c: Config, es: seq<Event>, j: nat, k: nat)
    requires var w := Run(c, Initial, es);
             j in w.ops && k in w.ops && Attempted(w.ops[j]) && Attempted(w.ops[k]) && DependencyOf(w.ops[j]) == DependencyOf(w.ops[k])
    ensures j == k
  {
    Reachable(c, es);
  }

  /** So at most one result is issued for it; and under verifier replay, at most one for a provider subject. */
  lemma OneResult(c: Config, es: seq<Event>, j: nat, k: nat)
    requires var w := Run(c, Initial, es); j in w.ops && k in w.ops && w.ops[j].Issued? && w.ops[k].Issued?
    requires var w := Run(c, Initial, es);
             || w.ops[j].result.dependencyId == w.ops[k].result.dependencyId
             || w.ops[j].result.resultId == w.ops[k].result.resultId
             || (w.ops[j].v.replayMode == ByVerifier && w.ops[k].v.replayMode == ByVerifier
                 && SubjectOf(w.ops[j].v) == SubjectOf(w.ops[k].v))
    ensures j == k
  {
    Reachable(c, es);
    var w := Run(c, Initial, es);
    assert OpHolds(c, w, w.ops[j]) && OpHolds(c, w, w.ops[k]);
  }

  /**
   * Every result ever issued binds what its requirement binds, ends with the first of the
   * requirement, the verifier's lifetime and the provider's proof, and is judged satisfied until then.
   */
  lemma EveryResultIsGood(c: Config, es: seq<Event>, k: nat, now: int)
    requires var w := Run(c, Initial, es); k in w.ops && w.ops[k].Issued?
    ensures var o := Run(c, Initial, es).ops[k];
            && o.issuedAt <= Run(c, Initial, es).now && o.result.expiresAt.Some? && AcceptedMethod(o.r, o.proof).Some?
            && o.result.dependencyId == o.r.dependencyId && o.result.requestDigest == o.r.resource.requestDigest
            && o.result.binding == o.r.binding
            && EndsFirst(o.result.expiresAt, o.r, o.v, o.issuedAt, c.ttlSeconds)
            && (Satisfied(o.r, o.result, c.catalog, now) <==>
                  && o.issuedAt <= now < o.result.expiresAt.value && FreshEnough(o.r, o.proof, o.v, now)
                  && AcceptedMethod(o.r, o.proof).value.assuranceLevel != Some(""))
  {
    Reachable(c, es);
    var w := Run(c, Initial, es);
    var o := w.ops[k];
    assert OpHolds(c, w, o);
    ResultEnds(c.catalog, o.r, o.proof, o.v, o.issuedAt, c.ttlSeconds, o.result.resultId, o.result.pairwiseHumanId);
    IssuedExactly(c.catalog, c.adapters, o.r, o.proof, o.checkedAt, o.v, o.issuedAt, c.ttlSeconds, o.result.resultId, o.result.pairwiseHumanId, now);
  }

  /**
   * A verification that nothing disturbs issues: an admitted proof for a registered, unspent
   * nonce, an adapter output that stands the checks, and a provider subject not seen before.
   */
  lemma UndisturbedSatisfyIssues(c: Config, es: seq<Event>, k: nat, r: Requirement, proof: Proof, v: Verified,
                                 resultId: string, pairwise: string)
    requires var w := Run(c, Initial, es);
             && k !in w.ops && ProofAdmitted(c.catalog, c.adapters, r, proof, w.now)
             && r.dependencyId in w.nonces && w.nonces[r.dependencyId] == Nonce(r.nonce, r.expiresAt.value, false)
             && Issue(c.catalog, r, proof, v, w.now, c.ttlSeconds, resultId, pairwise).Some?
             && (v.replayMode == ByVerifier ==>
                   ReplayDigest(EntryOf(c, v).subjectDigest) && NamesSubject(EntryOf(c, v)) && Joined(EntryOf(c, v), '\0') !in w.subjects)
             && ResultIdFree(w, resultId) && PairwiseShaped(pairwise)
    ensures var w := Run(c, Initial, es);
            var w2 := Apply(c, Apply(c, Apply(c, w, Satisfy(k, r, proof)), LandConsume(k)), AdapterReturns(k, v));
            var w3 := Apply(c, Apply(c, w2, LandRecord(k)), Sign(k, resultId, pairwise));
            k in w3.ops && w3.ops[k].Issued? && w3.ops[k].result.resultId == resultId && w3.ops[k].result.dependencyId == r.dependencyId
  {
    var w := Run(c, Initial, es);
    ReachesAdapter(c, w, k, r, proof);
    var w1 := Apply(c, Apply(c, w, Satisfy(k, r, proof)), LandConsume(k));
    ReachesSigning(c, w1, k, v);
    var w3 := Apply(c, Apply(c, w1, AdapterReturns(k, v)), LandRecord(k));
    assert forall j :: j in w3.ops && w3.ops[j].Issued? ==> j != k && j in w.ops && w.ops[j] == w3.ops[j];
  }

  lemma ReachesAdapter(c: Config, w: World, k: nat, r: Requirement, proof: Proof)
    requires k !in w.ops && ProofAdmitted(c.catalog, c.adapters, r, proof, w.now)
    requires r.dependencyId in w.nonces && w.nonces[r.dependencyId] == Nonce(r.nonce, r.expiresAt.value, false)
    ensures var w1 := Apply(c, Apply(c, w, Satisfy(k, r, proof)), LandConsume(k));
            w1.ops == w.ops[k := Verifying(r, proof, w.now)] && w1.subjects == w.subjects && w1.now == w.now
  {
    var w0 := Apply(c, w, Satisfy(k, r, proof));
    assert w0.ops[k] == Consuming(r, proof, w.now) && w0.nonces == w.nonces;
    assert ServeNonce(w0.nonces, Consume(r.dependencyId, r.nonce, w.now)).1;
  }

  lemma ReachesSigning(c: Config, w: World, k: nat, v: Verified)
    requires k in w.ops && w.ops[k].Verifying?
    requires Issue(c.catalog, w.ops[k].r, w.ops[k].proof, v, w.now, c.ttlSeconds, "", "").Some?
    requires v.replayMode == ByVerifier ==>
               ReplayDigest(EntryOf(c, v).subjectDigest) && NamesSubject(EntryOf(c, v)) && Joined(EntryOf(c, v), '\0') !in w.subjects
    ensures Apply(c, Apply(c, w, AdapterReturns(k, v)), LandRecord(k)).ops
            == w.ops[k := Signing(w.ops[k].r, w.ops[k].proof, w.ops[k].checkedAt, v, w.now)]
  {
    var o, w1 := w.ops[k], Apply(c, w, AdapterReturns(k, v));
    assert w1.ops[k] == if v.replayMode == ByVerifier then Recording(o.r, o.proof, o.checkedAt, v, w.now)
                        else Signing(o.r, o.proof, o.checkedAt, v, w.now);
  }
}
