/**
 * What satisfy (src/service.ts) lets through and what it refuses, stated on the fields themselves:
 * which proofs reach the nonce store, which adapter outputs become results, what a result says,
 * and what becomes of the nonce on every way out.
 */
module Issuance {
  import opened Basics
  import opened Framing
  import opened Policy
  import opened Evaluation
  import opened Verifier

  // The challenge is a complete one of this version and has neither to begin nor ended.
  predicate Open(r: Requirement, now: int) {
    && r.x424Version == "0.1" && |r.dependencyId| > 0 && |r.nonce| > 0 && |r.accepts| > 0
    && r.createdAt.Some? && r.expiresAt.Some? && r.createdAt.value <= now && now < r.expiresAt.value
  }

  // The proof answers it, by a method that it accepts, that the catalog enables in the same version, and that has an adapter.
  predicate Answers(catalog: Catalog, adapters: set<string>, r: Requirement, proof: Proof, i: int) {
    && proof.x424Version == "0.1" && proof.dependencyId == r.dependencyId
    && proof.binding.kind == r.binding.kind && proof.binding.value == r.binding.value
    && FirstFor(r.accepts, proof.providerId, proof.methodId, i)
    && proof.providerId + ":" + proof.methodId in catalog
    && catalog[proof.providerId + ":" + proof.methodId].enabled
    && catalog[proof.providerId + ":" + proof.methodId].version == r.accepts[i].descriptorVersion
    && proof.providerId in adapters
  }

  lemma AdmittedExactly(catalog: Catalog, adapters: set<string>, r: Requirement, proof: Proof, now: int)
    ensures ProofAdmitted(catalog, adapters, r, proof, now) <==> Open(r, now) && exists i :: Answers(catalog, adapters, r, proof, i)
    ensures forall i :: FirstFor(r.accepts, proof.providerId, proof.methodId, i) && ProofAdmitted(catalog, adapters, r, proof, now) ==>
              Answers(catalog, adapters, r, proof, i) && AcceptedMethod(r, proof) == Some(r.accepts[i])
  {
    var k := MatchingIsFirst(r.accepts, proof.providerId, proof.methodId);
    if ProofAdmitted(catalog, adapters, r, proof, now) { assert Answers(catalog, adapters, r, proof, k); }
    forall i | FirstFor(r.accepts, proof.providerId, proof.methodId, i)
      ensures Matching(r.accepts, proof.providerId, proof.methodId) == Some(r.accepts[i])
    {
      FirstIsMatching(r.accepts, proof.providerId, proof.methodId, i);
    }
  }

  /** A proof that is not admitted is refused at once, and its nonce stays as it was; an admitted one goes on to the nonce store. */
  lemma RefusedBeforeTheNonce(c: Config, w: World, k: nat, r: Requirement, proof: Proof)
    requires k !in w.ops
    ensures var w2 := Apply(c, w, Satisfy(k, r, proof));
            && w2 == w.(ops := w2.ops) && k in w2.ops
            && w2.ops[k] == if Open(r, w.now) && exists i :: Answers(c.catalog, c.adapters, r, proof, i)
                            then Consuming(r, proof, w.now) else Op.Refused(r.dependencyId, false)
  {
    AdmittedExactly(c.catalog, c.adapters, r, proof, w.now);
  }

  // The nonce registered for this requirement, still unspent at the moment the proof was checked.
  predicate Unspent(w: World, r: Requirement, checkedAt: int) {
    && r.dependencyId in w.nonces && !w.nonces[r.dependencyId].used
    && w.nonces[r.dependencyId].nonce == r.nonce && checkedAt < w.nonces[r.dependencyId].expiresAt
  }

  /** The provider is called exactly when the nonce is unspent, and from then on it is spent, whatever the provider answers. */
  lemma NonceBeforeProvider(c: Config, w: World, k: nat)
    requires Inv(c, w) && k in w.ops && w.ops[k].Consuming?
    ensures var o, w2 := w.ops[k], Apply(c, w, LandConsume(k));
            && k in w2.ops
            && (if Unspent(w, o.r, o.checkedAt)
                then w2.ops[k] == Verifying(o.r, o.proof, o.checkedAt) && Spent(w2, o.r.dependencyId) && !Unspent(w2, o.r, o.checkedAt)
                else w2.ops[k] == Op.Refused(o.r.dependencyId, false) && w2.nonces == w.nonces)
  {
  }

  /** A provider that throws ends the verification, and the nonce stays spent: no later attempt is admitted to the provider. */
  lemma ThrowingSpendsTheNonce(c: Config, w: World, k: nat, es: seq<Event>, j: nat)
    requires Inv(c, w) && k in w.ops && w.ops[k].Verifying?
    ensures var w2 := Run(c, Apply(c, w, AdapterThrows(k)), es);
            j in w2.ops && j != k && DependencyOf(w2.ops[j]) == w.ops[k].r.dependencyId ==> !Attempted(w2.ops[j])
  {
    var w1 := Apply(c, w, AdapterThrows(k));
    Step(c, w, AdapterThrows(k));
    RunKeepsInv(c, w1, es);
    RefusedStays(c, w1, es, k);
    var w2 := Run(c, w1, es);
    if j in w2.ops && j != k { assert Apart(c, w2.ops[k], w2.ops[j]); }
  }

  lemma {:induction false} RefusedStays(c: Config, w: World, es: seq<Event>, k: nat)
    requires k in w.ops && w.ops[k].Refused?
    ensures k in Run(c, w, es).ops && Run(c, w, es).ops[k] == w.ops[k]
    decreases |es|
  {
    if es != [] { RefusedStays(c, Apply(c, w, es[0]), es[1..], k); }
  }

  // ---------------------------------------------------------------- from an adapter's output to a result

  // What the adapter returned is about this proof and within what its descriptor and the requirement allow.
  predicate Fits(v: Verified, m: MethodRequirement, proof: Proof, d: Descriptor) {
    && v.providerId == proof.providerId && v.methodId == proof.methodId && v.descriptorVersion == d.version
    && v.scope.kind in d.nativeScopeKinds && v.scope.kind in m.acceptedScopeKinds
    && v.mode in d.verificationModes && (m.verificationModes.None? || v.mode in m.verificationModes.value)
    && (m.assuranceLevel.None? || v.assuranceLevel == m.assuranceLevel)
    && (v.assuranceLevel.None? || v.assuranceLevel.value in d.assuranceLevels)
    && v.replayMode in {Unset, ByProvider, ByVerifier} && |v.providerSubject| > 0 && |v.proofDigest| > 0
  }

  // It was verified by now, has not ended, and is not too old for the requirement.
  predicate Recent(v: Verified, m: MethodRequirement, now: int) {
    && v.verifiedAt.Some? && v.verifiedAt.value <= now
    && (v.expiresAt.None? || (v.expiresAt.value.Some? && now < v.expiresAt.value.value))
    && (m.maximumProofAgeSeconds.None? || now <= v.verifiedAt.value + m.maximumProofAgeSeconds.value * 1_000)
  }

  /** Of an admitted proof, an output becomes a result exactly when it fits, is recent and the challenge is still open. */
  lemma IssuesExactly(c: Config, r: Requirement, proof: Proof, checkedAt: int, i: int, v: Verified, now: int, resultId: string, pairwise: string)
    requires ProofAdmitted(c.catalog, c.adapters, r, proof, checkedAt) && Answers(c.catalog, c.adapters, r, proof, i)
    ensures Issue(c.catalog, r, proof, v, now, c.ttlSeconds, resultId, pairwise).Some? <==>
              Open(r, now) && Fits(v, r.accepts[i], proof, c.catalog[proof.providerId + ":" + proof.methodId]) && Recent(v, r.accepts[i], now)
  {
    FirstIsMatching(r.accepts, proof.providerId, proof.methodId, i);
    assert AcceptedMethod(r, proof) == Some(r.accepts[i]);
  }

  /** An output that does not become a result ends the verification; one that does goes on, through the replay store if it asks for that. */
  lemma OutputIsJudged(c: Config, w: World, k: nat, i: int, v: Verified)
    requires Inv(c, w) && k in w.ops && w.ops[k].Verifying? && Answers(c.catalog, c.adapters, w.ops[k].r, w.ops[k].proof, i)
    ensures var o, w2 := w.ops[k], Apply(c, w, AdapterReturns(k, v));
            var good := Open(o.r, w.now) && Recent(v, o.r.accepts[i], w.now)
                        && Fits(v, o.r.accepts[i], o.proof, c.catalog[o.proof.providerId + ":" + o.proof.methodId]);
            && w2 == w.(ops := w2.ops) && k in w2.ops
            && w2.ops[k] == (if !good then Op.Refused(o.r.dependencyId, true)
                             else if v.replayMode == ByVerifier then Recording(o.r, o.proof, o.checkedAt, v, w.now)
                             else Signing(o.r, o.proof, o.checkedAt, v, w.now))
  {
    var o := w.ops[k];
    assert OpHolds(c, w, o);
    IssuesExactly(c, o.r, o.proof, o.checkedAt, i, v, w.now, "", "");
  }

  /** Under verifier replay a subject goes on exactly when its digest and scope are well formed and it was not recorded before; then it is. */
  lemma SubjectIsRecorded(c: Config, w: World, k: nat)
    requires k in w.ops && w.ops[k].Recording? && w.ops[k].v.providerId != "" && w.ops[k].v.methodId != ""
    ensures var o, w2 := w.ops[k], Apply(c, w, LandRecord(k));
            var key := Joined(EntryOf(c, o.v), '\0');
            && k in w2.ops
            && if ReplayDigest(c.derive(SubjectOf(o.v))) && o.v.scope.id != "" && key !in w.subjects
               then w2.ops[k] == Signing(o.r, o.proof, o.checkedAt, o.v, o.issuedAt) && w2.subjects == w.subjects + {key}
               else w2.ops[k] == Op.Refused(o.r.dependencyId, true) && w2.subjects == w.subjects
  {
    var entry := EntryOf(c, w.ops[k].v);
    assert ReplayDigest(entry.subjectDigest) ==> entry.subjectDigest != "";
  }

  // What a result says of its requirement and of what was verified.
  predicate Says(h: HumanResult, r: Requirement, v: Verified, d: Descriptor, issuedAt: int) {
    && h.dependencyId == r.dependencyId && h.purpose == r.purpose && h.audience == r.resource.audience
    && h.requestDigest == r.resource.requestDigest && h.binding == r.binding
    && h.providerId == v.providerId && h.methodId == v.methodId && h.descriptorVersion == v.descriptorVersion
    && h.scope == v.scope && h.mode == v.mode && h.proofDigest == v.proofDigest
    && (v.assuranceLevel != Some("") ==> h.assuranceLevel == v.assuranceLevel)
    && h.claim == d.claim && h.nonClaims == d.nonClaims
    && h.verifiedAt == v.verifiedAt && h.issuedAt == Some(issuedAt)
  }

  /**
   * Nothing is issued but what was verified: each result ever issued says what its requirement
   * fixes and what the adapter returned for a proof that was admitted, and its provider subject
   * and pairwise ID have their fixed shapes.
   */
  lemma EveryResultSaysWhatWasVerified(c: Config, es: seq<Event>, k: nat) returns (i: int)
    requires var w := Run(c, Initial, es); k in w.ops && w.ops[k].Issued?
    ensures var o := Run(c, Initial, es).ops[k];
            && Open(o.r, o.checkedAt) && Answers(c.catalog, c.adapters, o.r, o.proof, i)
            && var d := c.catalog[o.proof.providerId + ":" + o.proof.methodId];
            && Open(o.r, o.issuedAt) && Fits(o.v, o.r.accepts[i], o.proof, d) && Recent(o.v, o.r.accepts[i], o.issuedAt)
            && Says(o.result, o.r, o.v, d, o.issuedAt)
            && "x424_human_" <= o.result.pairwiseHumanId && |o.result.pairwiseHumanId| <= 512
            && (o.v.replayMode == ByVerifier ==>
                  "hmac-sha256:" <= c.derive(SubjectOf(o.v)) && |c.derive(SubjectOf(o.v))| == |"hmac-sha256:"| + 43)
  {
    Verifier.Reachable(c, es);
    var w := Run(c, Initial, es);
    var o := w.ops[k];
    assert OpHolds(c, w, o);
    AdmittedExactly(c.catalog, c.adapters, o.r, o.proof, o.checkedAt);
    i :| Answers(c.catalog, c.adapters, o.r, o.proof, i);
    IssuesExactly(c, o.r, o.proof, o.checkedAt, i, o.v, o.issuedAt, o.result.resultId, o.result.pairwiseHumanId);
  }
}
