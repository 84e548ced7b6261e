/**
 * The issuing half (service.ts, validation.ts) and the judging half (policy.ts) of the result
 * policy: two separate pieces of code that have to agree. A timestamp is milliseconds, or None
 * where its text does not parse.
 */
module Policy {
  import opened Basics
  import opened Framing

  type Time = Option<int>

  datatype Mode = Backend | Offchain | Onchain | Hybrid

  datatype BindingKind = ToRequest | ToWallet | ToAgentKey | ToSession

  datatype Binding = Binding(kind: BindingKind, value: string)

  datatype Scope = Scope(kind: ScopeKind, id: string)

  datatype MethodRequirement = MethodRequirement(
    providerId: string, methodId: string, descriptorVersion: string,
    acceptedScopeKinds: seq<ScopeKind>, verificationModes: Option<seq<Mode>>,
    assuranceLevel: Option<string>, maximumProofAgeSeconds: Option<int>)

  datatype Resource = Resource(httpMethod: string, uri: string, audience: string, requestDigest: string)

  datatype Requirement = Requirement(
    x424Version: string, dependencyId: string, nonce: string, purpose: string, resource: Resource, binding: Binding,
    accepts: seq<MethodRequirement>, createdAt: Time, expiresAt: Time)

  datatype Proof = Proof(x424Version: string, dependencyId: string, binding: Binding, providerId: string, methodId: string)

  datatype Descriptor = Descriptor(
    version: string, enabled: bool, claim: string, nonClaims: seq<string>, assuranceLevels: seq<string>,
    nativeScopeKinds: seq<ScopeKind>, verificationModes: seq<Mode>)

  type Catalog = map<string, Descriptor>

  /** What an adapter returns. Any replay mode but "verifier" and "provider" is Other. */
  datatype ReplayMode = Unset | ByProvider | ByVerifier | Other

  datatype Verified = Verified(
    providerId: string, methodId: string, descriptorVersion: string, assuranceLevel: Option<string>,
    providerSubject: string, scope: Scope, mode: Mode, replayMode: ReplayMode,
    proofDigest: string, verifiedAt: Time, expiresAt: Option<Time>)

  datatype HumanResult = HumanResult(
    resultId: string, dependencyId: string, purpose: string, audience: string, requestDigest: string, binding: Binding,
    providerId: string, methodId: string, descriptorVersion: string, assuranceLevel: Option<string>,
    pairwiseHumanId: string, scope: Scope, mode: Mode, proofDigest: string, claim: string, nonClaims: seq<string>,
    verifiedAt: Time, issuedAt: Time, expiresAt: Time)

  const VERSION := "0.1"

  function MethodKey(providerId: string, methodId: string): string { providerId + ":" + methodId }

  function Matching(accepts: seq<MethodRequirement>, providerId: string, methodId: string): Option<MethodRequirement>
    decreases |accepts|
  {
    if accepts == [] then None
    else if accepts[0].providerId == providerId && accepts[0].methodId == methodId then Some(accepts[0])
    else Matching(accepts[1..], providerId, methodId)
  }

  // ---------------------------------------------------------------- issuing

  predicate CurrentAt(r: Requirement, now: int) {
    && r.x424Version == VERSION && r.dependencyId != "" && r.nonce != "" && r.accepts != []
    && r.createdAt.Some? && r.expiresAt.Some?
    && r.createdAt.value <= now < r.expiresAt.value && r.createdAt.value < r.expiresAt.value
  }

  function AcceptedMethod(r: Requirement, proof: Proof): Option<MethodRequirement> {
    if proof.x424Version != VERSION || proof.dependencyId != r.dependencyId || proof.binding != r.binding then None
    else Matching(r.accepts, proof.providerId, proof.methodId)
  }

  // satisfy(), up to the point where it consumes the nonce.
  predicate ProofAdmitted(catalog: Catalog, adapters: set<string>, r: Requirement, proof: Proof, now: int) {
    && CurrentAt(r, now)
    && var accepted := AcceptedMethod(r, proof);
       var key := MethodKey(proof.providerId, proof.methodId);
       && accepted.Some? && key in catalog && catalog[key].enabled
       && catalog[key].version == accepted.value.descriptorVersion
       && proof.providerId in adapters
  }

  predicate VerifiedOutput(v: Verified, r: Requirement, proof: Proof, d: Descriptor, now: int) {
    && v.providerId == proof.providerId && v.methodId == proof.methodId && v.descriptorVersion == d.version
    && v.scope.kind in d.nativeScopeKinds && v.mode in d.verificationModes
    && !v.replayMode.Other? && v.providerSubject != "" && v.proofDigest != ""
    && var accepted := AcceptedMethod(r, proof);
       && accepted.Some?
       && v.scope.kind in accepted.value.acceptedScopeKinds
       && (accepted.value.verificationModes.Some? ==> v.mode in accepted.value.verificationModes.value)
       && (accepted.value.assuranceLevel.Some? ==> v.assuranceLevel == accepted.value.assuranceLevel)
       && (v.assuranceLevel.Some? ==> v.assuranceLevel.value in d.assuranceLevels)
       && v.verifiedAt.Some? && v.verifiedAt.value <= now
       && (v.expiresAt.Some? ==> v.expiresAt.value.Some? && v.expiresAt.value.value > now)
       && (accepted.value.maximumProofAgeSeconds.Some? ==>
             now - v.verifiedAt.value <= accepted.value.maximumProofAgeSeconds.value * 1_000)
  }

  function ResultExpiry(r: Requirement, v: Verified, issuedAt: int, ttlSeconds: int): int
    requires r.expiresAt.Some? && (v.expiresAt.Some? ==> v.expiresAt.value.Some?)
  {
    var own := Min(r.expiresAt.value, issuedAt + ttlSeconds * 1_000);
    if v.expiresAt.Some? then Min(own, v.expiresAt.value.value) else own
  }

  // The result that satisfy() builds once the adapter has returned. An empty assurance label is left out.
  function Issue(catalog: Catalog, r: Requirement, proof: Proof, v: Verified, issuedAt: int, ttlSeconds: int,
                 resultId: string, pairwiseHumanId: string): Option<HumanResult>
  {
    var key := MethodKey(proof.providerId, proof.methodId);
    if !CurrentAt(r, issuedAt) || key !in catalog || !VerifiedOutput(v, r, proof, catalog[key], issuedAt) then None
    else Some(HumanResult(
      resultId, r.dependencyId, r.purpose, r.resource.audience, r.resource.requestDigest, r.binding,
      v.providerId, v.methodId, v.descriptorVersion, if v.assuranceLevel == Some("") then None else v.assuranceLevel,
      pairwiseHumanId, v.scope, v.mode, v.proofDigest, catalog[key].claim, catalog[key].nonClaims,
      v.verifiedAt, Some(issuedAt), Some(ResultExpiry(r, v, issuedAt, ttlSeconds))))
  }

  // ---------------------------------------------------------------- judging

  datatype Code =
    | DependencyMismatch | PurposeMismatch | AudienceMismatch | RequestDigestMismatch | BindingMismatch
    | MethodNotAccepted | MethodUnknown | MethodDisabled | DescriptorVersionMismatch | ScopeNotAccepted
    | ModeNotAccepted | AssuranceNotAccepted | ClaimMismatch | FutureTimestamp | Expired | TimeWindowInvalid | ProofStale

  function DescriptorFor(catalog: Catalog, h: HumanResult): Option<Descriptor> {
    var key := MethodKey(h.providerId, h.methodId);
    if key in catalog then Some(catalog[key]) else None
  }

  predicate WindowSound(r: Requirement, h: HumanResult) {
    && r.createdAt.Some? && r.expiresAt.Some? && h.verifiedAt.Some? && h.issuedAt.Some? && h.expiresAt.Some?
    && h.verifiedAt.value <= h.issuedAt.value && r.createdAt.value <= h.issuedAt.value < r.expiresAt.value
    && h.issuedAt.value < h.expiresAt.value <= r.expiresAt.value
  }

  /** When each failure code is due. */
  predicate Due(code: Code, r: Requirement, h: HumanResult, catalog: Catalog, now: int) {
    var accepted := Matching(r.accepts, h.providerId, h.methodId);
    var d := DescriptorFor(catalog, h);
    match code
    case DependencyMismatch => h.dependencyId != r.dependencyId
    case PurposeMismatch => h.purpose != r.purpose
    case AudienceMismatch => h.audience != r.resource.audience
    case RequestDigestMismatch => h.requestDigest != r.resource.requestDigest
    case BindingMismatch => h.binding != r.binding
    case MethodNotAccepted => accepted.None?
    case MethodUnknown => d.None?
    case MethodDisabled => d.Some? && !d.value.enabled
    case DescriptorVersionMismatch =>
      (accepted.Some? && h.descriptorVersion != accepted.value.descriptorVersion) || (d.Some? && h.descriptorVersion != d.value.version)
    case ScopeNotAccepted =>
      (accepted.Some? && h.scope.kind !in accepted.value.acceptedScopeKinds) || (d.Some? && h.scope.kind !in d.value.nativeScopeKinds)
    case ModeNotAccepted =>
      (accepted.Some? && accepted.value.verificationModes.Some? && h.mode !in accepted.value.verificationModes.value)
      || (d.Some? && h.mode !in d.value.verificationModes)
    case AssuranceNotAccepted =>
      (accepted.Some? && accepted.value.assuranceLevel.Some? && h.assuranceLevel != accepted.value.assuranceLevel)
      || (d.Some? && h.assuranceLevel.Some? && h.assuranceLevel.value !in d.value.assuranceLevels)
    case ClaimMismatch => d.Some? && (h.claim != d.value.claim || h.nonClaims != d.value.nonClaims)
    case FutureTimestamp => h.verifiedAt.None? || h.issuedAt.None? || h.verifiedAt.value > now || h.issuedAt.value > now
    case Expired => h.expiresAt.None? || h.expiresAt.value <= now
    case TimeWindowInvalid => !WindowSound(r, h)
    case ProofStale =>
      accepted.Some? && accepted.value.maximumProofAgeSeconds.Some? && h.verifiedAt.Some?
      && now - h.verifiedAt.value > accepted.value.maximumProofAgeSeconds.value * 1_000
  }

  predicate Satisfied(r: Requirement, h: HumanResult, catalog: Catalog, now: int) {
    forall code: Code :: !Due(code, r, h, catalog, now)
  }

  const CODES := [DependencyMismatch, PurposeMismatch, AudienceMismatch, RequestDigestMismatch, BindingMismatch,
                  MethodNotAccepted, MethodUnknown, MethodDisabled, DescriptorVersionMismatch, ScopeNotAccepted,
                  ModeNotAccepted, AssuranceNotAccepted, ClaimMismatch, FutureTimestamp, Expired, TimeWindowInvalid, ProofStale]

  // The codes due among the first n, in the order in which they are reported.
  function DueAmong(n: nat, r: Requirement, h: HumanResult, catalog: Catalog, now: int): seq<Code>
    requires n <= |CODES|
  {
    if n == 0 then []
    else DueAmong(n - 1, r, h, catalog, now) + (if Due(CODES[n-1], r, h, catalog, now) then [CODES[n-1]] else [])
  }

  lemma {:induction false} DueAmongSound(n: nat, r: Requirement, h: HumanResult, catalog: Catalog, now: int)
    requires n <= |CODES|
    ensures forall c :: c in DueAmong(n, r, h, catalog, now) <==> c in CODES[..n] && Due(c, r, h, catalog, now)
  {
    if n > 0 {
      DueAmongSound(n - 1, r, h, catalog, now);
      assert CODES[..n] == CODES[..n-1] + [CODES[n-1]];
    }
  }

  lemma EveryCode(c: Code)
    ensures c in CODES
  {
    var i := match c
      case DependencyMismatch => 0 case PurposeMismatch => 1 case AudienceMismatch => 2 case RequestDigestMismatch => 3
      case BindingMismatch => 4 case MethodNotAccepted => 5 case MethodUnknown => 6 case MethodDisabled => 7
      case DescriptorVersionMismatch => 8 case ScopeNotAccepted => 9 case ModeNotAccepted => 10 case AssuranceNotAccepted => 11
      case ClaimMismatch => 12 case FutureTimestamp => 13 case Expired => 14 case TimeWindowInvalid => 15 case ProofStale => 16;
    assert CODES[i] == c;
  }

  lemma NothingDue(r: Requirement, h: HumanResult, catalog: Catalog, now: int)
    ensures DueAmong(|CODES|, r, h, catalog, now) == [] <==> Satisfied(r, h, catalog, now)
  {
    DueAmongSound(|CODES|, r, h, catalog, now);
    assert CODES[..|CODES|] == CODES;
    var due := DueAmong(|CODES|, r, h, catalog, now);
    forall c: Code ensures c in due <==> Due(c, r, h, catalog, now) { EveryCode(c); }
    if due != [] { assert due[0] in due; }
  }

  // ---------------------------------------------------------------- the two halves agree

  /** The age limit of the accepted method, if any, still holds at `now`. */
  predicate FreshEnough(r: Requirement, proof: Proof, v: Verified, now: int) {
    var accepted := AcceptedMethod(r, proof);
    accepted.Some? && accepted.value.maximumProofAgeSeconds.Some? && v.verifiedAt.Some?
    ==> now - v.verifiedAt.value <= accepted.value.maximumProofAgeSeconds.value * 1_000
  }

  // The result ends with the requirement, after the verifier's own lifetime, or with the provider's
  // proof, whichever comes first.
  predicate EndsFirst(end: Time, r: Requirement, v: Verified, issuedAt: int, ttlSeconds: int) {
    && end.Some? && r.expiresAt.Some?
    && end.value <= r.expiresAt.value && end.value <= issuedAt + ttlSeconds * 1_000
    && (v.expiresAt.Some? ==> v.expiresAt.value.Some? && end.value <= v.expiresAt.value.value)
    && (end == r.expiresAt || end.value == issuedAt + ttlSeconds * 1_000 || v.expiresAt == Some(end))
  }

  lemma ResultEnds(catalog: Catalog, r: Requirement, proof: Proof, v: Verified, issuedAt: int, ttlSeconds: int,
                   resultId: string, pairwise: string)
    requires Issue(catalog, r, proof, v, issuedAt, ttlSeconds, resultId, pairwise).Some?
    ensures EndsFirst(Issue(catalog, r, proof, v, issuedAt, ttlSeconds, resultId, pairwise).value.expiresAt, r, v, issuedAt, ttlSeconds)
  {
  }

  // From its issue until the requirement, the verifier's own lifetime or the provider's proof ends.
  predicate WithinBounds(r: Requirement, v: Verified, issuedAt: int, ttlSeconds: int, now: int) {
    && issuedAt <= now < issuedAt + ttlSeconds * 1_000
    && r.expiresAt.Some? && now < r.expiresAt.value
    && (v.expiresAt.Some? ==> v.expiresAt.value.Some? && now < v.expiresAt.value.value)
  }

  /**
   * A result that satisfy() issued is judged satisfied exactly from its issue until the first of
   * three ends (the requirement's, the verifier's own lifetime, the provider's) and within its
   * method's age limit, except that a requirement asking for the empty label is never satisfied.
   */
  lemma IssuedExactly(catalog: Catalog, adapters: set<string>, r: Requirement, proof: Proof, checkedAt: int, v: Verified,
                      issuedAt: int, ttlSeconds: int, resultId: string, pairwise: string, now: int)
    requires ProofAdmitted(catalog, adapters, r, proof, checkedAt)
    requires Issue(catalog, r, proof, v, issuedAt, ttlSeconds, resultId, pairwise).Some?
    ensures var h := Issue(catalog, r, proof, v, issuedAt, ttlSeconds, resultId, pairwise).value;
            Satisfied(r, h, catalog, now) <==>
              && WithinBounds(r, v, issuedAt, ttlSeconds, now)
              && FreshEnough(r, proof, v, now)
              && AcceptedMethod(r, proof).value.assuranceLevel != Some("")
  {
    var h := Issue(catalog, r, proof, v, issuedAt, ttlSeconds, resultId, pairwise).value;
    var accepted := AcceptedMethod(r, proof).value;
    assert Matching(r.accepts, h.providerId, h.methodId) == Some(accepted);
    if accepted.assuranceLevel == Some("") { assert Due(AssuranceNotAccepted, r, h, catalog, now); }
    else if !(issuedAt <= now) { assert Due(FutureTimestamp, r, h, catalog, now); }
    else if !(now < h.expiresAt.value) { assert Due(Expired, r, h, catalog, now); }
    else if !FreshEnough(r, proof, v, now) { assert Due(ProofStale, r, h, catalog, now); }
    else {
      forall code: Code ensures !Due(code, r, h, catalog, now) {}
    }
  }

  /** A verifier configured with a lifetime that is not positive only ever issues results that are never satisfied. */
  lemma UselessLifetime(catalog: Catalog, adapters: set<string>, r: Requirement, proof: Proof, checkedAt: int, v: Verified,
                        issuedAt: int, ttlSeconds: int, resultId: string, pairwise: string, now: int)
    requires ProofAdmitted(catalog, adapters, r, proof, checkedAt)
    requires Issue(catalog, r, proof, v, issuedAt, ttlSeconds, resultId, pairwise).Some? && ttlSeconds <= 0
    ensures !Satisfied(r, Issue(catalog, r, proof, v, issuedAt, ttlSeconds, resultId, pairwise).value, catalog, now)
  {
    IssuedExactly(catalog, adapters, r, proof, checkedAt, v, issuedAt, ttlSeconds, resultId, pairwise, now);
  }

  /** And with a positive one, and no empty label, every result is satisfied when it is issued. */
  lemma UsefulLifetime(catalog: Catalog, adapters: set<string>, r: Requirement, proof: Proof, checkedAt: int, v: Verified,
                       issuedAt: int, ttlSeconds: int, resultId: string, pairwise: string)
    requires ProofAdmitted(catalog, adapters, r, proof, checkedAt)
    requires Issue(catalog, r, proof, v, issuedAt, ttlSeconds, resultId, pairwise).Some?
    requires ttlSeconds > 0 && AcceptedMethod(r, proof).value.assuranceLevel != Some("")
    ensures Satisfied(r, Issue(catalog, r, proof, v, issuedAt, ttlSeconds, resultId, pairwise).value, catalog, issuedAt)
  {
    IssuedExactly(catalog, adapters, r, proof, checkedAt, v, issuedAt, ttlSeconds, resultId, pairwise, issuedAt);
  }

  /** The exception is real: here an issued result is satisfied at no time at all. */
  lemma EmptyLabelExample() returns (catalog: Catalog, r: Requirement, proof: Proof, v: Verified)
    ensures ProofAdmitted(catalog, {"p"}, r, proof, 0)
    ensures Issue(catalog, r, proof, v, 0, 300, "result", "human").Some?
    ensures forall now :: !Satisfied(r, Issue(catalog, r, proof, v, 0, 300, "result", "human").value, catalog, now)
  {
    var binding := Binding(ToWallet, "w");
    var key := MethodKey("p", "m");
    catalog := map[key := Descriptor("1", true, "claim", ["nothing else"], [""], [Global], [Backend])];
    r := Requirement(VERSION, "d", "n", "purpose", Resource("GET", "u", "a", "sha"), binding,
                     [MethodRequirement("p", "m", "1", [Global], None, Some(""), None)], Some(0), Some(1_000));
    proof := Proof(VERSION, "d", binding, "p", "m");
    v := Verified("p", "m", "1", Some(""), "s", Scope(Global, "g"), Backend, Unset, "x", Some(0), None);
    assert Matching(r.accepts, "p", "m") == Some(r.accepts[0]);
    forall now ensures !Satisfied(r, Issue(catalog, r, proof, v, 0, 300, "result", "human").value, catalog, now) {
      IssuedExactly(catalog, {"p"}, r, proof, 0, v, 0, 300, "result", "human", now);
    }
  }

  /** evaluateHumanResult: the failures found, in order. */
  method EvaluateHumanResult(r: Requirement, h: HumanResult, catalog: Catalog, now: int) returns (satisfied: bool, failures: seq<Code>)
    ensures failures == DueAmong(|CODES|, r, h, catalog, now)
    ensures satisfied <==> Satisfied(r, h, catalog, now)
  {
    failures := [];
    if h.dependencyId != r.dependencyId { failures := failures + [DependencyMismatch]; }
    assert failures == DueAmong(1, r, h, catalog, now);
    if h.purpose != r.purpose { failures := failures + [PurposeMismatch]; }
    assert failures == DueAmong(2, r, h, catalog, now);
    if h.audience != r.resource.audience { failures := failures + [AudienceMismatch]; }
    assert failures == DueAmong(3, r, h, catalog, now);
    if h.requestDigest != r.resource.requestDigest { failures := failures + [RequestDigestMismatch]; }
    assert failures == DueAmong(4, r, h, catalog, now);
    if h.binding.kind != r.binding.kind || h.binding.value != r.binding.value { failures := failures + [BindingMismatch]; }
    assert failures == DueAmong(5, r, h, catalog, now);
    failures := JudgeMethod(r, h, catalog, now, failures);
    failures := JudgeClaims(r, h, catalog, now, failures);
    failures := JudgeTimes(r, h, catalog, now, failures);
    NothingDue(r, h, catalog, now);
    satisfied := failures == [];
  }

  method JudgeMethod(r: Requirement, h: HumanResult, catalog: Catalog, now: int, before: seq<Code>) returns (failures: seq<Code>)
    requires before == DueAmong(5, r, h, catalog, now)
    ensures failures == DueAmong(9, r, h, catalog, now)
  {
    failures := before;
    var accepted := Matching(r.accepts, h.providerId, h.methodId);
    if accepted.None? { failures := failures + [MethodNotAccepted]; }
    assert failures == DueAmong(6, r, h, catalog, now);
    var d := DescriptorFor(catalog, h);
    if d.None? { failures := failures + [MethodUnknown]; } else if !d.value.enabled { failures := failures + [MethodDisabled]; }
    assert DueAmong(8, r, h, catalog, now) == DueAmong(7, r, h, catalog, now) + (if d.Some? && !d.value.enabled then [MethodDisabled] else []);
    assert failures == DueAmong(8, r, h, catalog, now);
    if (accepted.Some? && h.descriptorVersion != accepted.value.descriptorVersion)
       || (d.Some? && h.descriptorVersion != d.value.version) { failures := failures + [DescriptorVersionMismatch]; }
  }

  method JudgeClaims(r: Requirement, h: HumanResult, catalog: Catalog, now: int, before: seq<Code>) returns (failures: seq<Code>)
    requires before == DueAmong(9, r, h, catalog, now)
    ensures failures == DueAmong(13, r, h, catalog, now)
  {
    failures := before;
    var accepted, d := Matching(r.accepts, h.providerId, h.methodId), DescriptorFor(catalog, h);
    if (accepted.Some? && h.scope.kind !in accepted.value.acceptedScopeKinds)
       || (d.Some? && h.scope.kind !in d.value.nativeScopeKinds) { failures := failures + [ScopeNotAccepted]; }
    assert failures == DueAmong(10, r, h, catalog, now);
    if (accepted.Some? && accepted.value.verificationModes.Some? && h.mode !in accepted.value.verificationModes.value)
       || (d.Some? && h.mode !in d.value.verificationModes) { failures := failures + [ModeNotAccepted]; }
    assert failures == DueAmong(11, r, h, catalog, now);
    if (accepted.Some? && accepted.value.assuranceLevel.Some? && accepted.value.assuranceLevel != h.assuranceLevel)
       || (d.Some? && h.assuranceLevel.Some? && h.assuranceLevel.value !in d.value.assuranceLevels) {
      failures := failures + [AssuranceNotAccepted];
    }
    assert failures == DueAmong(12, r, h, catalog, now);
    if d.Some? && (h.claim != d.value.claim || h.nonClaims != d.value.nonClaims) { failures := failures + [ClaimMismatch]; }
  }

  method JudgeTimes(r: Requirement, h: HumanResult, catalog: Catalog, now: int, before: seq<Code>) returns (failures: seq<Code>)
    requires before == DueAmong(13, r, h, catalog, now)
    ensures failures == DueAmong(17, r, h, catalog, now)
  {
    failures := before;
    if h.verifiedAt.None? || h.issuedAt.None? || h.verifiedAt.value > now || h.issuedAt.value > now {
      failures := failures + [FutureTimestamp];
    }
    assert failures == DueAmong(14, r, h, catalog, now);
    if h.expiresAt.None? || h.expiresAt.value <= now { failures := failures + [Expired]; }
    assert failures == DueAmong(15, r, h, catalog, now);
    if r.createdAt.None? || r.expiresAt.None? || h.verifiedAt.None? || h.issuedAt.None? || h.expiresAt.None?
       || h.verifiedAt.value > h.issuedAt.value || h.issuedAt.value < r.createdAt.value || h.issuedAt.value >= r.expiresAt.value
       || h.expiresAt.value <= h.issuedAt.value || h.expiresAt.value > r.expiresAt.value {
      failures := failures + [TimeWindowInvalid];
    }
    assert failures == DueAmong(16, r, h, catalog, now);
    var accepted := Matching(r.accepts, h.providerId, h.methodId);
    if accepted.Some? && accepted.value.maximumProofAgeSeconds.Some? && h.verifiedAt.Some?
       && now - h.verifiedAt.value > accepted.value.maximumProofAgeSeconds.value * 1_000 {
      failures := failures + [ProofStale];
    }
  }
}
