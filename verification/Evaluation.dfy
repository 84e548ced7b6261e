/**
 * What evaluateHumanResult (src/policy.ts) decides, stated on the fields themselves: the facts that
 * make a result satisfied, and for each fact the one failure that breaking it causes.
 */
module Evaluation {
  import opened Basics
  import opened Policy

  // Entry i is the first that names this provider and method.
  predicate FirstFor(accepts: seq<MethodRequirement>, providerId: string, methodId: string, i: int) {
    && 0 <= i < |accepts| && accepts[i].providerId == providerId && accepts[i].methodId == methodId
    && forall j :: 0 <= j < i ==> accepts[j].providerId != providerId || accepts[j].methodId != methodId
  }

  lemma {:induction false} MatchingIsFirst(accepts: seq<MethodRequirement>, providerId: string, methodId: string) returns (i: int)
    ensures Matching(accepts, providerId, methodId).Some? ==>
              FirstFor(accepts, providerId, methodId, i) && Matching(accepts, providerId, methodId) == Some(accepts[i])
    ensures Matching(accepts, providerId, methodId).None? ==>
              forall j :: 0 <= j < |accepts| ==> accepts[j].providerId != providerId || accepts[j].methodId != methodId
    decreases |accepts|
  {
    if accepts == [] {
      i := 0;
    } else if accepts[0].providerId == providerId && accepts[0].methodId == methodId {
      i := 0;
    } else {
      i := MatchingIsFirst(accepts[1..], providerId, methodId);
      i := i + 1;
    }
  }

  lemma FirstIsMatching(accepts: seq<MethodRequirement>, providerId: string, methodId: string, i: int)
    requires FirstFor(accepts, providerId, methodId, i)
    ensures Matching(accepts, providerId, methodId) == Some(accepts[i])
  {
    var k := MatchingIsFirst(accepts, providerId, methodId);
    if Matching(accepts, providerId, methodId).Some? && k != i { assert false; }
  }

  // The result repeats what the requirement fixes.
  predicate SameRequest(r: Requirement, h: HumanResult) {
    && h.dependencyId == r.dependencyId && h.purpose == r.purpose
    && h.audience == r.resource.audience && h.requestDigest == r.resource.requestDigest
    && h.binding.kind == r.binding.kind && h.binding.value == r.binding.value
  }

  // It meets what the requirement asks of its method.
  predicate AsAccepted(m: MethodRequirement, h: HumanResult) {
    && h.descriptorVersion == m.descriptorVersion && h.scope.kind in m.acceptedScopeKinds
    && (m.verificationModes.None? || h.mode in m.verificationModes.value)
    && (m.assuranceLevel.None? || h.assuranceLevel == m.assuranceLevel)
  }

  // It meets what the catalog says of its method.
  predicate AsDescribed(d: Descriptor, h: HumanResult) {
    && d.enabled && h.descriptorVersion == d.version && h.scope.kind in d.nativeScopeKinds && h.mode in d.verificationModes
    && (h.assuranceLevel.None? || h.assuranceLevel.value in d.assuranceLevels)
    && h.claim == d.claim && h.nonClaims == d.nonClaims
  }

  // Its times are in order: created, verified and issued, now, expired, one after the other.
  predicate InTime(r: Requirement, m: MethodRequirement, h: HumanResult, now: int) {
    && r.createdAt.Some? && r.expiresAt.Some? && h.verifiedAt.Some? && h.issuedAt.Some? && h.expiresAt.Some?
    && r.createdAt.value <= h.issuedAt.value <= now < h.expiresAt.value <= r.expiresAt.value
    && h.verifiedAt.value <= h.issuedAt.value
    && (m.maximumProofAgeSeconds.None? || now <= h.verifiedAt.value + m.maximumProofAgeSeconds.value * 1_000)
  }

  predicate Stands(r: Requirement, h: HumanResult, catalog: Catalog, i: int, now: int) {
    && FirstFor(r.accepts, h.providerId, h.methodId, i)
    && h.providerId + ":" + h.methodId in catalog
    && SameRequest(r, h) && AsAccepted(r.accepts[i], h)
    && AsDescribed(catalog[h.providerId + ":" + h.methodId], h)
    && InTime(r, r.accepts[i], h, now)
  }

  /** A result is satisfied exactly when it stands: nothing else is asked, and nothing less suffices. */
  lemma SatisfiedExactly(r: Requirement, h: HumanResult, catalog: Catalog, now: int)
    ensures Satisfied(r, h, catalog, now) <==> exists i :: Stands(r, h, catalog, i, now)
  {
    if Satisfied(r, h, catalog, now) {
      var i := MatchingIsFirst(r.accepts, h.providerId, h.methodId);
      NothingIsDue(r, h, catalog, i, now);
    }
    if i :| Stands(r, h, catalog, i, now) {
      FirstIsMatching(r.accepts, h.providerId, h.methodId, i);
      forall code: Code ensures !Due(code, r, h, catalog, now) { }
    }
  }

  lemma NothingIsDue(r: Requirement, h: HumanResult, catalog: Catalog, i: int, now: int)
    requires Satisfied(r, h, catalog, now)
    requires Matching(r.accepts, h.providerId, h.methodId).Some? ==>
               FirstFor(r.accepts, h.providerId, h.methodId, i) && Matching(r.accepts, h.providerId, h.methodId) == Some(r.accepts[i])
    ensures Stands(r, h, catalog, i, now)
  {
    assert !Due(DependencyMismatch, r, h, catalog, now) && !Due(PurposeMismatch, r, h, catalog, now);
    assert !Due(AudienceMismatch, r, h, catalog, now) && !Due(RequestDigestMismatch, r, h, catalog, now);
    assert !Due(BindingMismatch, r, h, catalog, now) && !Due(MethodNotAccepted, r, h, catalog, now);
    assert !Due(MethodUnknown, r, h, catalog, now);
    MethodStands(r, h, catalog, i, now);
    TimesStand(r, h, catalog, i, now);
  }

  lemma MethodStands(r: Requirement, h: HumanResult, catalog: Catalog, i: int, now: int)
    requires Satisfied(r, h, catalog, now) && FirstFor(r.accepts, h.providerId, h.methodId, i)
    requires Matching(r.accepts, h.providerId, h.methodId) == Some(r.accepts[i]) && h.providerId + ":" + h.methodId in catalog
    ensures AsAccepted(r.accepts[i], h) && AsDescribed(catalog[h.providerId + ":" + h.methodId], h)
  {
    assert !Due(MethodDisabled, r, h, catalog, now) && !Due(DescriptorVersionMismatch, r, h, catalog, now);
    assert !Due(ScopeNotAccepted, r, h, catalog, now) && !Due(ModeNotAccepted, r, h, catalog, now);
    assert !Due(AssuranceNotAccepted, r, h, catalog, now) && !Due(ClaimMismatch, r, h, catalog, now);
  }

  lemma TimesStand(r: Requirement, h: HumanResult, catalog: Catalog, i: int, now: int)
    requires Satisfied(r, h, catalog, now) && FirstFor(r.accepts, h.providerId, h.methodId, i)
    requires Matching(r.accepts, h.providerId, h.methodId) == Some(r.accepts[i])
    ensures InTime(r, r.accepts[i], h, now)
  {
    assert !Due(FutureTimestamp, r, h, catalog, now) && !Due(Expired, r, h, catalog, now);
    assert !Due(TimeWindowInvalid, r, h, catalog, now) && !Due(ProofStale, r, h, catalog, now);
  }

  // ---------------------------------------------------------------- one broken fact, one failure

  function Reported(r: Requirement, h: HumanResult, catalog: Catalog, now: int): seq<Code> { DueAmong(|CODES|, r, h, catalog, now) }

  function Position(c: Code): nat {
    match c
    case DependencyMismatch => 0 case PurposeMismatch => 1 case AudienceMismatch => 2 case RequestDigestMismatch => 3
    case BindingMismatch => 4 case MethodNotAccepted => 5 case MethodUnknown => 6 case MethodDisabled => 7
    case DescriptorVersionMismatch => 8 case ScopeNotAccepted => 9 case ModeNotAccepted => 10 case AssuranceNotAccepted => 11
    case ClaimMismatch => 12 case FutureTimestamp => 13 case Expired => 14 case TimeWindowInvalid => 15 case ProofStale => 16
  }

  lemma InPlace(c: Code)
    ensures Position(c) < |CODES| && CODES[Position(c)] == c
  {
  }

  lemma {:induction false} OnlyAmong(n: nat, code: Code, r: Requirement, h: HumanResult, catalog: Catalog, now: int)
    requires n <= |CODES| && forall c: Code :: Due(c, r, h, catalog, now) <==> c == code
    requires forall i :: 0 <= i < |CODES| && CODES[i] == code ==> i == Position(code)
    ensures DueAmong(n, r, h, catalog, now) == if Position(code) < n then [code] else []
    decreases n
  {
    if n > 0 {
      OnlyAmong(n - 1, code, r, h, catalog, now);
      InPlace(code);
    }
  }

  lemma ListedOnce(code: Code, i: nat)
    requires i < |CODES| && CODES[i] == code
    ensures i == Position(code)
  {
  }

  lemma OnlyDue(code: Code, r: Requirement, h: HumanResult, catalog: Catalog, now: int)
    requires forall c: Code :: Due(c, r, h, catalog, now) <==> c == code
    ensures Reported(r, h, catalog, now) == [code]
  {
    forall i | 0 <= i < |CODES| && CODES[i] == code ensures i == Position(code) { ListedOnce(code, i); }
    OnlyAmong(|CODES|, code, r, h, catalog, now);
    InPlace(code);
  }

  lemma ReportedIsDue(r: Requirement, h: HumanResult, catalog: Catalog, now: int, c: Code)
    ensures c in Reported(r, h, catalog, now) <==> Due(c, r, h, catalog, now)
  {
    DueAmongSound(|CODES|, r, h, catalog, now);
    assert CODES[..|CODES|] == CODES;
    EveryCode(c);
  }

  predicate Reports(c: Code, r: Requirement, h: HumanResult, catalog: Catalog, now: int) { c in Reported(r, h, catalog, now) }

  /** However many facts are broken at once, each is reported on its own: what names and binds the request, and the method. */
  lemma RequestFailures(r: Requirement, h: HumanResult, catalog: Catalog, now: int)
    ensures Reports(DependencyMismatch, r, h, catalog, now) <==> h.dependencyId != r.dependencyId
    ensures Reports(PurposeMismatch, r, h, catalog, now) <==> h.purpose != r.purpose
    ensures Reports(AudienceMismatch, r, h, catalog, now) <==> h.audience != r.resource.audience
    ensures Reports(RequestDigestMismatch, r, h, catalog, now) <==> h.requestDigest != r.resource.requestDigest
    ensures Reports(BindingMismatch, r, h, catalog, now) <==> h.binding.kind != r.binding.kind || h.binding.value != r.binding.value
    ensures Reports(MethodNotAccepted, r, h, catalog, now) <==> forall i :: !FirstFor(r.accepts, h.providerId, h.methodId, i)
    ensures Reports(MethodUnknown, r, h, catalog, now) <==> h.providerId + ":" + h.methodId !in catalog
  {
    ReportedIsDue(r, h, catalog, now, DependencyMismatch);
    ReportedIsDue(r, h, catalog, now, PurposeMismatch);
    ReportedIsDue(r, h, catalog, now, AudienceMismatch);
    ReportedIsDue(r, h, catalog, now, RequestDigestMismatch);
    ReportedIsDue(r, h, catalog, now, BindingMismatch);
    ReportedIsDue(r, h, catalog, now, MethodNotAccepted);
    ReportedIsDue(r, h, catalog, now, MethodUnknown);
    var k := MatchingIsFirst(r.accepts, h.providerId, h.methodId);
  }

  /** The accepted entry and the descriptor are each compared where they are there at all. */
  lemma MethodFailures(r: Requirement, h: HumanResult, catalog: Catalog, now: int, i: int)
    requires FirstFor(r.accepts, h.providerId, h.methodId, i) && h.providerId + ":" + h.methodId in catalog
    ensures var m, d := r.accepts[i], catalog[h.providerId + ":" + h.methodId];
            && (Reports(MethodDisabled, r, h, catalog, now) <==> !d.enabled)
            && (Reports(DescriptorVersionMismatch, r, h, catalog, now) <==>
                  h.descriptorVersion != m.descriptorVersion || h.descriptorVersion != d.version)
            && (Reports(ScopeNotAccepted, r, h, catalog, now) <==>
                  h.scope.kind !in m.acceptedScopeKinds || h.scope.kind !in d.nativeScopeKinds)
            && (Reports(ModeNotAccepted, r, h, catalog, now) <==>
                  (m.verificationModes.Some? && h.mode !in m.verificationModes.value) || h.mode !in d.verificationModes)
            && (Reports(AssuranceNotAccepted, r, h, catalog, now) <==>
                  (m.assuranceLevel.Some? && h.assuranceLevel != m.assuranceLevel)
                  || (h.assuranceLevel.Some? && h.assuranceLevel.value !in d.assuranceLevels))
            && (Reports(ClaimMismatch, r, h, catalog, now) <==> h.claim != d.claim || h.nonClaims != d.nonClaims)
  {
    FirstIsMatching(r.accepts, h.providerId, h.methodId, i);
    ReportedIsDue(r, h, catalog, now, MethodDisabled);
    ReportedIsDue(r, h, catalog, now, DescriptorVersionMismatch);
    ReportedIsDue(r, h, catalog, now, ScopeNotAccepted);
    ReportedIsDue(r, h, catalog, now, ModeNotAccepted);
    ReportedIsDue(r, h, catalog, now, AssuranceNotAccepted);
    ReportedIsDue(r, h, catalog, now, ClaimMismatch);
  }

  predicate OfMethod(c: Code) {
    || c == MethodDisabled || c == DescriptorVersionMismatch || c == ScopeNotAccepted || c == ModeNotAccepted
    || c == AssuranceNotAccepted || c == ClaimMismatch || c == ProofStale
  }

  /** A result of a method that is neither accepted nor known is compared with nothing of either. */
  lemma UnknownMethodFailures(r: Requirement, h: HumanResult, catalog: Catalog, now: int, c: Code)
    requires OfMethod(c) && h.providerId + ":" + h.methodId !in catalog
    requires forall i :: 0 <= i < |r.accepts| ==> r.accepts[i].providerId != h.providerId || r.accepts[i].methodId != h.methodId
    ensures !Reports(c, r, h, catalog, now)
  {
    var k := MatchingIsFirst(r.accepts, h.providerId, h.methodId);
    ReportedIsDue(r, h, catalog, now, c);
  }

  /** The three time checks, each on its own. */
  lemma TimeFailures(r: Requirement, h: HumanResult, catalog: Catalog, now: int)
    ensures Reports(FutureTimestamp, r, h, catalog, now) <==> !(h.verifiedAt.Some? && h.issuedAt.Some? && h.verifiedAt.value <= now && h.issuedAt.value <= now)
    ensures Reports(Expired, r, h, catalog, now) <==> !(h.expiresAt.Some? && now < h.expiresAt.value)
    ensures Reports(TimeWindowInvalid, r, h, catalog, now) <==>
              !(&& r.createdAt.Some? && r.expiresAt.Some? && h.verifiedAt.Some? && h.issuedAt.Some? && h.expiresAt.Some?
                && h.verifiedAt.value <= h.issuedAt.value && r.createdAt.value <= h.issuedAt.value < r.expiresAt.value
                && h.issuedAt.value < h.expiresAt.value <= r.expiresAt.value)
  {
    ReportedIsDue(r, h, catalog, now, FutureTimestamp);
    ReportedIsDue(r, h, catalog, now, Expired);
    ReportedIsDue(r, h, catalog, now, TimeWindowInvalid);
  }

  /** Of a satisfied result, another dependency is reported as itself and nothing else; and likewise in all that follows. */
  lemma OtherDependency(r: Requirement, h: HumanResult, catalog: Catalog, now: int, x: string)
    requires Satisfied(r, h, catalog, now) && x != h.dependencyId
    ensures Reported(r, h.(dependencyId := x), catalog, now) == [DependencyMismatch]
  {
    assert !Due(DependencyMismatch, r, h, catalog, now);
    AsBefore(r, h, catalog, now, DependencyMismatch, h.(dependencyId := x));
  }

  /** Another purpose, or another audience. */
  lemma OtherUse(r: Requirement, h: HumanResult, catalog: Catalog, now: int, x: string)
    requires Satisfied(r, h, catalog, now)
    ensures x != h.purpose ==> Reported(r, h.(purpose := x), catalog, now) == [PurposeMismatch]
    ensures x != h.audience ==> Reported(r, h.(audience := x), catalog, now) == [AudienceMismatch]
  {
    assert !Due(PurposeMismatch, r, h, catalog, now) && !Due(AudienceMismatch, r, h, catalog, now);
    if x != h.purpose { AsBefore(r, h, catalog, now, PurposeMismatch, h.(purpose := x)); }
    if x != h.audience { AsBefore(r, h, catalog, now, AudienceMismatch, h.(audience := x)); }
  }

  /** Another request, or another binding. */
  lemma OtherRequest(r: Requirement, h: HumanResult, catalog: Catalog, now: int, x: string, b: Binding)
    requires Satisfied(r, h, catalog, now)
    ensures x != h.requestDigest ==> Reported(r, h.(requestDigest := x), catalog, now) == [RequestDigestMismatch]
    ensures b != h.binding ==> Reported(r, h.(binding := b), catalog, now) == [BindingMismatch]
  {
    assert !Due(RequestDigestMismatch, r, h, catalog, now) && !Due(BindingMismatch, r, h, catalog, now);
    if x != h.requestDigest { AsBefore(r, h, catalog, now, RequestDigestMismatch, h.(requestDigest := x)); }
    if b != h.binding { AsBefore(r, h, catalog, now, BindingMismatch, h.(binding := b)); }
  }

  // The changed result is judged like the satisfied one on every code but this.
  lemma AsBefore(r: Requirement, h: HumanResult, catalog: Catalog, now: int, code: Code, g: HumanResult)
    requires Satisfied(r, h, catalog, now) && Due(code, r, g, catalog, now)
    requires forall c: Code :: c != code ==> (Due(c, r, g, catalog, now) ==> Due(c, r, h, catalog, now))
    ensures Reported(r, g, catalog, now) == [code]
  {
    OnlyDue(code, r, g, catalog, now);
  }

  /** A requirement that no longer lists the method, whatever else it lists. */
  lemma NoLongerAccepted(r: Requirement, h: HumanResult, catalog: Catalog, now: int, accepts: seq<MethodRequirement>)
    requires Satisfied(r, h, catalog, now)
    requires forall j :: 0 <= j < |accepts| ==> accepts[j].providerId != h.providerId || accepts[j].methodId != h.methodId
    ensures Reported(r.(accepts := accepts), h, catalog, now) == [MethodNotAccepted]
  {
    var i := MatchingIsFirst(accepts, h.providerId, h.methodId);
    forall c: Code ensures Due(c, r.(accepts := accepts), h, catalog, now) <==> c == MethodNotAccepted {
      assert !Due(c, r, h, catalog, now);
    }
    OnlyDue(MethodNotAccepted, r.(accepts := accepts), h, catalog, now);
  }

  /** A catalog that no longer knows the method, one that has disabled it, and one that describes another version of it. */
  lemma CatalogMovedOn(r: Requirement, h: HumanResult, catalog: Catalog, now: int, version: string)
    requires Satisfied(r, h, catalog, now)
    ensures var key := h.providerId + ":" + h.methodId;
            && key in catalog
            && Reported(r, h, catalog - {key}, now) == [MethodUnknown]
            && Reported(r, h, catalog[key := catalog[key].(enabled := false)], now) == [MethodDisabled]
            && (version != h.descriptorVersion ==>
                  Reported(r, h, catalog[key := catalog[key].(version := version)], now) == [DescriptorVersionMismatch])
  {
    var key := h.providerId + ":" + h.methodId;
    assert !Due(MethodUnknown, r, h, catalog, now);
    CatalogChanged(r, h, catalog, now, MethodUnknown, catalog - {key});
    CatalogChanged(r, h, catalog, now, MethodDisabled, catalog[key := catalog[key].(enabled := false)]);
    if version != h.descriptorVersion {
      CatalogChanged(r, h, catalog, now, DescriptorVersionMismatch, catalog[key := catalog[key].(version := version)]);
    }
  }

  lemma CatalogChanged(r: Requirement, h: HumanResult, catalog: Catalog, now: int, code: Code, later: Catalog)
    requires Satisfied(r, h, catalog, now) && Due(code, r, h, later, now)
    requires forall c: Code :: c != code ==> (Due(c, r, h, later, now) ==> Due(c, r, h, catalog, now))
    ensures Reported(r, h, later, now) == [code]
  {
    OnlyDue(code, r, h, later, now);
  }

  /** Another version or another claim. */
  lemma OtherClaims(r: Requirement, h: HumanResult, catalog: Catalog, now: int, version: string, claim: string, nonClaims: seq<string>)
    requires Satisfied(r, h, catalog, now)
    ensures version != h.descriptorVersion ==>
              Reported(r, h.(descriptorVersion := version), catalog, now) == [DescriptorVersionMismatch]
    ensures claim != h.claim || nonClaims != h.nonClaims ==>
              Reported(r, h.(claim := claim, nonClaims := nonClaims), catalog, now) == [ClaimMismatch]
  {
    assert !Due(MethodUnknown, r, h, catalog, now) && !Due(DescriptorVersionMismatch, r, h, catalog, now);
    assert !Due(ClaimMismatch, r, h, catalog, now);
    if version != h.descriptorVersion { AsBefore(r, h, catalog, now, DescriptorVersionMismatch, h.(descriptorVersion := version)); }
    if claim != h.claim || nonClaims != h.nonClaims {
      AsBefore(r, h, catalog, now, ClaimMismatch, h.(claim := claim, nonClaims := nonClaims));
    }
  }

  // The accepted entry and the descriptor that a satisfied result is judged by.
  lemma JudgedBy(r: Requirement, h: HumanResult, catalog: Catalog, now: int, i: int)
    requires Satisfied(r, h, catalog, now) && FirstFor(r.accepts, h.providerId, h.methodId, i)
    ensures Matching(r.accepts, h.providerId, h.methodId) == Some(r.accepts[i])
    ensures h.providerId + ":" + h.methodId in catalog
    ensures DescriptorFor(catalog, h) == Some(catalog[h.providerId + ":" + h.methodId])
  {
    FirstIsMatching(r.accepts, h.providerId, h.methodId, i);
    assert !Due(MethodUnknown, r, h, catalog, now);
  }

  /** A scope that the requirement or the catalog does not allow. */
  lemma OtherScope(r: Requirement, h: HumanResult, catalog: Catalog, now: int, i: int, scope: Scope)
    requires Satisfied(r, h, catalog, now) && FirstFor(r.accepts, h.providerId, h.methodId, i)
    ensures h.providerId + ":" + h.methodId in catalog
    ensures scope.kind !in r.accepts[i].acceptedScopeKinds || scope.kind !in catalog[h.providerId + ":" + h.methodId].nativeScopeKinds ==>
              Reported(r, h.(scope := scope), catalog, now) == [ScopeNotAccepted]
  {
    JudgedBy(r, h, catalog, now, i);
    if scope.kind !in r.accepts[i].acceptedScopeKinds || scope.kind !in catalog[h.providerId + ":" + h.methodId].nativeScopeKinds {
      AsBefore(r, h, catalog, now, ScopeNotAccepted, h.(scope := scope));
    }
  }

  /** A verification mode that the requirement, where it names any, or the catalog does not allow. */
  lemma OtherMode(r: Requirement, h: HumanResult, catalog: Catalog, now: int, i: int, mode: Mode)
    requires Satisfied(r, h, catalog, now) && FirstFor(r.accepts, h.providerId, h.methodId, i)
    ensures h.providerId + ":" + h.methodId in catalog
    ensures var allowed := r.accepts[i].verificationModes;
            (allowed.Some? && mode !in allowed.value) || mode !in catalog[h.providerId + ":" + h.methodId].verificationModes ==>
              Reported(r, h.(mode := mode), catalog, now) == [ModeNotAccepted]
  {
    JudgedBy(r, h, catalog, now, i);
    var allowed := r.accepts[i].verificationModes;
    if (allowed.Some? && mode !in allowed.value) || mode !in catalog[h.providerId + ":" + h.methodId].verificationModes {
      AsBefore(r, h, catalog, now, ModeNotAccepted, h.(mode := mode));
    }
  }

  /** A label other than the one the requirement names, or one that the catalog does not list. */
  lemma OtherLabel(r: Requirement, h: HumanResult, catalog: Catalog, now: int, i: int, grade: Option<string>)
    requires Satisfied(r, h, catalog, now) && FirstFor(r.accepts, h.providerId, h.methodId, i)
    ensures h.providerId + ":" + h.methodId in catalog
    ensures var asked := r.accepts[i].assuranceLevel;
            (asked.Some? && grade != asked) || (grade.Some? && grade.value !in catalog[h.providerId + ":" + h.methodId].assuranceLevels) ==>
              Reported(r, h.(assuranceLevel := grade), catalog, now) == [AssuranceNotAccepted]
  {
    JudgedBy(r, h, catalog, now, i);
    var asked := r.accepts[i].assuranceLevel;
    if (asked.Some? && grade != asked) || (grade.Some? && grade.value !in catalog[h.providerId + ":" + h.methodId].assuranceLevels) {
      AsBefore(r, h, catalog, now, AssuranceNotAccepted, h.(assuranceLevel := grade));
    }
  }

  /** Judged before its issue; at or after its expiry while its proof is young enough; or with its proof too old before that. */
  lemma OtherMoment(r: Requirement, h: HumanResult, catalog: Catalog, now: int, i: int, at: int)
    requires Satisfied(r, h, catalog, now) && FirstFor(r.accepts, h.providerId, h.methodId, i)
    ensures h.verifiedAt.Some? && h.issuedAt.Some? && h.expiresAt.Some?
    ensures at < h.issuedAt.value ==> Reported(r, h, catalog, at) == [FutureTimestamp]
    ensures var age := r.accepts[i].maximumProofAgeSeconds;
            var tooOld := age.Some? && at > h.verifiedAt.value + age.value * 1_000;
            && (at >= h.expiresAt.value && !tooOld ==> Reported(r, h, catalog, at) == [Expired])
            && (h.issuedAt.value <= at < h.expiresAt.value && tooOld ==> Reported(r, h, catalog, at) == [ProofStale])
            && (at >= h.expiresAt.value && tooOld ==> Reported(r, h, catalog, at) == [Expired, ProofStale])
  {
    FirstIsMatching(r.accepts, h.providerId, h.methodId, i);
    assert !Due(FutureTimestamp, r, h, catalog, now) && !Due(Expired, r, h, catalog, now);
    assert !Due(TimeWindowInvalid, r, h, catalog, now) && !Due(ProofStale, r, h, catalog, now);
    var age := r.accepts[i].maximumProofAgeSeconds;
    var tooOld := age.Some? && at > h.verifiedAt.value + age.value * 1_000;
    if at < h.issuedAt.value { MomentChanged(r, h, catalog, now, FutureTimestamp, at); }
    if at >= h.expiresAt.value && !tooOld { MomentChanged(r, h, catalog, now, Expired, at); }
    if h.issuedAt.value <= at < h.expiresAt.value && tooOld { MomentChanged(r, h, catalog, now, ProofStale, at); }
    if at >= h.expiresAt.value && tooOld { ExpiredAndStale(r, h, catalog, now, at); }
  }

  lemma MomentChanged(r: Requirement, h: HumanResult, catalog: Catalog, now: int, code: Code, at: int)
    requires Satisfied(r, h, catalog, now) && Due(code, r, h, catalog, at)
    requires forall c: Code :: c != code ==> (Due(c, r, h, catalog, at) ==> Due(c, r, h, catalog, now))
    ensures Reported(r, h, catalog, at) == [code]
  {
    OnlyDue(code, r, h, catalog, at);
  }

  lemma {:induction false} NoneAmong(n: nat, r: Requirement, h: HumanResult, catalog: Catalog, now: int)
    requires n <= |CODES| && forall i :: 0 <= i < n ==> !Due(CODES[i], r, h, catalog, now)
    ensures DueAmong(n, r, h, catalog, now) == []
    decreases n
  {
    if n > 0 { NoneAmong(n - 1, r, h, catalog, now); }
  }

  lemma ExpiredAndStale(r: Requirement, h: HumanResult, catalog: Catalog, now: int, at: int)
    requires Satisfied(r, h, catalog, now) && Due(Expired, r, h, catalog, at) && Due(ProofStale, r, h, catalog, at)
    requires now <= at
    ensures Reported(r, h, catalog, at) == [Expired, ProofStale]
  {
    forall i | 0 <= i < 14 ensures !Due(CODES[i], r, h, catalog, at) { assert !Due(CODES[i], r, h, catalog, now); }
    NoneAmong(14, r, h, catalog, at);
    assert DueAmong(15, r, h, catalog, at) == [Expired];
    assert !Due(TimeWindowInvalid, r, h, catalog, now);
    assert DueAmong(16, r, h, catalog, at) == [Expired];
  }

  /** A requirement whose own window does not enclose the result's. */
  lemma OtherWindow(r: Requirement, h: HumanResult, catalog: Catalog, now: int, createdAt: Time, expiresAt: Time)
    requires Satisfied(r, h, catalog, now)
    ensures h.issuedAt.Some? && h.expiresAt.Some?
    ensures !(createdAt.Some? && expiresAt.Some? && createdAt.value <= h.issuedAt.value && h.expiresAt.value <= expiresAt.value) ==>
              Reported(r.(createdAt := createdAt, expiresAt := expiresAt), h, catalog, now) == [TimeWindowInvalid]
  {
    assert !Due(FutureTimestamp, r, h, catalog, now) && !Due(Expired, r, h, catalog, now) && !Due(TimeWindowInvalid, r, h, catalog, now);
    var s := r.(createdAt := createdAt, expiresAt := expiresAt);
    if !(createdAt.Some? && expiresAt.Some? && createdAt.value <= h.issuedAt.value && h.expiresAt.value <= expiresAt.value) {
      forall c: Code ensures Due(c, s, h, catalog, now) <==> c == TimeWindowInvalid { assert !Due(c, r, h, catalog, now); }
      OnlyDue(TimeWindowInvalid, s, h, catalog, now);
    }
  }
}
