/**
 * What acceptHumanProof lets through, from every reachable world: which requests get to the gate,
 * that a first request passes, that a mutation can be repeated under its key as long as its
 * requirement is stored, and that nothing follows a read once its requirement has been deleted.
 */
module ResourceProgress {
  import opened Basics
  import opened SingleUse
  import opened MemoryStores
  import Framing
  import opened Policy
  import opened RequestDigests
  import opened ProtectedResource
  import opened ResourceTheorems

  // ---------------------------------------------------------------- up to the gate

  predicate ReadMethod(m: string) { Upper(m) == "GET" || Upper(m) == "HEAD" || Upper(m) == "OPTIONS" }

  /** A request is taken up exactly when its token was issued and, unless it is a read, it carries a key. */
  lemma TakenUpExactly(c: Config, w: World, k: nat, q: Request, token: HumanResult)
    requires k !in w.ops
    ensures var w2 := Apply(c, w, Begin(k, q, token));
            && w2 == w.(ops := w2.ops) && k in w2.ops
            && w2.ops[k] == if token in w.issued && (ReadMethod(q.httpMethod) || (q.operationId.Some? && |q.operationId.value| > 0))
                            then Fetching(q, token, w.now) else Rejected
  {
  }

  // The stored requirement is for this very request, with this digest of its method, URI and body.
  predicate ForRequest(r: Requirement, q: Request, digest: string) {
    && r.purpose == q.purpose && r.resource.audience == q.audience
    && r.resource.httpMethod == Upper(q.httpMethod) && r.resource.uri == q.uri && r.resource.requestDigest == digest
    && r.binding.kind == q.binding.kind && r.binding.value == q.binding.value
  }

  /** It gets to the gate exactly when its requirement is stored, unexpired when it began, for this request, and satisfied by its token. */
  lemma FetchedExactly(c: Config, w: World, k: nat)
    requires k in w.ops && w.ops[k].Fetching?
    ensures var o, w2 := w.ops[k], Apply(c, w, LandGet(k));
            var id := o.token.dependencyId;
            && k in w2.ops
            && if id in w.requirements && id in w.published && w.published[id].expiresAt.Some? && o.now < w.published[id].expiresAt.value
                  && ForRequest(w.published[id], o.q, c.digest(o.q.httpMethod, o.q.uri, o.q.bodyDigest))
                  && c.satisfied(w.published[id], o.token, o.now)
               then w2.ops[k] == AtGate(o.q, o.token, o.now, w.published[id]) && w2.requirements == w.requirements
               else w2.ops[k] == Rejected && w2.requirements + {id} == w.requirements + {id}
  {
  }

  // ---------------------------------------------------------------- first requests

  // Nothing else happens while operation k runs through.
  function Whole(c: Config, w: World, k: nat, q: Request, token: HumanResult): World {
    Apply(c, Apply(c, Apply(c, w, Begin(k, q, token)), LandGet(k)), LandGate(k))
  }

  // The token is good for this request now.
  predicate Acceptable(c: Config, w: World, q: Request, token: HumanResult) {
    && token in w.issued && token.dependencyId in w.requirements && token.dependencyId in w.published
    && var r := w.published[token.dependencyId];
    && r.expiresAt.Some? && r.expiresAt.value > w.now && Matches(c, r, q) && c.satisfied(r, token, w.now)
    && token.expiresAt.Some? && token.expiresAt.value > w.now
  }

  /** A read that nothing disturbs passes, if its result was not consumed before. */
  lemma UndisturbedReadPasses(c: Config, w: World, k: nat, q: Request, token: HumanResult)
    requires k !in w.ops && !Mutation(q) && Acceptable(c, w, q, token) && token.resultId != "" && token.resultId !in w.replays
    ensures var w2 := Whole(c, w, k, q, token);
            && k in w2.ops && w2.ops[k] == Passed(q, token, w.now, w.published[token.dependencyId], w.now, false)
            && token.resultId in w2.replays && w2.requirements == w.requirements
  {
    var w2 := Apply(c, Apply(c, w, Begin(k, q, token)), LandGet(k));
    assert w2.ops[k] == AtGate(q, token, w.now, w.published[token.dependencyId]) && w2.replays == w.replays;
    var call := ReadCall(w2.ops[k], w2.now);
    assert Passes(call) && token.resultId !in Pruned(w2.replays, w2.now);
  }

  // The lengths and the digest shape that the acceptance store asks for.
  predicate StoreTakes(operationId: string, token: HumanResult) {
    && 0 < |operationId| <= 512 && 0 < |token.resultId| <= 200
    && |token.requestDigest| == |"sha256:"| + 43 && "sha256:" <= token.requestDigest
    && forall i :: |"sha256:"| <= i < |token.requestDigest| ==> Framing.Base64UrlChar(token.requestDigest[i])
  }

  /** A mutation that nothing disturbs passes, if its result was not accepted before; its key is recorded, and its requirement stays stored. */
  lemma UndisturbedMutationPasses(c: Config, w: World, k: nat, q: Request, token: HumanResult)
    requires k !in w.ops && Mutation(q) && q.operationId.Some? && Acceptable(c, w, q, token)
    requires StoreTakes(q.operationId.value, token) && token.resultId !in w.acceptances
    ensures var w2 := Whole(c, w, k, q, token);
            && k in w2.ops && w2.ops[k] == Passed(q, token, w.now, w.published[token.dependencyId], w.now, true)
            && token.resultId in w2.acceptances
            && w2.acceptances[token.resultId].payload == Operation(q.operationId.value, token.requestDigest)
            && w2.requirements == w.requirements
  {
    var w2 := Apply(c, Apply(c, w, Begin(k, q, token)), LandGet(k));
    assert w2.ops[k] == AtGate(q, token, w.now, w.published[token.dependencyId]) && w2.acceptances == w.acceptances;
    var call := WriteCall(w2.ops[k], w2.now);
    assert Passes(call) && token.resultId !in Pruned(w2.acceptances, w2.now);
  }

  // ---------------------------------------------------------------- a mutation may be repeated

  predicate PassedMutation(w: World, j: nat) { PassedIn(w, j) && Mutation(w.ops[j].q) }

  lemma PassedStays(c: Config, w: World, e: Event, j: nat)
    requires Inv(c, w) && PassedMutation(w, j)
    ensures PassedMutation(Apply(c, w, e), j) && Apply(c, w, e).ops[j] == w.ops[j]
  {
    assert OpHolds(c, w, w.ops[j]);
    CleanedStays(c, w, e, j);
  }

  lemma CleanedStays(c: Config, w: World, e: Event, j: nat)
    requires PassedIn(w, j) && w.ops[j].cleaned
    ensures PassedIn(Apply(c, w, e), j) && Apply(c, w, e).ops[j] == w.ops[j]
  {
    if e.LandGate? && e.op in w.ops && w.ops[e.op].AtGate? { GateOutcome(c, w, e.op); GateChangesOne(c, w, e.op); }
  }

  lemma GateChangesOne(c: Config, w: World, k: nat)
    requires k in w.ops && w.ops[k].AtGate?
    ensures !Mutation(w.ops[k].q) ==> ReadGate(c, w, k).ops == w.ops[k := ReadGate(c, w, k).ops[k]]
    ensures Mutation(w.ops[k].q) && w.ops[k].q.operationId.Some? ==> WriteGate(c, w, k).ops == w.ops[k := WriteGate(c, w, k).ops[k]]
  {
  }

  // Only a withdrawal, an expiry or the delete after a read takes a requirement out.
  lemma RequirementKept(c: Config, w: World, e: Event, j: nat)
    requires Inv(c, w) && PassedMutation(w, j) && w.ops[j].token.dependencyId in w.requirements
    requires e != Withdraw(w.ops[j].token.dependencyId)
    requires w.ops[j].r.expiresAt.Some? && w.now < w.ops[j].r.expiresAt.value
    ensures w.ops[j].token.dependencyId in Apply(c, w, e).requirements
  {
    var o := w.ops[j];
    assert OpHolds(c, w, o);
    if e.LandGet? && e.op in w.ops && w.ops[e.op].Fetching? { assert OpHolds(c, w, w.ops[e.op]); }
    if e.LandDelete? && e.op in w.ops && w.ops[e.op].Passed? {
      assert OpHolds(c, w, w.ops[e.op]);
      if w.ops[e.op].token.dependencyId == o.token.dependencyId { SameToken(c, w, o, w.ops[e.op]); }
    }
  }

  lemma {:induction false} TimeGoesOn(c: Config, w: World, es: seq<Event>)
    ensures w.now <= Run(c, w, es).now
    decreases |es|
  {
    if es != [] { TimeGoesOn(c, Apply(c, w, es[0]), es[1..]); }
  }

  lemma {:induction false} RequirementStays(c: Config, w: World, es: seq<Event>, j: nat)
    requires Inv(c, w) && PassedMutation(w, j) && w.ops[j].token.dependencyId in w.requirements
    requires forall e :: e in es ==> e != Withdraw(w.ops[j].token.dependencyId)
    requires w.ops[j].r.expiresAt.Some? && Run(c, w, es).now < w.ops[j].r.expiresAt.value
    ensures var w2 := Run(c, w, es);
            && Inv(c, w2) && PassedMutation(w2, j) && w2.ops[j] == w.ops[j] && w.ops[j].token.dependencyId in w2.requirements
    decreases |es|
  {
    if es != [] {
      TimeGoesOn(c, w, es);
      assert es[0] in es && forall e :: e in es[1..] ==> e in es;
      Step(c, w, es[0]);
      PassedStays(c, w, es[0], j);
      RequirementKept(c, w, es[0], j);
      RequirementStays(c, Apply(c, w, es[0]), es[1..], j);
    }
  }

  /**
   * After a mutation has passed, a matching request under the same key that begins at any later
   * time passes too, whatever has happened in between, as long as the requirement was stored then
   * and has been neither withdrawn nor expired since, and the token has not expired.
   */
  lemma MutationRetryPasses(c: Config, es: seq<Event>, between: seq<Event>, j: nat, k: nat, q: Request)
    requires var w := Run(c, Initial, es);
             && PassedMutation(w, j) && w.ops[j].token.dependencyId in w.requirements
             && (forall e :: e in between ==> e != Withdraw(w.ops[j].token.dependencyId))
             && var o, w2 := w.ops[j], Run(c, w, between);
             && k !in w2.ops && q.operationId == o.q.operationId && Matches(c, o.r, q) && c.satisfied(o.r, o.token, w2.now)
             && o.r.expiresAt.Some? && w2.now < o.r.expiresAt.value
             && o.token.expiresAt.Some? && w2.now < o.token.expiresAt.value
    ensures var o, w2 := Run(c, Initial, es).ops[j], Run(c, Run(c, Initial, es), between);
            var w3 := Whole(c, w2, k, q, o.token);
            k in w3.ops && w3.ops[k] == Passed(q, o.token, w2.now, o.r, w2.now, true) && o.token.dependencyId in w3.requirements
  {
    Reachable(c, es);
    RequirementStays(c, Run(c, Initial, es), between, j);
    RetryFrom(c, Run(c, Run(c, Initial, es), between), j, k, q);
  }

  lemma RetryFrom(c: Config, w: World, j: nat, k: nat, q: Request)
    requires Inv(c, w) && PassedMutation(w, j) && w.ops[j].token.dependencyId in w.requirements && k !in w.ops
    requires q.operationId == w.ops[j].q.operationId && Matches(c, w.ops[j].r, q) && c.satisfied(w.ops[j].r, w.ops[j].token, w.now)
    requires w.ops[j].r.expiresAt.Some? && w.now < w.ops[j].r.expiresAt.value
    requires w.ops[j].token.expiresAt.Some? && w.now < w.ops[j].token.expiresAt.value
    ensures var o, w3 := w.ops[j], Whole(c, w, k, q, w.ops[j].token);
            k in w3.ops && w3.ops[k] == Passed(q, o.token, w.now, o.r, w.now, true) && o.token.dependencyId in w3.requirements
  {
    var o := w.ops[j];
    assert OpHolds(c, w, o);
    var w1 := Apply(c, w, Begin(k, q, o.token));
    assert w1.ops[k] == Fetching(q, o.token, w.now);
    RetryFetched(c, w1, k, o.r);
    RepeatedCall(c, w, j, AcceptCall(Acceptance(o.token.resultId, Operation(o.q.operationId.value, o.token.requestDigest),
                                                NatTime(o.token.expiresAt)), None, w.now, w.now));
    RepeatedPasses(c, Apply(c, w1, LandGet(k)), k);
  }

  lemma RetryFetched(c: Config, w: World, k: nat, r: Requirement)
    requires k in w.ops && w.ops[k].Fetching? && w.ops[k].token.dependencyId in w.requirements
    requires w.ops[k].token.dependencyId in w.published && w.published[w.ops[k].token.dependencyId] == r
    requires Matches(c, r, w.ops[k].q) && c.satisfied(r, w.ops[k].token, w.ops[k].now)
    requires r.expiresAt.Some? && w.ops[k].now < r.expiresAt.value
    ensures Apply(c, w, LandGet(k)) == At(w, k, AtGate(w.ops[k].q, w.ops[k].token, w.ops[k].now, r))
  {
  }

  lemma RepeatedPasses(c: Config, w: World, k: nat)
    requires k in w.ops && w.ops[k].AtGate? && Mutation(w.ops[k].q) && w.ops[k].q.operationId.Some?
    requires Gate(c, w.acceptances, WriteCall(w.ops[k], w.now)).1 == SameOperation
    ensures var o, w2 := w.ops[k], Apply(c, w, LandGate(k));
            k in w2.ops && w2.ops[k] == Passed(o.q, o.token, o.now, o.r, w.now, true) && w2.requirements == w.requirements
  {
    GateOutcome(c, w, k);
  }

  // The acceptance store recognises the operation it accepted.
  lemma RepeatedCall(c: Config, w: World, j: nat, call: Call<Operation>)
    requires Inv(c, w) && PassedMutation(w, j) && w.ops[j].q.operationId.Some?
    requires w.ops[j].token.expiresAt.Some? && w.now < w.ops[j].token.expiresAt.value
    requires var o := w.ops[j];
             call == AcceptCall(Acceptance(o.token.resultId, Operation(o.q.operationId.value, o.token.requestDigest), NatTime(o.token.expiresAt)),
                                None, w.now, w.now)
    ensures Gate(c, w.acceptances, call).1 == SameOperation
  {
    assert OpHolds(c, w, w.ops[j]);
  }

  // ---------------------------------------------------------------- nothing follows a read that has been cleaned up

  lemma {:induction false} GoneForGood(c: Config, w: World, es: seq<Event>, id: string)
    requires id in w.published && id !in w.requirements
    ensures id in Run(c, w, es).published && id !in Run(c, w, es).requirements
    decreases |es|
  {
    if es != [] { GoneForGood(c, Apply(c, w, es[0]), es[1..], id); }
  }

  // A request for this dependency that had not fetched by then has not got to the gate.
  predicate TooLate(w: World, j: nat, id: string) {
    j in w.ops && w.ops[j].Passed? ==> w.ops[j].token.dependencyId != id
  }

  predicate NotYetFetched(w: World, j: nat) { j in w.ops ==> w.ops[j].Fetching? }

  lemma {:induction false} NeverGetsThere(c: Config, w: World, es: seq<Event>, j: nat, id: string)
    requires id in w.published && id !in w.requirements
    requires j in w.ops && (w.ops[j].AtGate? || w.ops[j].Passed?) ==> w.ops[j].token.dependencyId != id
    ensures TooLate(Run(c, w, es), j, id)
    decreases |es|
  {
    if es != [] {
      StillNotThere(c, w, es[0], j, id);
      GoneForGood(c, w, [es[0]], id);
      assert [es[0]][1..] == [];
      NeverGetsThere(c, Apply(c, w, es[0]), es[1..], j, id);
    }
  }

  lemma StillNotThere(c: Config, w: World, e: Event, j: nat, id: string)
    requires id in w.published && id !in w.requirements
    requires j in w.ops && (w.ops[j].AtGate? || w.ops[j].Passed?) ==> w.ops[j].token.dependencyId != id
    ensures var w2 := Apply(c, w, e); j in w2.ops && (w2.ops[j].AtGate? || w2.ops[j].Passed?) ==> w2.ops[j].token.dependencyId != id
  {
    if e.LandGate? && e.op in w.ops && w.ops[e.op].AtGate? { GateOutcome(c, w, e.op); }
  }

  /**
   * A read that passed takes its requirement with it: once its delete has landed, no request of
   * that dependency that had not been fetched by then ever passes, over either kind of store.
   */
  lemma ReadEndsItsDependency(c: Config, es: seq<Event>, k: nat, later: seq<Event>, j: nat)
    requires var w := Run(c, Initial, es); PassedIn(w, k) && !Mutation(w.ops[k].q) && !w.ops[k].cleaned && NotYetFetched(w, j)
    ensures var w := Run(c, Initial, es);
            var w2 := Run(c, Apply(c, w, LandDelete(k)), later);
            w.ops[k].token.dependencyId !in w2.requirements && TooLate(w2, j, w.ops[k].token.dependencyId)
  {
    Reachable(c, es);
    var w := Run(c, Initial, es);
    assert OpHolds(c, w, w.ops[k]);
    var w1 := Apply(c, w, LandDelete(k));
    GoneForGood(c, w1, later, w.ops[k].token.dependencyId);
    NeverGetsThere(c, w1, later, j, w.ops[k].token.dependencyId);
  }
}
