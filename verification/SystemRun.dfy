/**
 * The brokered handoff, the verifier and the protected resource running together. Each keeps
 * its own clock and its own steps; they meet in two places. A poll completes a handoff only with
 * a token that satisfy returned for that dependency, and a resource sees only tokens that the
 * verifier signed.
 */
module SystemRun {
  import opened Basics
  import H = HandoffRecords
  import B = Broker
  import S = BrokerSafety
  import V = Verifier
  import P = ProtectedResource
  import RT = ResourceTheorems
  import opened Policy
  import opened CanonicalJson
  import opened RequestDigests

  /** sign gives the token text of a result; signing is only required to tell results apart. */
  datatype Config = Config(verifier: V.Config, resource: P.Config, sign: HumanResult -> string)

  ghost predicate Distinguishes(c: Config) { forall a, b :: c.sign(a) == c.sign(b) ==> a == b }

  datatype System = System(broker: B.World, verifier: V.World, resource: P.World)

  datatype Event = InBroker(b: B.Event) | InVerifier(v: V.Event) | InResource(p: P.Event)

  const Initial := System(B.Initial, V.Initial, P.Initial)

  // Dependency and token of every result issued so far.
  function Tokens(c: Config, v: V.World): set<(string, string)> {
    set k | k in v.ops && v.ops[k].Issued? :: (v.ops[k].result.dependencyId, c.sign(v.ops[k].result))
  }

  function Results(v: V.World): set<HumanResult> { set k | k in v.ops && v.ops[k].Issued? :: v.ops[k].result }

  predicate Enabled(c: Config, s: System, e: Event) {
    match e
    case InBroker(Decide(k, Proved(token))) =>
      k in s.broker.ops && s.broker.ops[k].Held? ==> (s.broker.ops[k].claim.dependencyId, token) in Tokens(c, s.verifier)
    case InResource(Grant(result)) => result in Results(s.verifier)
    case _ => true
  }

  function Apply(c: Config, s: System, e: Event): System {
    if !Enabled(c, s, e) then s
    else match e
      case InBroker(b) => s.(broker := B.Apply(s.broker, b))
      case InVerifier(v) => s.(verifier := V.Apply(c.verifier, s.verifier, v))
      case InResource(p) => s.(resource := P.Apply(c.resource, s.resource, p))
  }

  function Run(c: Config, s: System, es: seq<Event>): System
    decreases |es|
  {
    if es == [] then s else Run(c, Apply(c, s, es[0]), es[1..])
  }

  // ---------------------------------------------------------------- completions carry issued tokens

  predicate Backed(r: H.Handoff, tokens: set<(string, string)>) {
    r.status == H.Completed ==>
      r.protectedCompletion.Some? && H.Unprotect(r.protectedCompletion.value).Some?
      && (r.dependencyId, H.Unprotect(r.protectedCompletion.value).value) in tokens
  }

  predicate OpBacked(o: B.Op, tokens: set<(string, string)>) {
    o.Writing? && o.kind.Complete? ==> (o.prev.dependencyId, o.kind.token) in tokens
  }

  ghost predicate AllBacked(w: B.World, tokens: set<(string, string)>) {
    && (forall k :: k in w.ops ==> OpBacked(w.ops[k], tokens))
    && (forall id :: id in w.history ==> HistoryBacked(w.history[id], tokens))
  }

  ghost predicate HistoryBacked(h: seq<B.Entry>, tokens: set<(string, string)>) {
    forall i :: 0 <= i < |h| ==> Backed(h[i].record, tokens)
  }

  lemma NextBacked(k: H.Write, r: H.Handoff, tokens: set<(string, string)>)
    requires k.Complete? ==> (r.dependencyId, k.token) in tokens
    ensures Backed(H.Next(k, r), tokens)
  {
    if k.Complete? { H.UnprotectProtect(k.token); }
  }

  lemma BrokerStepBacked(w: B.World, e: B.Event, tokens: set<(string, string)>)
    requires B.Inv(w) && AllBacked(w, tokens)
    requires e.Decide? && e.verdict.Proved? && e.op in w.ops && w.ops[e.op].Held? ==>
               (w.ops[e.op].claim.dependencyId, e.verdict.token) in tokens
    ensures AllBacked(B.Apply(w, e), tokens)
  {
    var w2 := B.Apply(w, e);
    BrokerOpsBacked(w, e, tokens);
    forall id | id in w2.history ensures HistoryBacked(w2.history[id], tokens) {
      BrokerHistoryBacked(w, e, tokens, id);
    }
  }

  lemma BrokerOpsBacked(w: B.World, e: B.Event, tokens: set<(string, string)>)
    requires forall k :: k in w.ops ==> OpBacked(w.ops[k], tokens)
    requires e.Decide? && e.verdict.Proved? && e.op in w.ops && w.ops[e.op].Held? ==>
               (w.ops[e.op].claim.dependencyId, e.verdict.token) in tokens
    ensures var w2 := B.Apply(w, e); forall k :: k in w2.ops ==> OpBacked(w2.ops[k], tokens)
  {
    var w2 := B.Apply(w, e);
    forall k | k in w2.ops ensures OpBacked(w2.ops[k], tokens) {
      if k in w.ops { assert OpBacked(w.ops[k], tokens); }
    }
  }

  lemma BrokerHistoryBacked(w: B.World, e: B.Event, tokens: set<(string, string)>, id: string)
    requires B.Inv(w) && AllBacked(w, tokens) && id in B.Apply(w, e).history
    ensures HistoryBacked(B.Apply(w, e).history[id], tokens)
  {
    S.HistoryGrows(w, e);
    if id in w.history { assert HistoryBacked(w.history[id], tokens); }
    if S.Added(w, e).Some? { AddedBacked(w, e, tokens); }
  }

  lemma AddedBacked(w: B.World, e: B.Event, tokens: set<(string, string)>)
    requires B.Inv(w) && AllBacked(w, tokens) && S.Added(w, e).Some?
    ensures Backed(S.Added(w, e).value.record, tokens)
  {
    assert e.op in w.ops && B.OpHolds(w, e.op, w.ops[e.op]) && OpBacked(w.ops[e.op], tokens);
    if e.LandWrite? { NextBacked(w.ops[e.op].kind, w.ops[e.op].prev, tokens); }
  }

  lemma VerifierStepKeeps(c: Config, v: V.World, e: V.Event)
    ensures Tokens(c, v) <= Tokens(c, V.Apply(c.verifier, v, e)) && Results(v) <= Results(V.Apply(c.verifier, v, e))
  {
    var v2 := V.Apply(c.verifier, v, e);
    forall k | k in v.ops && v.ops[k].Issued? ensures k in v2.ops && v2.ops[k] == v.ops[k] {}
  }

  ghost predicate Inv(c: Config, s: System) {
    && B.Inv(s.broker) && V.Inv(c.verifier, s.verifier) && P.Inv(c.resource, s.resource)
    && AllBacked(s.broker, Tokens(c, s.verifier))
    && s.resource.issued <= Results(s.verifier)
  }

  lemma MoreTokens(w: B.World, a: set<(string, string)>, b: set<(string, string)>)
    requires AllBacked(w, a) && a <= b
    ensures AllBacked(w, b)
  {
    forall id | id in w.history ensures HistoryBacked(w.history[id], b) { assert HistoryBacked(w.history[id], a); }
    forall k | k in w.ops ensures OpBacked(w.ops[k], b) { assert OpBacked(w.ops[k], a); }
  }

  lemma ResourceStepIssued(c: P.Config, w: P.World, e: P.Event)
    ensures P.Apply(c, w, e).issued <= w.issued + (if e.Grant? then {e.token} else {})
  {
  }

  lemma Step(c: Config, s: System, e: Event)
    requires Inv(c, s)
    ensures Inv(c, Apply(c, s, e))
  {
    if Enabled(c, s, e) {
      match e {
        case InBroker(b) =>
          S.Step(s.broker, b);
          BrokerStepBacked(s.broker, b, Tokens(c, s.verifier));
        case InVerifier(v) =>
          V.Step(c.verifier, s.verifier, v);
          VerifierStepKeeps(c, s.verifier, v);
          MoreTokens(s.broker, Tokens(c, s.verifier), Tokens(c, Apply(c, s, e).verifier));
        case InResource(p) =>
          P.Step(c.resource, s.resource, p);
          ResourceStepIssued(c.resource, s.resource, p);
      }
    }
  }

  lemma {:induction false} RunKeepsInv(c: Config, s: System, es: seq<Event>)
    requires Inv(c, s)
    ensures Inv(c, Run(c, s, es))
    decreases |es|
  {
    if es != [] { Step(c, s, es[0]); RunKeepsInv(c, Apply(c, s, es[0]), es[1..]); }
  }

  lemma Reachable(c: Config, es: seq<Event>)
    ensures Inv(c, Run(c, Initial, es))
  {
    assert Tokens(c, V.Initial) == {} && Results(V.Initial) == {};
    RunKeepsInv(c, Initial, es);
  }

  // ---------------------------------------------------------------- theorems

  lemma OneResultPerDependency(c: Config, s: System, a: HumanResult, b: HumanResult)
    requires Inv(c, s) && a in Results(s.verifier) && b in Results(s.verifier)
    requires a.dependencyId == b.dependencyId || a.resultId == b.resultId
    ensures a == b
  {
    var v := s.verifier;
    var j :| j in v.ops && v.ops[j].Issued? && v.ops[j].result == a;
    var k :| k in v.ops && v.ops[k].Issued? && v.ops[k].result == b;
    assert V.OpHolds(c.verifier, v, v.ops[j]) && V.OpHolds(c.verifier, v, v.ops[k]);
    var apart := V.Apart(c.verifier, v.ops[j], v.ops[k]);
  }

  /** The resource's assumption about its verifier holds: it may accept every result that the verifier issues. */
  lemma EveryIssuedResultIsGrantable(c: Config, es: seq<Event>, result: HumanResult)
    requires var s := Run(c, Initial, es); result in Results(s.verifier) && result !in s.resource.issued
    ensures P.Grantable(Run(c, Initial, es).resource, result)
  {
    Reachable(c, es);
    var s := Run(c, Initial, es);
    forall t | t in s.resource.issued ensures t.dependencyId != result.dependencyId && t.resultId != result.resultId {
      if t.dependencyId == result.dependencyId || t.resultId == result.resultId { OneResultPerDependency(c, s, t, result); }
    }
  }

  /** A poll that answered with a token answered with the one result issued for its handoff's dependency. */
  lemma AnswerIsIssued(c: Config, s: System, k: nat, id: string, token: string) returns (result: HumanResult)
    requires Inv(c, s) && k in s.broker.ops && s.broker.ops[k] == B.Finished(id, B.Done(token))
    ensures id in s.broker.history && s.broker.history[id] != []
    ensures result in Results(s.verifier) && c.sign(result) == token
    ensures result.dependencyId == B.Last(s.broker.history[id]).dependencyId
  {
    var w := s.broker;
    assert B.OpHolds(w, k, w.ops[k]);
    assert HistoryBacked(w.history[id], Tokens(c, s.verifier));
    H.UnprotectProtect(token);
    var last := B.Last(w.history[id]);
    assert (last.dependencyId, token) in Tokens(c, s.verifier);
    var j :| j in s.verifier.ops && s.verifier.ops[j].Issued?
             && (s.verifier.ops[j].result.dependencyId, c.sign(s.verifier.ops[j].result)) == (last.dependencyId, token);
    result := s.verifier.ops[j].result;
  }

  /**
   * End to end: over all its handoffs, polls and protected requests, one dependency ever yields
   * one token. Every poll that completes answers with it, and every request that passes presented it.
   */
  lemma OneTokenPerDependency(c: Config, es: seq<Event>, dependencyId: string)
    returns (token: Option<string>)
    ensures var s := Run(c, Initial, es);
            forall k, id, t :: k in s.broker.ops && s.broker.ops[k] == B.Finished(id, B.Done(t))
              && id in s.broker.history && s.broker.history[id] != [] && B.Last(s.broker.history[id]).dependencyId == dependencyId
              ==> token == Some(t)
    ensures var s := Run(c, Initial, es);
            forall k :: RT.PassedIn(s.resource, k) && s.resource.ops[k].token.dependencyId == dependencyId
              ==> token == Some(c.sign(s.resource.ops[k].token))
  {
    Reachable(c, es);
    var s := Run(c, Initial, es);
    if result :| result in Results(s.verifier) && result.dependencyId == dependencyId {
      token := Some(c.sign(result));
    } else {
      token := None;
    }
    forall k, id, t | k in s.broker.ops && s.broker.ops[k] == B.Finished(id, B.Done(t))
      && id in s.broker.history && s.broker.history[id] != [] && B.Last(s.broker.history[id]).dependencyId == dependencyId
      ensures token == Some(t)
    {
      var answered := AnswerIsIssued(c, s, k, id, t);
      AllOne(c, s, answered, token);
    }
    forall k | RT.PassedIn(s.resource, k) && s.resource.ops[k].token.dependencyId == dependencyId
      ensures token == Some(c.sign(s.resource.ops[k].token))
    {
      assert P.OpHolds(c.resource, s.resource, s.resource.ops[k]);
      AllOne(c, s, s.resource.ops[k].token, token);
    }
  }

  lemma AllOne(c: Config, s: System, result: HumanResult, token: Option<string>)
    requires Inv(c, s) && result in Results(s.verifier)
    requires token.Some? ==> exists r :: r in Results(s.verifier) && r.dependencyId == result.dependencyId && token == Some(c.sign(r))
    requires token.None? ==> forall r :: r in Results(s.verifier) ==> r.dependencyId != result.dependencyId
    ensures token == Some(c.sign(result))
  {
    if token.Some? {
      var r :| r in Results(s.verifier) && r.dependencyId == result.dependencyId && token == Some(c.sign(r));
      OneResultPerDependency(c, s, r, result);
    }
  }

  predicate AttemptedFor(v: V.World, k: nat, dependencyId: string) {
    k in v.ops && V.Attempted(v.ops[k]) && V.DependencyOf(v.ops[k]) == dependencyId
  }

  // A satisfied result says what its requirement says.
  lemma SatisfiedBinds(r: Requirement, h: HumanResult, catalog: Catalog, now: int)
    requires Satisfied(r, h, catalog, now)
    ensures h.purpose == r.purpose && h.audience == r.resource.audience
    ensures h.requestDigest == r.resource.requestDigest && h.binding == r.binding
  {
    assert !Due(PurposeMismatch, r, h, catalog, now) && !Due(AudienceMismatch, r, h, catalog, now);
    assert !Due(RequestDigestMismatch, r, h, catalog, now) && !Due(BindingMismatch, r, h, catalog, now);
  }

  // So does an issued one, of the requirement it was issued for.
  lemma IssuedBinds(c: Config, s: System, j: nat)
    requires Inv(c, s) && j in s.verifier.ops && s.verifier.ops[j].Issued?
    ensures var o := s.verifier.ops[j];
            && o.result.dependencyId == o.r.dependencyId && o.result.purpose == o.r.purpose && o.result.audience == o.r.resource.audience
            && o.result.requestDigest == o.r.resource.requestDigest && o.result.binding == o.r.binding
  {
    assert V.OpHolds(c.verifier, s.verifier, s.verifier.ops[j]);
  }

  lemma OnlyAttempt(c: Config, s: System, i: nat, j: nat)
    requires Inv(c, s) && j in s.verifier.ops && s.verifier.ops[j].Issued?
    requires AttemptedFor(s.verifier, i, s.verifier.ops[j].r.dependencyId)
    ensures i == j
  {
    var apart := V.Apart(c.verifier, s.verifier.ops[i], s.verifier.ops[j]);
  }

  /**
   * And conversely nothing is accepted that no human satisfied: each request that passes goes
   * back to one call of the provider adapter, the only one ever made for its dependency, and that
   * call was made for this very request, binding, purpose and audience.
   */
  lemma PassedGoesBackToOneAttempt(c: Config, less: Order, hash: string -> string, es: seq<Event>, k: nat) returns (j: nat)
    requires P.Deployed(c.resource, c.verifier.catalog, less, hash) && RT.PassedIn(Run(c, Initial, es).resource, k)
    ensures var s := Run(c, Initial, es);
            var o := s.resource.ops[k];
            && j in s.verifier.ops && s.verifier.ops[j].Issued? && s.verifier.ops[j].result == o.token
            && (forall i :: AttemptedFor(s.verifier, i, o.token.dependencyId) ==> i == j)
            && var r := s.verifier.ops[j].r;
            && r.resource.requestDigest == RequestDigest(less, hash, o.q.httpMethod, o.q.uri, o.q.bodyDigest)
            && r.binding == o.q.binding && r.purpose == o.q.purpose && r.resource.audience == o.q.audience
  {
    Reachable(c, es);
    var s := Run(c, Initial, es);
    var o := s.resource.ops[k];
    assert P.OpHolds(c.resource, s.resource, o);
    j :| j in s.verifier.ops && s.verifier.ops[j].Issued? && s.verifier.ops[j].result == o.token;
    IssuedBinds(c, s, j);
    SatisfiedBinds(o.r, o.token, c.verifier.catalog, o.now);
    forall i | AttemptedFor(s.verifier, i, o.token.dependencyId) ensures i == j { OnlyAttempt(c, s, i, j); }
  }

  /** Holding a token means holding the result: two handoffs that answer alike are one dependency's. */
  lemma SameTokenSameDependency(c: Config, es: seq<Event>, k1: nat, id1: string, k2: nat, id2: string, token: string)
    requires Distinguishes(c)
    requires var w := Run(c, Initial, es).broker;
             k1 in w.ops && k2 in w.ops && w.ops[k1] == B.Finished(id1, B.Done(token)) && w.ops[k2] == B.Finished(id2, B.Done(token))
    ensures var h := Run(c, Initial, es).broker.history;
            id1 in h && id2 in h && h[id1] != [] && h[id2] != [] && B.Last(h[id1]).dependencyId == B.Last(h[id2]).dependencyId
  {
    Reachable(c, es);
    var s := Run(c, Initial, es);
    var a := AnswerIsIssued(c, s, k1, id1, token);
    var b := AnswerIsIssued(c, s, k2, id2, token);
  }
}
