/** What every run of the protected resource guarantees, and where a forgetting store does not. */
module ResourceTheorems {
  import opened Basics
  import opened SingleUse
  import opened Policy
  import opened CanonicalJson
  import opened RequestDigests
  import opened ProtectedResource

  predicate PassedIn(w: World, k: nat) { k in w.ops && w.ops[k].Passed? }

  /** A request that passed presented an issued result that was satisfied, for its own requirement, when it began. */
  lemma PassedWasSatisfied(c: Config, catalog: Catalog, less: Order, hash: string -> string, es: seq<Event>, k: nat)
    requires Deployed(c, catalog, less, hash) && PassedIn(Run(c, Initial, es), k)
    ensures var w := Run(c, Initial, es);
            var o := w.ops[k];
            && o.token in w.issued && o.token.dependencyId in w.published && w.published[o.token.dependencyId] == o.r
            && Satisfied(o.r, o.token, catalog, o.now) && o.now <= o.passedAt <= w.now
  {
    Reachable(c, es);
    assert OpHolds(c, Run(c, Initial, es), Run(c, Initial, es).ops[k]);
  }

  /**
   * All requests that ever passed for one dependency presented one token and share method, URI
   * and binding, and share the body digest too unless two digest texts collide.
   */
  lemma PassedShareTheRequest(c: Config, catalog: Catalog, num: Reader, less: Order, hash: string -> string,
                              es: seq<Event>, j: nat, k: nat)
    requires Deployed(c, catalog, less, hash) && Lawful(num) && StrictTotal(less)
    requires var w := Run(c, Initial, es);
             PassedIn(w, j) && PassedIn(w, k) && w.ops[j].token.dependencyId == w.ops[k].token.dependencyId
    ensures var a, b := Run(c, Initial, es).ops[j], Run(c, Initial, es).ops[k];
            && a.token == b.token && a.r == b.r
            && Upper(a.q.httpMethod) == Upper(b.q.httpMethod) == a.r.resource.httpMethod
            && a.q.uri == b.q.uri == a.r.resource.uri && a.q.binding == b.q.binding == a.r.binding
            && (a.q.bodyDigest == b.q.bodyDigest
                || Collision(hash, Text(less, a.q.httpMethod, a.q.uri, a.q.bodyDigest), Text(less, b.q.httpMethod, b.q.uri, b.q.bodyDigest)))
  {
    Reachable(c, es);
    var w := Run(c, Initial, es);
    var a, b := w.ops[j], w.ops[k];
    assert OpHolds(c, w, a) && OpHolds(c, w, b);
    DigestDetermines(num, less, hash, a.q.httpMethod, a.q.uri, a.q.bodyDigest, b.q.httpMethod, b.q.uri, b.q.bodyDigest);
  }

  /**
   * Of one dependency, two different requests pass only as one mutation under one idempotency
   * key, or, over a store that forgets, when one of them reached its gate after the token expired.
   */
  lemma PassedOnce(c: Config, es: seq<Event>, j: nat, k: nat)
    requires var w := Run(c, Initial, es);
             PassedIn(w, j) && PassedIn(w, k) && j != k && w.ops[j].token.dependencyId == w.ops[k].token.dependencyId
    ensures var a, b := Run(c, Initial, es).ops[j], Run(c, Initial, es).ops[k];
            && a.token.expiresAt.Some?
            && (|| (Mutation(a.q) && Mutation(b.q) && a.q.operationId == b.q.operationId)
                || (!c.permanent && Max(a.passedAt, b.passedAt) >= a.token.expiresAt.value))
  {
    Reachable(c, es);
    var w := Run(c, Initial, es);
    assert OpHolds(c, w, w.ops[j]) && OpHolds(c, w, w.ops[k]);
    assert Exclusive(c, w.ops[j], w.ops[k]);
  }

  /** Over a store that keeps its rows: a read passes at most once, a mutation only under one key, in every run. */
  lemma PermanentStoreAcceptsOnce(c: Config, es: seq<Event>, j: nat, k: nat)
    requires c.permanent
    requires var w := Run(c, Initial, es);
             PassedIn(w, j) && PassedIn(w, k) && j != k && w.ops[j].token.dependencyId == w.ops[k].token.dependencyId
    ensures var a, b := Run(c, Initial, es).ops[j], Run(c, Initial, es).ops[k];
            Mutation(a.q) && Mutation(b.q) && a.q.operationId == b.q.operationId
  {
    PassedOnce(c, es, j, k);
  }

  // ---------------------------------------------------------------- the same over a store that forgets

  // No gate lands after the token presented to it has expired.
  ghost predicate Timely(c: Config, w: World, es: seq<Event>)
    decreases |es|
  {
    es == [] ||
    (&& (es[0].LandGate? && es[0].op in w.ops && w.ops[es[0].op].AtGate? && w.ops[es[0].op].token.expiresAt.Some? ==>
           w.now < w.ops[es[0].op].token.expiresAt.value)
     && Timely(c, Apply(c, w, es[0]), es[1..]))
  }

  ghost predicate AllTimely(w: World) {
    forall k :: k in w.ops && w.ops[k].Passed? && w.ops[k].token.expiresAt.Some? ==> w.ops[k].passedAt < w.ops[k].token.expiresAt.value
  }

  lemma PassingStep(c: Config, w: World, e: Event, k: nat)
    requires PassedIn(Apply(c, w, e), k)
    ensures var o := Apply(c, w, e).ops[k];
            || (PassedIn(w, k) && w.ops[k].token == o.token && w.ops[k].passedAt == o.passedAt)
            || (e == LandGate(k) && k in w.ops && w.ops[k].AtGate? && w.ops[k].token == o.token && o.passedAt == w.now)
  {
    if e.LandGate? && e.op in w.ops && w.ops[e.op].AtGate? { GateOutcome(c, w, e.op); }
  }

  lemma TimelyStep(c: Config, w: World, e: Event)
    requires AllTimely(w)
    requires e.LandGate? && e.op in w.ops && w.ops[e.op].AtGate? && w.ops[e.op].token.expiresAt.Some? ==>
               w.now < w.ops[e.op].token.expiresAt.value
    ensures AllTimely(Apply(c, w, e))
  {
    var w2 := Apply(c, w, e);
    forall k | PassedIn(w2, k) && w2.ops[k].token.expiresAt.Some? ensures w2.ops[k].passedAt < w2.ops[k].token.expiresAt.value {
      PassingStep(c, w, e, k);
    }
  }

  lemma {:induction false} TimelyRun(c: Config, w: World, es: seq<Event>)
    requires AllTimely(w) && Timely(c, w, es)
    ensures AllTimely(Run(c, w, es))
    decreases |es|
  {
    if es != [] { TimelyStep(c, w, es[0]); TimelyRun(c, Apply(c, w, es[0]), es[1..]); }
  }

  /** Over a store that forgets, the same holds of every run whose gates all land before their token expires. */
  lemma TimelyGatesAcceptOnce(c: Config, es: seq<Event>, j: nat, k: nat)
    requires Timely(c, Initial, es)
    requires var w := Run(c, Initial, es);
             PassedIn(w, j) && PassedIn(w, k) && j != k && w.ops[j].token.dependencyId == w.ops[k].token.dependencyId
    ensures var a, b := Run(c, Initial, es).ops[j], Run(c, Initial, es).ops[k];
            Mutation(a.q) && Mutation(b.q) && a.q.operationId == b.q.operationId
  {
    TimelyRun(c, Initial, es);
    PassedOnce(c, es, j, k);
    var w := Run(c, Initial, es);
    Reachable(c, es);
    assert OpHolds(c, w, w.ops[j]) && OpHolds(c, w, w.ops[k]);
  }

  /**
   * And the condition is exact: with one read already passed, a second read of that dependency at
   * the gate passes if and only if the store's clock has reached the token's expiry.
   */
  lemma SecondReadPassesExactlyLate(c: Config, es: seq<Event>, j: nat, k: nat)
    requires !c.permanent
    requires var w := Run(c, Initial, es);
             && PassedIn(w, j) && k in w.ops && w.ops[k].AtGate? && !Mutation(w.ops[k].q)
             && w.ops[j].token.dependencyId == w.ops[k].token.dependencyId
             && w.ops[k].token.resultId != "" && w.ops[k].token.expiresAt.Some?
             && w.ops[k].now < w.ops[k].token.expiresAt.value
    ensures var w := Run(c, Initial, es);
            Apply(c, w, LandGate(k)).ops[k].Passed? <==> w.now >= w.ops[k].token.expiresAt.value
  {
    Reachable(c, es);
    var w := Run(c, Initial, es);
    var a, b := w.ops[j], w.ops[k];
    assert OpHolds(c, w, a) && OpHolds(c, w, b);
    SameToken(c, w, a, b);
    var call := ReadCall(b, w.now);
    assert Passes(call);
    if call.id in w.replays { assert Recorded(w.issued, w.replays, call.id); }
    GateKeeps(c, w.replays, call);
  }

  /** Likewise for a second mutation under another key, once its arguments pass the store's own checks. */
  lemma OtherKeyPassesExactlyLate(c: Config, es: seq<Event>, j: nat, k: nat)
    requires !c.permanent
    requires var w := Run(c, Initial, es);
             && PassedIn(w, j) && k in w.ops && w.ops[k].AtGate? && Mutation(w.ops[k].q)
             && w.ops[j].token.dependencyId == w.ops[k].token.dependencyId
             && w.ops[k].q.operationId.Some? && w.ops[j].q.operationId != w.ops[k].q.operationId
             && Passes(WriteCall(w.ops[k], w.now))
    ensures var w := Run(c, Initial, es);
            Apply(c, w, LandGate(k)).ops[k].Passed? <==> w.now >= w.ops[k].token.expiresAt.value
  {
    Reachable(c, es);
    var w := Run(c, Initial, es);
    var a, b := w.ops[j], w.ops[k];
    assert OpHolds(c, w, a) && OpHolds(c, w, b);
    SameToken(c, w, a, b);
    var call := WriteCall(b, w.now);
    if call.id in w.acceptances { assert Recorded(w.issued, w.acceptances, call.id); }
    GateKeeps(c, w.acceptances, call);
  }

  /** A retry under the same key passes again at any time before the token expires, over either kind of store. */
  lemma SameKeyRetryPasses(c: Config, es: seq<Event>, j: nat, k: nat)
    requires var w := Run(c, Initial, es);
             && PassedIn(w, j) && k in w.ops && w.ops[k].AtGate? && Mutation(w.ops[k].q)
             && w.ops[j].token.dependencyId == w.ops[k].token.dependencyId
             && w.ops[k].q.operationId.Some? && w.ops[j].q.operationId == w.ops[k].q.operationId
             && Passes(WriteCall(w.ops[k], w.now)) && w.now < w.ops[k].token.expiresAt.value
    ensures Apply(c, Run(c, Initial, es), LandGate(k)).ops[k].Passed?
  {
    Reachable(c, es);
    var w := Run(c, Initial, es);
    var a, b := w.ops[j], w.ops[k];
    assert OpHolds(c, w, a) && OpHolds(c, w, b);
    SameToken(c, w, a, b);
  }

  lemma {:induction false} RunSnoc(c: Config, w: World, es: seq<Event>, e: Event)
    ensures Run(c, w, es + [e]) == Apply(c, Run(c, w, es), e)
    decreases |es|
  {
    if es != [] {
      assert (es + [e])[1..] == es[1..] + [e];
      RunSnoc(c, Apply(c, w, es[0]), es[1..], e);
    }
  }

  lemma Then(c: Config, es: seq<Event>, w: World, e: Event) returns (es2: seq<Event>, w2: World)
    requires w == Run(c, Initial, es)
    ensures w2 == Run(c, Initial, es2) == Apply(c, w, e)
  {
    RunSnoc(c, Initial, es, e);
    es2, w2 := es + [e], Apply(c, w, e);
  }

  // Two requests have been let up to the gate at time t.
  lemma TwoAtTheGate(c: Config, r: Requirement, token: HumanResult, q: Request, t: nat) returns (es: seq<Event>, w: World)
    requires !Mutation(q) && Matches(c, r, q) && token.dependencyId == r.dependencyId && c.satisfied(r, token, t)
    requires r.expiresAt.Some? && r.expiresAt.value > t
    ensures w == Run(c, Initial, es) && w.now == t && w.replays == map[]
    ensures w.ops == map[0 := AtGate(q, token, t, r), 1 := AtGate(q, token, t, r)]
  {
    es, w := TwoBegin(c, r, token, q, t);
    es, w := Then(c, es, w, LandGet(0));
    assert w.ops[0] == AtGate(q, token, t, r);
    es, w := Then(c, es, w, LandGet(1));
  }

  lemma TwoBegin(c: Config, r: Requirement, token: HumanResult, q: Request, t: nat) returns (es: seq<Event>, w: World)
    requires !Mutation(q) && token.dependencyId == r.dependencyId
    ensures w == Run(c, Initial, es) && w.now == t && w.replays == map[]
    ensures w.ops == map[0 := Fetching(q, token, t), 1 := Fetching(q, token, t)]
    ensures w.published == map[r.dependencyId := r] && w.requirements == {r.dependencyId}
  {
    es, w := Then(c, [], Initial, Tick(t));
    es, w := Then(c, es, w, Publish(r));
    es, w := Then(c, es, w, Grant(token));
    assert w.issued == {token};
    es, w := Then(c, es, w, Begin(0, q, token));
    es, w := Then(c, es, w, Begin(1, q, token));
  }

  /**
   * Over a store that forgets, every acceptable read, at whatever time it becomes acceptable, has a
   * run in which it passes twice: both requests begin before the token expires, and the second
   * reaches the gate after.
   */
  lemma LateGateAcceptsTwice(c: Config, r: Requirement, token: HumanResult, q: Request, t: nat) returns (es: seq<Event>)
    requires !c.permanent && !Mutation(q) && Matches(c, r, q) && token.dependencyId == r.dependencyId && c.satisfied(r, token, t)
    requires r.expiresAt.Some? && r.expiresAt.value > t && token.resultId != "" && token.expiresAt.Some? && token.expiresAt.value > t
    ensures var w := Run(c, Initial, es); PassedIn(w, 0) && PassedIn(w, 1) && w.ops[0].token == w.ops[1].token == token
  {
    var w;
    es, w := TwoAtTheGate(c, r, token, q, t);
    es, w := Then(c, es, w, LandGate(0));
    assert PassedIn(w, 0);
    es, w := Then(c, es, w, Tick(token.expiresAt.value - t));
    SecondReadPassesExactlyLate(c, es, 0, 1);
    es, w := Then(c, es, w, LandGate(1));
  }
}
