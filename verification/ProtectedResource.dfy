/**
 * acceptHumanProof (src/middleware/resource.ts) outside dev-local, as a state machine: each
 * request captures the time once, fetches the stored requirement, judges the token, and passes
 * one gate: the replay store for reads, the acceptance store for mutations. Any number of
 * requests interleave. A token can be presented only if it was issued.
 */
module ProtectedResource {
  import opened Basics
  import opened SingleUse
  import opened MemoryStores
  import opened Policy
  import opened CanonicalJson
  import opened RequestDigests

  /**
   * The two pure checks, evaluateHumanResult under the catalog in use and requestDigest, and
   * whether the state store keeps its rows (PostgreSQL) or drops expired keys (Redis).
   */
  datatype Config = Config(
    satisfied: (Requirement, HumanResult, int) -> bool,
    digest: (string, string, Option<string>) -> string,
    permanent: bool)

  ghost predicate Deployed(c: Config, catalog: Catalog, less: Order, hash: string -> string) {
    && (forall r, h, now :: c.satisfied(r, h, now) <==> Satisfied(r, h, catalog, now))
    && (forall m, u, b :: c.digest(m, u, b) == RequestDigest(less, hash, m, u, b))
  }

  /** One protected request, with the purpose and audience its middleware was configured with. */
  datatype Request = Request(
    httpMethod: string, uri: string, bodyDigest: Option<string>, binding: Binding,
    purpose: string, audience: string, operationId: Option<string>)

  predicate Mutation(q: Request) { Upper(q.httpMethod) !in ["GET", "HEAD", "OPTIONS"] }

  datatype Op =
    | Fetching(q: Request, token: HumanResult, now: nat)
    | AtGate(q: Request, token: HumanResult, now: nat, r: Requirement)
    | Passed(q: Request, token: HumanResult, now: nat, r: Requirement, passedAt: nat, cleaned: bool)
    | Rejected

  datatype World = World(
    now: nat,
    published: map<string, Requirement>,
    requirements: set<string>,
    issued: set<HumanResult>,
    replays: Marks<()>,
    acceptances: Marks<Operation>,
    ops: map<nat, Op>)

  datatype Event =
    | Tick(ms: nat)
    | Publish(r: Requirement)
    | Withdraw(dependencyId: string)
    | Grant(token: HumanResult)
    | Begin(op: nat, q: Request, token: HumanResult)
    | LandGet(op: nat)
    | LandGate(op: nat)
    | LandDelete(op: nat)

  const Initial := World(0, map[], {}, {}, map[], map[], map[])

  function At(w: World, k: nat, o: Op): World { w.(ops := w.ops[k := o]) }

  // assertCurrentMatchesStored
  predicate Matches(c: Config, r: Requirement, q: Request) {
    && r.purpose == q.purpose && r.resource.audience == q.audience
    && r.resource.httpMethod == Upper(q.httpMethod) && r.resource.uri == q.uri
    && r.resource.requestDigest == c.digest(q.httpMethod, q.uri, q.bodyDigest)
    && r.binding == q.binding
  }

  // The verifier issues one result for a dependency and never uses a result ID twice.
  predicate Grantable(w: World, token: HumanResult) {
    forall t :: t in w.issued ==> t.dependencyId != token.dependencyId && t.resultId != token.resultId
  }

  function NatTime(t: Time): Option<nat> { if t.Some? && t.value >= 0 then Some(t.value) else None }

  function ReadCall(o: Op, clock: nat): Call<()>
    requires o.AtGate?
  {
    ConsumeCall(o.token.resultId, None, NatTime(o.token.expiresAt), o.now, clock)
  }

  function WriteCall(o: Op, clock: nat): Call<Operation>
    requires o.AtGate? && o.q.operationId.Some?
  {
    AcceptCall(Acceptance(o.token.resultId, Operation(o.q.operationId.value, o.token.requestDigest), NatTime(o.token.expiresAt)),
               None, o.now, clock)
  }

  // The acceptance store takes these arguments.
  predicate WriteFit(operationId: string, token: HumanResult) {
    AcceptanceFit(Acceptance(token.resultId, Operation(operationId, token.requestDigest), NatTime(token.expiresAt)), None)
  }

  function Gate<T(==)>(c: Config, m: Marks<T>, call: Call<T>): (Marks<T>, Status) {
    if c.permanent then EnterTable(m, call) else EnterPruning(m, call)
  }

  function ReadGate(c: Config, w: World, k: nat): World
    requires k in w.ops && w.ops[k].AtGate?
  {
    var o := w.ops[k];
    var (m, status) := Gate(c, w.replays, ReadCall(o, w.now));
    At(w.(replays := m), k, if status != Fresh then Rejected else Passed(o.q, o.token, o.now, o.r, w.now, false))
  }

  function WriteGate(c: Config, w: World, k: nat): World
    requires k in w.ops && w.ops[k].AtGate? && w.ops[k].q.operationId.Some?
  {
    var o := w.ops[k];
    var (m, status) := Gate(c, w.acceptances, WriteCall(o, w.now));
    At(w.(acceptances := m), k, if status == Replayed then Rejected else Passed(o.q, o.token, o.now, o.r, w.now, true))
  }

  function Apply(c: Config, w: World, e: Event): World {
    match e
    case Tick(ms) => w.(now := w.now + ms)
    case Publish(r) =>
      if r.dependencyId in w.published then w
      else w.(published := w.published[r.dependencyId := r], requirements := w.requirements + {r.dependencyId})
    case Withdraw(id) => w.(requirements := w.requirements - {id})
    case Grant(token) => if Grantable(w, token) then w.(issued := w.issued + {token}) else w
    case Begin(k, q, token) =>
      if k in w.ops then w
      else if token !in w.issued || (Mutation(q) && (q.operationId.None? || q.operationId.value == "")) then At(w, k, Rejected)
      else At(w, k, Fetching(q, token, w.now))
    case LandGet(k) =>
      if k !in w.ops || !w.ops[k].Fetching? then w
      else
        var o := w.ops[k];
        var id := o.token.dependencyId;
        if id !in w.requirements || id !in w.published then At(w, k, Rejected)
        else
          var r := w.published[id];
          if r.expiresAt.None? || r.expiresAt.value <= o.now then At(w.(requirements := w.requirements - {id}), k, Rejected)
          else if !Matches(c, r, o.q) || !c.satisfied(r, o.token, o.now) then At(w, k, Rejected)
          else At(w, k, AtGate(o.q, o.token, o.now, r))
    case LandGate(k) =>
      if k !in w.ops || !w.ops[k].AtGate? then w
      else
        if !Mutation(w.ops[k].q) then ReadGate(c, w, k)
        else if w.ops[k].q.operationId.None? then At(w, k, Rejected)
        else WriteGate(c, w, k)
    case LandDelete(k) =>
      if k !in w.ops || !w.ops[k].Passed? || w.ops[k].cleaned then w
      else At(w.(requirements := w.requirements - {w.ops[k].token.dependencyId}), k, w.ops[k].(cleaned := true))
  }

  function Run(c: Config, w: World, es: seq<Event>): World
    decreases |es|
  {
    if es == [] then w else Run(c, Apply(c, w, es[0]), es[1..])
  }

  // ---------------------------------------------------------------- invariant

  // The store still knows that this request passed, unless it may already have forgotten it.
  predicate Marked(c: Config, w: World, o: Op)
    requires o.Passed?
  {
    var id, e := o.token.resultId, NatTime(o.token.expiresAt);
    && e.Some?
    && (c.permanent || w.now < e.value ==>
          if Mutation(o.q) then
            o.q.operationId.Some? && id in w.acceptances
            && w.acceptances[id] == Mark(Operation(o.q.operationId.value, o.token.requestDigest), e.value)
          else id in w.replays && w.replays[id] == Mark((), e.value))
  }

  predicate OpHolds(c: Config, w: World, o: Op) {
    match o
    case Fetching(_, token, now) => token in w.issued && now <= w.now
    case AtGate(q, token, now, r) => Judged(c, w, q, token, now, r)
    case Passed(q, token, now, r, passedAt, cleaned) =>
      && Judged(c, w, q, token, now, r) && now <= passedAt <= w.now && Marked(c, w, o)
      && (Mutation(q) ==> cleaned && q.operationId.Some? && WriteFit(q.operationId.value, token))
    case Rejected => true
  }

  predicate Judged(c: Config, w: World, q: Request, token: HumanResult, now: nat, r: Requirement) {
    && token in w.issued && now <= w.now
    && token.dependencyId in w.published && w.published[token.dependencyId] == r
    && Matches(c, r, q) && c.satisfied(r, token, now)
  }

  // Two requests that passed with one token are one mutation under one key, or one of them came too late.
  predicate Exclusive(c: Config, a: Op, b: Op) {
    a.Passed? && b.Passed? && a.token == b.token && a.token.expiresAt.Some? ==>
      || (Mutation(a.q) && Mutation(b.q) && a.q.operationId == b.q.operationId)
      || (!c.permanent && Max(a.passedAt, b.passedAt) >= a.token.expiresAt.value)
  }

  // Every mark was made for an issued token, with that token's expiry.
  ghost predicate Recorded<T>(issued: set<HumanResult>, m: Marks<T>, id: string) {
    id in m && exists t :: t in issued && t.resultId == id && NatTime(t.expiresAt) == Some(m[id].expiresAt)
  }

  ghost predicate AllRecorded(w: World) {
    && (forall id :: id in w.acceptances ==> Recorded(w.issued, w.acceptances, id))
    && (forall id :: id in w.replays ==> Recorded(w.issued, w.replays, id))
  }

  ghost predicate Inv(c: Config, w: World) {
    && AllRecorded(w)
    && (forall t, u :: t in w.issued && u in w.issued && (t.dependencyId == u.dependencyId || t.resultId == u.resultId) ==> t == u)
    && (forall k :: k in w.ops ==> OpHolds(c, w, w.ops[k]))
    && (forall j, k :: j in w.ops && k in w.ops && j != k ==> Exclusive(c, w.ops[j], w.ops[k]))
  }

  // ---------------------------------------------------------------- steps

  // What a step may do to everything but operation k.
  ghost predicate Grows(c: Config, w: World, w2: World) {
    && w.now <= w2.now && w.issued <= w2.issued
    && (forall id :: id in w.published ==> id in w2.published && w2.published[id] == w.published[id])
    && (forall id :: id in w.replays && (c.permanent || w2.now < w.replays[id].expiresAt) ==>
          id in w2.replays && w2.replays[id] == w.replays[id])
    && (forall id :: id in w.acceptances && (c.permanent || w2.now < w.acceptances[id].expiresAt) ==>
          id in w2.acceptances && w2.acceptances[id] == w.acceptances[id])
  }

  lemma OpKept(c: Config, w: World, w2: World, o: Op)
    requires OpHolds(c, w, o) && Grows(c, w, w2)
    ensures OpHolds(c, w2, o)
  {
  }

  lemma InvFrom(c: Config, w: World, w2: World, k: nat)
    requires Inv(c, w) && Grows(c, w, w2) && w2.issued == w.issued
    requires AllRecorded(w2)
    requires k in w2.ops && w2.ops == w.ops[k := w2.ops[k]] && OpHolds(c, w2, w2.ops[k])
    requires forall j :: j in w.ops && j != k ==> Exclusive(c, w.ops[j], w2.ops[k]) && Exclusive(c, w2.ops[k], w.ops[j])
    ensures Inv(c, w2)
  {
    forall j | j in w2.ops ensures OpHolds(c, w2, w2.ops[j]) {
      if j != k { OpKept(c, w, w2, w.ops[j]); }
    }
  }

  lemma SameOps(c: Config, w: World, w2: World)
    requires Inv(c, w) && Grows(c, w, w2) && w2.ops == w.ops && w2.acceptances == w.acceptances && w2.replays == w.replays
    requires forall t, u :: t in w2.issued && u in w2.issued && (t.dependencyId == u.dependencyId || t.resultId == u.resultId) ==> t == u
    ensures Inv(c, w2)
  {
    forall j | j in w2.ops ensures OpHolds(c, w2, w2.ops[j]) { OpKept(c, w, w2, w.ops[j]); }
    SameRecords(w, w2);
  }

  // A gate forgets nothing that has not expired, and remembers what it lets through.
  lemma GateKeeps<T>(c: Config, m: Marks<T>, call: Call<T>)
    ensures var m2 := Gate(c, m, call).0;
            forall id :: id in m && (c.permanent || call.clock < m[id].expiresAt) ==> id in m2 && m2[id] == m[id]
    ensures var (m2, status) := Gate(c, m, call);
            && (status != Replayed ==> Passes(call))
            && (status == Fresh ==> call.id in m2 && m2[call.id] == Mark(call.payload, call.expiresAt))
            && (status == SameOperation && call.legacy.None? ==>
                  call.id in m && m2 == (if c.permanent then m else Pruned(m, call.clock)) && m[call.id].payload == call.payload)
    ensures call.id in m && (c.permanent || call.clock < m[call.id].expiresAt) ==>
              Gate(c, m, call).1 != Fresh
    ensures call.id in m && (c.permanent || call.clock < m[call.id].expiresAt) && m[call.id].payload != call.payload && call.legacy.None? ==>
              Gate(c, m, call).1 == Replayed
  {
  }

  lemma KeepRecords<T>(issued: set<HumanResult>, issued2: set<HumanResult>, m: Marks<T>)
    requires issued <= issued2 && forall id :: id in m ==> Recorded(issued, m, id)
    ensures forall id :: id in m ==> Recorded(issued2, m, id)
  {
    forall id | id in m ensures Recorded(issued2, m, id) { assert Recorded(issued, m, id); }
  }

  lemma SameRecords(w: World, w2: World)
    requires AllRecorded(w) && w.issued <= w2.issued && w2.acceptances == w.acceptances && w2.replays == w.replays
    ensures AllRecorded(w2)
  {
    forall id | id in w2.acceptances ensures Recorded(w2.issued, w2.acceptances, id) { assert Recorded(w.issued, w.acceptances, id); }
    forall id | id in w2.replays ensures Recorded(w2.issued, w2.replays, id) { assert Recorded(w.issued, w.replays, id); }
  }

  lemma GateRecords<T>(c: Config, issued: set<HumanResult>, m: Marks<T>, call: Call<T>, token: HumanResult)
    requires forall id :: id in m ==> Recorded(issued, m, id)
    requires token in issued && token.resultId == call.id
    requires Passes(call) ==> NatTime(token.expiresAt) == Some(call.expiresAt)
    ensures var m2 := Gate(c, m, call).0; forall id :: id in m2 ==> Recorded(issued, m2, id)
  {
    var m2 := Gate(c, m, call).0;
    forall id | id in m2 ensures Recorded(issued, m2, id) {
      if id in m && m2[id] == m[id] { assert Recorded(issued, m, id); }
      else { assert token in issued && token.resultId == id; }
    }
  }

  // Two operations at or past a gate with one token are about one stored requirement and one kind of request.
  lemma SameToken(c: Config, w: World, a: Op, b: Op)
    requires OpHolds(c, w, a) && OpHolds(c, w, b) && (a.AtGate? || a.Passed?) && (b.AtGate? || b.Passed?)
    requires a.token.dependencyId == b.token.dependencyId
    ensures a.r == b.r && Mutation(a.q) == Mutation(b.q)
  {
  }

  // A read that passes beside another request with its token comes too late.
  lemma ReadExclusive(c: Config, w: World, k: nat, j: nat)
    requires Inv(c, w) && k in w.ops && w.ops[k].AtGate? && !Mutation(w.ops[k].q) && j in w.ops && j != k
    ensures var o := ReadGate(c, w, k).ops[k]; Exclusive(c, w.ops[j], o) && Exclusive(c, o, w.ops[j])
  {
    var o := w.ops[k];
    if w.ops[j].Passed? && w.ops[j].token == o.token {
      assert OpHolds(c, w, o) && OpHolds(c, w, w.ops[j]);
      SameToken(c, w, w.ops[j], o);
      GateKeeps(c, w.replays, ReadCall(o, w.now));
    }
  }

  lemma ReadHolds(c: Config, w: World, k: nat)
    requires Inv(c, w) && k in w.ops && w.ops[k].AtGate? && !Mutation(w.ops[k].q)
    ensures OpHolds(c, ReadGate(c, w, k), ReadGate(c, w, k).ops[k])
  {
    assert OpHolds(c, w, w.ops[k]);
    GateKeeps(c, w.replays, ReadCall(w.ops[k], w.now));
  }

  lemma StepRead(c: Config, w: World, k: nat)
    requires Inv(c, w) && k in w.ops && w.ops[k].AtGate? && !Mutation(w.ops[k].q)
    ensures Inv(c, ReadGate(c, w, k))
  {
    var o, w2 := w.ops[k], ReadGate(c, w, k);
    assert OpHolds(c, w, o);
    GateKeeps(c, w.replays, ReadCall(o, w.now));
    KeepRecords(w.issued, w2.issued, w.acceptances);
    GateRecords(c, w.issued, w.replays, ReadCall(o, w.now), o.token);
    ReadHolds(c, w, k);
    forall j | j in w.ops && j != k ensures Exclusive(c, w.ops[j], w2.ops[k]) && Exclusive(c, w2.ops[k], w.ops[j]) {
      ReadExclusive(c, w, k, j);
    }
    InvFrom(c, w, w2, k);
  }

  // A mutation that passes beside another under a different key comes too late.
  lemma WriteExclusive(c: Config, w: World, k: nat, j: nat)
    requires Inv(c, w) && k in w.ops && w.ops[k].AtGate? && Mutation(w.ops[k].q) && w.ops[k].q.operationId.Some? && j in w.ops && j != k
    ensures var o := WriteGate(c, w, k).ops[k]; Exclusive(c, w.ops[j], o) && Exclusive(c, o, w.ops[j])
  {
    var o := w.ops[k];
    if w.ops[j].Passed? && w.ops[j].token == o.token {
      assert OpHolds(c, w, o) && OpHolds(c, w, w.ops[j]);
      SameToken(c, w, w.ops[j], o);
      GateKeeps(c, w.acceptances, WriteCall(o, w.now));
    }
  }

  lemma WriteHolds(c: Config, w: World, k: nat)
    requires Inv(c, w) && k in w.ops && w.ops[k].AtGate? && Mutation(w.ops[k].q) && w.ops[k].q.operationId.Some?
    ensures OpHolds(c, WriteGate(c, w, k), WriteGate(c, w, k).ops[k])
  {
    var o := w.ops[k];
    var call := WriteCall(o, w.now);
    assert OpHolds(c, w, o);
    GateKeeps(c, w.acceptances, call);
    if call.id in w.acceptances { assert Recorded(w.issued, w.acceptances, call.id); }
  }

  lemma StepWrite(c: Config, w: World, k: nat)
    requires Inv(c, w) && k in w.ops && w.ops[k].AtGate? && Mutation(w.ops[k].q) && w.ops[k].q.operationId.Some?
    ensures Inv(c, WriteGate(c, w, k))
  {
    var o, w2 := w.ops[k], WriteGate(c, w, k);
    assert OpHolds(c, w, o);
    GateKeeps(c, w.acceptances, WriteCall(o, w.now));
    KeepRecords(w.issued, w2.issued, w.replays);
    GateRecords(c, w.issued, w.acceptances, WriteCall(o, w.now), o.token);
    WriteHolds(c, w, k);
    forall j | j in w.ops && j != k ensures Exclusive(c, w.ops[j], w2.ops[k]) && Exclusive(c, w2.ops[k], w.ops[j]) {
      WriteExclusive(c, w, k, j);
    }
    InvFrom(c, w, w2, k);
  }

  // Steps that touch neither state store and let no request pass.
  lemma Quiet(c: Config, w: World, requirements: set<string>, k: nat, o: Op)
    requires Inv(c, w) && !o.Passed? && OpHolds(c, w, o)
    ensures Inv(c, At(w.(requirements := requirements), k, o))
  {
    var w2 := At(w.(requirements := requirements), k, o);
    SameRecords(w, w2);
    InvFrom(c, w, w2, k);
  }

  lemma GetOutcome(c: Config, w: World, k: nat)
    requires k in w.ops && w.ops[k].Fetching? && OpHolds(c, w, w.ops[k])
    ensures var w2 := Apply(c, w, LandGet(k));
            && w2 == At(w.(requirements := w2.requirements), k, w2.ops[k])
            && !w2.ops[k].Passed? && OpHolds(c, w, w2.ops[k])
  {
  }

  lemma StepGet(c: Config, w: World, k: nat)
    requires Inv(c, w) && k in w.ops && w.ops[k].Fetching?
    ensures Inv(c, Apply(c, w, LandGet(k)))
  {
    var w2 := Apply(c, w, LandGet(k));
    GetOutcome(c, w, k);
    Quiet(c, w, w2.requirements, k, w2.ops[k]);
  }

  lemma StepDelete(c: Config, w: World, k: nat)
    requires Inv(c, w) && k in w.ops && w.ops[k].Passed? && !w.ops[k].cleaned
    ensures Inv(c, Apply(c, w, LandDelete(k)))
  {
    var w2 := Apply(c, w, LandDelete(k));
    assert OpHolds(c, w, w.ops[k]);
    SameRecords(w, w2);
    forall j | j in w.ops && j != k ensures Exclusive(c, w.ops[j], w2.ops[k]) && Exclusive(c, w2.ops[k], w.ops[j]) {
      assert Exclusive(c, w.ops[j], w.ops[k]) && Exclusive(c, w.ops[k], w.ops[j]);
    }
    InvFrom(c, w, w2, k);
  }

  lemma StepBegin(c: Config, w: World, k: nat, q: Request, token: HumanResult)
    requires Inv(c, w) && k !in w.ops
    ensures Inv(c, Apply(c, w, Begin(k, q, token)))
  {
    var w2 := Apply(c, w, Begin(k, q, token));
    assert w2 == At(w.(requirements := w.requirements), k, w2.ops[k]);
    Quiet(c, w, w.requirements, k, w2.ops[k]);
  }

  lemma GateOutcome(c: Config, w: World, k: nat)
    requires k in w.ops && w.ops[k].AtGate?
    ensures Apply(c, w, LandGate(k)) ==
              if !Mutation(w.ops[k].q) then ReadGate(c, w, k)
              else if w.ops[k].q.operationId.Some? then WriteGate(c, w, k)
              else At(w, k, Rejected)
  {
  }

  lemma StepGate(c: Config, w: World, k: nat)
    requires Inv(c, w) && k in w.ops && w.ops[k].AtGate?
    ensures Inv(c, Apply(c, w, LandGate(k)))
  {
    GateOutcome(c, w, k);
    if !Mutation(w.ops[k].q) { StepRead(c, w, k); }
    else if w.ops[k].q.operationId.Some? { StepWrite(c, w, k); }
    else {
      assert At(w, k, Rejected) == At(w.(requirements := w.requirements), k, Rejected);
      Quiet(c, w, w.requirements, k, Rejected);
    }
  }

  lemma StepOutside(c: Config, w: World, e: Event)
    requires Inv(c, w) && (e.Tick? || e.Publish? || e.Withdraw?)
    ensures Inv(c, Apply(c, w, e))
  {
    var w2 := Apply(c, w, e);
    OutsideOutcome(c, w, e);
    SameOps(c, w, w2);
  }

  lemma OutsideOutcome(c: Config, w: World, e: Event)
    requires e.Tick? || e.Publish? || e.Withdraw?
    ensures var w2 := Apply(c, w, e);
            && Grows(c, w, w2) && w2.ops == w.ops && w2.issued == w.issued
            && w2.acceptances == w.acceptances && w2.replays == w.replays
  {
  }

  lemma StepGrant(c: Config, w: World, token: HumanResult)
    requires Inv(c, w) && Grantable(w, token)
    ensures Inv(c, w.(issued := w.issued + {token}))
  {
    SameOps(c, w, w.(issued := w.issued + {token}));
  }

  lemma Step(c: Config, w: World, e: Event)
    requires Inv(c, w)
    ensures Inv(c, Apply(c, w, e))
  {
    match e {
      case Begin(k, q, token) => if k !in w.ops { StepBegin(c, w, k, q, token); }
      case LandGet(k) => if k in w.ops && w.ops[k].Fetching? { StepGet(c, w, k); }
      case LandGate(k) => if k in w.ops && w.ops[k].AtGate? { StepGate(c, w, k); }
      case LandDelete(k) => if k in w.ops && w.ops[k].Passed? && !w.ops[k].cleaned { StepDelete(c, w, k); }
      case Grant(token) => if Grantable(w, token) { StepGrant(c, w, token); }
      case _ => StepOutside(c, w, e);
    }
  }

  lemma {:induction false} RunKeepsInv(c: Config, w: World, es: seq<Event>)
    requires Inv(c, w)
    ensures Inv(c, Run(c, w, es))
    decreases |es|
  {
    if es != [] { Step(c, w, es[0]); RunKeepsInv(c, Apply(c, w, es[0]), es[1..]); }
  }

  lemma Reachable(c: Config, es: seq<Event>)
    ensures Inv(c, Run(c, Initial, es))
  {
    RunKeepsInv(c, Initial, es);
  }
}
