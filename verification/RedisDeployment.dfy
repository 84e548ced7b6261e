/**
 * The broker as it runs over Redis: operations talk to text keys with a time to live, through
 * the two scripts. Every run of it is, operation by operation, a run of the broker.
 */
module RedisDeployment {
  import opened Basics
  import opened HandoffRecords
  import opened Broker
  import opened BrokerSafety
  import opened CanonicalJson
  import opened HandoffDocuments
  import opened RedisHandoffs
  import Theorems = BrokerTheorems

  datatype Codec = Codec(prefix: string, num: Reader, less: Order)

  ghost predicate Sound(c: Codec) { ReadsNaturals(c.num) && StrictTotal(c.less) }

  /** used holds every handoff ID ever created: IDs are random and never drawn twice. */
  datatype Deployment = Deployment(now: nat, keys: map<string, Key>, used: set<string>, ops: map<nat, Op>)

  // A step, and the caller's own clock when it sent its command; the two clocks may disagree.
  datatype Move = Move(event: Event, sent: int)

  const Empty := Deployment(0, map[], {}, map[])

  function Put(v: Deployment, op: nat, next: Op): Deployment { v.(ops := v.ops[op := next]) }

  function SendCreate(c: Codec, v: Deployment, r: Handoff): (map<string, Key>, bool) {
    CreateScript(v.keys, v.now, RecordKey(c.prefix, r.handoffId), DependencyKey(c.prefix, r.dependencyId),
                 Document(c.less, r), r.expiresAt, r.handoffId)
  }

  function SendUpdate(c: Codec, v: Deployment, prev: Handoff, next: Handoff, expiresAt: int): (map<string, Key>, bool) {
    UpdateScript(v.keys, v.now, RecordKey(c.prefix, prev.handoffId), DependencyKey(c.prefix, prev.dependencyId),
                 Document(c.less, prev), Document(c.less, next), expiresAt, Terminal(next.status), prev.handoffId)
  }

  function Get(c: Codec, v: Deployment, id: string, digest: string): Option<Handoff> {
    var k := RecordKey(c.prefix, id);
    var read := if Live(v.keys, k, v.now) then ReadDocument(c.num, v.keys[k].value) else None;
    if read.Some? && read.value.accessTokenDigest == digest then read else None
  }

  function Deadline(next: Handoff, sent: int): int { Max(sent + 1_000, next.expiresAt) }

  function Act(c: Codec, v: Deployment, m: Move): Deployment {
    match m.event
    case Tick(ms) => v.(now := v.now + ms)
    case Begin(k, start) => if k !in v.ops && MayBegin(v.now, start) then Put(v, k, start) else v
    case LandCreate(k, refused) =>
      if k !in v.ops || !v.ops[k].Creating? then v
      else
        var r := v.ops[k].record;
        var (keys, ok) := SendCreate(c, v, r);
        if refused || r.handoffId in v.used || r.expiresAt <= m.sent || !ok then Put(v, k, Finished(r.handoffId, Refused))
        else Put(v.(keys := keys, used := v.used + {r.handoffId}), k, Finished(r.handoffId, Started))
    case LandRead(k) =>
      if k !in v.ops || !v.ops[k].Reading? then v
      else
        var o := v.ops[k];
        var read := Get(c, v, o.id, o.digest);
        if read.None? then Put(v, k, Finished(o.id, if o.purpose == ForPoll then Unknown else CancelSaid(false)))
        else if Overdue(read.value, o.at) then Put(v, k, Writing(Expire(o.purpose, o.digest, o.at), read.value))
        else Put(v, k, Seen(o.purpose, read.value))
    case Proceed(k) =>
      if k !in v.ops || !v.ops[k].Seen? then v else Put(v, k, AfterRead(v.ops[k].purpose, v.ops[k].snap, v.now))
    case Decide(k, verdict) =>
      if k !in v.ops || !v.ops[k].Held? then v else Put(v, k, Writing(VerdictWrite(verdict), v.ops[k].claim))
    case LandWrite(k, lost) =>
      if k !in v.ops || !v.ops[k].Writing? then v
      else
        var kind, prev := v.ops[k].kind, v.ops[k].prev;
        var next := Next(kind, prev);
        var (keys, ok) := SendUpdate(c, v, prev, next, Deadline(next, m.sent));
        Put(v.(keys := keys), k,
            if lost then AfterLost(kind, prev) else if ok then AfterAccepted(kind, next) else AfterRejected(kind, prev))
    case Vanish(_) => v
  }

  function Play(c: Codec, v: Deployment, ms: seq<Move>): Deployment
    decreases |ms|
  {
    if ms == [] then v else Play(c, Act(c, v, ms[0]), ms[1..])
  }

  /** The deployment looks to its operations exactly as broker world w does. */
  ghost predicate Mirrors(c: Codec, v: Deployment, w: World) {
    v.now == w.now && v.ops == w.ops && v.used == w.history.Keys && KeysAre(v.keys, v.now, c.prefix, c.less, w.store)
  }

  // ---------------------------------------------------------------- versions stay safe integers

  // No record has more than n versions yet.
  ghost predicate Young(w: World, n: nat) { forall id :: id in w.history ==> |w.history[id]| <= n }

  lemma YoungStep(w: World, e: Event, n: nat)
    requires Young(w, n)
    ensures Young(Apply(w, e), if e.LandCreate? || e.LandWrite? then n + 1 else n)
  {
    HistoryGrows(w, e);
  }

  lemma WritesStorable(w: World, k: nat, n: nat)
    requires Inv(w) && Young(w, n) && n < MAX_SAFE_INTEGER && k in w.ops && w.ops[k].Writing?
    ensures Storable(w.ops[k].prev) && Storable(Next(w.ops[k].kind, w.ops[k].prev))
  {
    var r := w.ops[k].prev;
    assert OpHolds(w, k, w.ops[k]);
    var h := w.history[r.handoffId];
    var first := Link(h, 0, r.handoffId, w.now);
    SameThroughout(h, r.handoffId, w.now, r.version - 1);
  }

  // ---------------------------------------------------------------- one step

  lemma SimulateTick(c: Codec, v: Deployment, w: World, ms: nat) returns (es: seq<Event>)
    requires Sound(c) && Mirrors(c, v, w)
    ensures Mirrors(c, v.(now := v.now + ms), Run(w, es))
    ensures forall n :: Young(w, n) ==> Young(Run(w, es), n)
  {
    var ids := Expiring(v.keys, v.now + ms, c.prefix, w.store);
    TimePasses(v.keys, v.now, v.now + ms, c.prefix, c.less, w.store);
    es := [Tick(ms), Vanish(ids)];
    Twice(w, Tick(ms), Vanish(ids));
  }

  lemma Once(w: World, e: Event)
    ensures Run(w, [e]) == Apply(w, e)
  {
    assert [e][1..] == [];
  }

  lemma Twice(w: World, a: Event, b: Event)
    ensures Run(w, [a, b]) == Apply(Apply(w, a), b)
  {
    assert [a, b][1..] == [b];
    Once(Apply(w, a), b);
  }

  // A step of the broker, followed by the end of a key's time to live if it has passed already.
  lemma WithVanish(w: World, e: Event, id: string, gone: bool, n: nat) returns (es: seq<Event>)
    requires Young(Apply(w, e), n)
    ensures Run(w, es) == (if gone then Apply(Apply(w, e), Vanish({id})) else Apply(w, e)) && Young(Run(w, es), n)
  {
    YoungStep(Apply(w, e), Vanish({id}), n);
    Once(w, e);
    Twice(w, e, Vanish({id}));
    es := if gone then [e, Vanish({id})] else [e];
  }

  predicate CreatedBy(w: World, e: Event, r: Handoff)
    requires e.LandCreate?
  {
    !e.refused && r.handoffId !in w.history && CreateAccepts(w.store, r)
  }

  lemma SimulateCreate(c: Codec, v: Deployment, w: World, k: nat, refused: bool, sent: int, n: nat) returns (es: seq<Event>)
    requires Sound(c) && Inv(w) && Mirrors(c, v, w) && k in w.ops && w.ops[k].Creating? && Young(w, n)
    ensures Mirrors(c, Act(c, v, Move(LandCreate(k, refused), sent)), Run(w, es)) && Young(Run(w, es), n + 1)
  {
    var r := w.ops[k].record;
    var e := LandCreate(k, refused || r.expiresAt <= sent);
    YoungStep(w, e, n);
    if CreatedBy(w, e, r) { CreateMirrored(c, v, w, k, refused, sent); } else { RefusalMirrored(c, v, w, k, refused, sent); }
    es := WithVanish(w, e, r.handoffId, CreatedBy(w, e, r) && r.expiresAt <= v.now, n + 1);
  }

  lemma RefusalMirrored(c: Codec, v: Deployment, w: World, k: nat, refused: bool, sent: int)
    requires Sound(c) && Inv(w) && Mirrors(c, v, w) && k in w.ops && w.ops[k].Creating?
    requires !CreatedBy(w, LandCreate(k, refused || w.ops[k].record.expiresAt <= sent), w.ops[k].record)
    ensures Mirrors(c, Act(c, v, Move(LandCreate(k, refused), sent)), Apply(w, LandCreate(k, refused || w.ops[k].record.expiresAt <= sent)))
  {
    CreateScriptAnswers(v.keys, v.now, c.prefix, c.less, w.store, w.ops[k].record);
  }

  lemma CreateMirrored(c: Codec, v: Deployment, w: World, k: nat, refused: bool, sent: int)
    requires Sound(c) && Inv(w) && Mirrors(c, v, w) && k in w.ops && w.ops[k].Creating?
    requires CreatedBy(w, LandCreate(k, refused || w.ops[k].record.expiresAt <= sent), w.ops[k].record)
    ensures var r := w.ops[k].record;
            var w2 := Apply(w, LandCreate(k, refused || r.expiresAt <= sent));
            Mirrors(c, Act(c, v, Move(LandCreate(k, refused), sent)),
                    if r.expiresAt <= v.now then Apply(w2, Vanish({r.handoffId})) else w2)
  {
    var r := w.ops[k].record;
    assert OpHolds(w, k, w.ops[k]);
    CreateFollows(v.keys, v.now, c.prefix, c.less, w.store, r);
    CreateEffect(c, v, k, sent);
    CreatedWorld(w, k, r);
    assert refused || r.expiresAt <= sent <==> false;
  }

  lemma CreateEffect(c: Codec, v: Deployment, k: nat, sent: int)
    requires k in v.ops && v.ops[k].Creating? && v.ops[k].record.handoffId !in v.used && v.ops[k].record.expiresAt > sent
    requires SendCreate(c, v, v.ops[k].record).1
    ensures var r := v.ops[k].record;
            Act(c, v, Move(LandCreate(k, false), sent))
            == Put(v.(keys := SendCreate(c, v, r).0, used := v.used + {r.handoffId}), k, Finished(r.handoffId, Started))
  {
  }

  lemma CreatedWorld(w: World, k: nat, r: Handoff)
    requires k in w.ops && w.ops[k] == Creating(r) && CreatedBy(w, LandCreate(k, false), r)
    ensures var w2 := Apply(w, LandCreate(k, false));
            && w2.now == w.now && w2.history.Keys == w.history.Keys + {r.handoffId} && w2.store == Created(w.store, r)
            && w2.ops == w.ops[k := Finished(r.handoffId, Started)]
            && Apply(w2, Vanish({r.handoffId})) == w2.(store := Vanished(Created(w.store, r), {r.handoffId}))
  {
  }

  lemma GetIsReadable(c: Codec, v: Deployment, w: World, id: string, digest: string)
    requires Sound(c) && Inv(w) && Mirrors(c, v, w)
    ensures Get(c, v, id, digest) == if Readable(w.store, id, digest) then Some(w.store.records[id]) else None
  {
    assert RecordIs(v.keys, v.now, c.prefix, c.less, w.store, id);
    if id in w.store.records { DocumentRoundTrip(c.num, c.less, w.store.records[id]); }
  }

  // The script answers as the broker's store, and leaves keys that stand for what the store becomes.
  lemma WriteFollows(c: Codec, v: Deployment, w: World, k: nat, sent: int, n: nat)
    requires Sound(c) && Inv(w) && Mirrors(c, v, w) && k in w.ops && w.ops[k].Writing? && Young(w, n) && n < MAX_SAFE_INTEGER
    ensures var prev, next := w.ops[k].prev, Next(w.ops[k].kind, w.ops[k].prev);
            var (keys, ok) := SendUpdate(c, v, prev, next, Deadline(next, sent));
            && ok == UpdateAccepts(w.store, prev, next)
            && KeysAre(keys, v.now, c.prefix, c.less,
                       if ok then Settled(Updated(w.store, next), next.handoffId, Deadline(next, sent), v.now) else w.store)
  {
    var prev, next := w.ops[k].prev, Next(w.ops[k].kind, w.ops[k].prev);
    WritesInFlight(w, k);
    WritesStorable(w, k, n);
    ComparesAgree(w.store, prev, next);
    UpdateFollows(v.keys, v.now, c.prefix, c.num, c.less, w.store, prev, next, Deadline(next, sent));
  }

  // What the operation does next.
  function AfterWrite(kind: Write, prev: Handoff, lost: bool, ok: bool): Op {
    if lost then AfterLost(kind, prev) else if ok then AfterAccepted(kind, Next(kind, prev)) else AfterRejected(kind, prev)
  }

  // The broker's world once the write has landed and the record's key, if its time has passed, is gone.
  function LandedAt(w: World, k: nat, lost: bool, deadline: int): World
    requires k in w.ops && w.ops[k].Writing?
  {
    var next, w2 := Next(w.ops[k].kind, w.ops[k].prev), Apply(w, LandWrite(k, lost));
    if UpdateAccepts(w.store, w.ops[k].prev, next) && deadline <= w.now then Apply(w2, Vanish({next.handoffId})) else w2
  }

  lemma LandedWorld(w: World, k: nat, lost: bool, deadline: int)
    requires Inv(w) && k in w.ops && w.ops[k].Writing?
    ensures var kind, prev := w.ops[k].kind, w.ops[k].prev;
            var next := Next(kind, prev);
            var ok, w2 := UpdateAccepts(w.store, prev, next), LandedAt(w, k, lost, deadline);
            && w2.now == w.now && w2.history.Keys == w.history.Keys
            && w2.store == (if ok then Settled(Updated(w.store, next), next.handoffId, deadline, w.now) else w.store)
            && w2.ops == w.ops[k := AfterWrite(kind, prev, lost, ok)]
  {
    WritesInFlight(w, k);
    if UpdateAccepts(w.store, w.ops[k].prev, Next(w.ops[k].kind, w.ops[k].prev)) { assert Current(w, w.ops[k].prev.handoffId); }
  }

  lemma WriteEffect(c: Codec, v: Deployment, k: nat, lost: bool, sent: int)
    requires k in v.ops && v.ops[k].Writing?
    ensures var kind, prev := v.ops[k].kind, v.ops[k].prev;
            var (keys, ok) := SendUpdate(c, v, prev, Next(kind, prev), Deadline(Next(kind, prev), sent));
            Act(c, v, Move(LandWrite(k, lost), sent)) == Put(v.(keys := keys), k, AfterWrite(kind, prev, lost, ok))
  {
  }

  lemma WriteMirrored(c: Codec, v: Deployment, w: World, k: nat, lost: bool, sent: int, n: nat)
    requires Sound(c) && Inv(w) && Mirrors(c, v, w) && k in w.ops && w.ops[k].Writing? && Young(w, n) && n < MAX_SAFE_INTEGER
    ensures Mirrors(c, Act(c, v, Move(LandWrite(k, lost), sent)), LandedAt(w, k, lost, Deadline(Next(w.ops[k].kind, w.ops[k].prev), sent)))
  {
    WriteFollows(c, v, w, k, sent, n);
    WriteEffect(c, v, k, lost, sent);
    LandedWorld(w, k, lost, Deadline(Next(w.ops[k].kind, w.ops[k].prev), sent));
  }

  lemma SimulateWrite(c: Codec, v: Deployment, w: World, k: nat, lost: bool, sent: int, n: nat) returns (es: seq<Event>)
    requires Sound(c) && Inv(w) && Mirrors(c, v, w) && k in w.ops && w.ops[k].Writing? && Young(w, n) && n < MAX_SAFE_INTEGER
    ensures Mirrors(c, Act(c, v, Move(LandWrite(k, lost), sent)), Run(w, es)) && Young(Run(w, es), n + 1)
  {
    var next := Next(w.ops[k].kind, w.ops[k].prev);
    WriteMirrored(c, v, w, k, lost, sent, n);
    YoungStep(w, LandWrite(k, lost), n);
    es := WithVanish(w, LandWrite(k, lost), next.handoffId,
                     UpdateAccepts(w.store, w.ops[k].prev, next) && Deadline(next, sent) <= v.now, n + 1);
  }

  /** One step of the deployment is some steps of the broker. */
  lemma Simulate(c: Codec, v: Deployment, w: World, m: Move, n: nat) returns (es: seq<Event>)
    requires Sound(c) && Inv(w) && Mirrors(c, v, w) && Young(w, n) && n < MAX_SAFE_INTEGER
    ensures Mirrors(c, Act(c, v, m), Run(w, es)) && Young(Run(w, es), n + 1)
  {
    match m.event {
      case Tick(ms) => es := SimulateTick(c, v, w, ms);
      case LandCreate(k, refused) =>
        if k in w.ops && w.ops[k].Creating? { es := SimulateCreate(c, v, w, k, refused, m.sent, n); } else { es := []; }
      case LandWrite(k, lost) =>
        if k in w.ops && w.ops[k].Writing? { es := SimulateWrite(c, v, w, k, lost, m.sent, n); } else { es := []; }
      case Vanish(_) => es := [];
      case _ =>
        SimulateQuiet(c, v, w, m);
        YoungStep(w, m.event, n);
        Once(w, m.event);
        es := [m.event];
    }
  }

  lemma SimulateQuiet(c: Codec, v: Deployment, w: World, m: Move)
    requires Sound(c) && Inv(w) && Mirrors(c, v, w)
    requires m.event.Begin? || m.event.LandRead? || m.event.Proceed? || m.event.Decide?
    ensures Mirrors(c, Act(c, v, m), Apply(w, m.event))
  {
    var v2, w2 := Act(c, v, m), Apply(w, m.event);
    if m.event.LandRead? { ReadMirrored(c, v, w, m.event.op, m.sent); } else { LocalMirrored(c, v, w, m); }
    assert v2.keys == v.keys && v2.now == v.now && w2.store == w.store;
  }

  lemma ReadMirrored(c: Codec, v: Deployment, w: World, k: nat, sent: int)
    requires Sound(c) && Inv(w) && Mirrors(c, v, w)
    ensures var v2, w2 := Act(c, v, Move(LandRead(k), sent)), Apply(w, LandRead(k));
            v2 == v.(ops := w2.ops) && w2 == w.(ops := w2.ops)
  {
    if k in w.ops && w.ops[k].Reading? { GetIsReadable(c, v, w, w.ops[k].id, w.ops[k].digest); }
  }

  lemma LocalMirrored(c: Codec, v: Deployment, w: World, m: Move)
    requires v.now == w.now && v.ops == w.ops && (m.event.Begin? || m.event.Proceed? || m.event.Decide?)
    ensures var v2, w2 := Act(c, v, m), Apply(w, m.event);
            v2 == v.(ops := w2.ops) && w2 == w.(ops := w2.ops)
  {
  }

  /**
   * A finished or expired record stays readable: after an accepted update its key holds the new
   * text until the record's expiry, and at least for a second from the caller's time.
   */
  lemma UpdatedKeyLives(c: Codec, v: Deployment, k: nat, lost: bool, sent: int)
    requires k in v.ops && v.ops[k].Writing?
    requires var key := RecordKey(c.prefix, v.ops[k].prev.handoffId);
             Live(v.keys, key, v.now) && v.keys[key].value == Document(c.less, v.ops[k].prev)
    ensures var next := Next(v.ops[k].kind, v.ops[k].prev);
            var key, v2 := RecordKey(c.prefix, next.handoffId), Act(c, v, Move(LandWrite(k, lost), sent));
            && key in v2.keys && v2.keys[key].value == Document(c.less, next)
            && v2.keys[key].expiresAt == if next.expiresAt >= sent + 1_000 then next.expiresAt else sent + 1_000
  {
    var prev, next := v.ops[k].prev, Next(v.ops[k].kind, v.ops[k].prev);
    KeysApart(c.prefix, prev.handoffId, prev.dependencyId);
    ScriptWrites(v.keys, v.now, RecordKey(c.prefix, prev.handoffId), DependencyKey(c.prefix, prev.dependencyId),
                 Document(c.less, prev), Document(c.less, next), Deadline(next, sent), Terminal(next.status), prev.handoffId);
    WriteEffect(c, v, k, lost, sent);
  }

  lemma ScriptWrites(keys: map<string, Key>, now: int, recordKey: string, dependencyKey: string,
                     expected: string, value: string, expiresAt: int, terminal: bool, id: string)
    requires recordKey != dependencyKey && Live(keys, recordKey, now) && keys[recordKey].value == expected
    ensures var after := UpdateScript(keys, now, recordKey, dependencyKey, expected, value, expiresAt, terminal, id).0;
            recordKey in after && after[recordKey] == Key(value, expiresAt)
  {
  }

  // ---------------------------------------------------------------- whole runs

  lemma {:induction false} RunRun(w: World, a: seq<Event>, b: seq<Event>)
    ensures Run(w, a + b) == Run(Run(w, a), b)
    decreases |a|
  {
    if a == [] {
      assert a + b == b;
    } else {
      assert (a + b)[1..] == a[1..] + b;
      RunRun(Apply(w, a[0]), a[1..], b);
    }
  }

  // A run of this many steps cannot take a version past the safe integers.
  predicate ShortEnough(steps: nat) { steps <= MAX_SAFE_INTEGER }

  /** Every run over Redis is a run of the broker, with the same clock and the same operations. */
  lemma {:induction false} PlayIsARun(c: Codec, v: Deployment, w: World, ms: seq<Move>, n: nat) returns (es: seq<Event>)
    requires Sound(c) && Inv(w) && Mirrors(c, v, w) && Young(w, n) && ShortEnough(n + |ms|)
    ensures Mirrors(c, Play(c, v, ms), Run(w, es)) && Young(Run(w, es), n + |ms|)
    decreases |ms|
  {
    if ms == [] {
      es := [];
    } else {
      var first := Simulate(c, v, w, ms[0], n);
      RunKeepsInv(w, first);
      var rest := PlayIsARun(c, Act(c, v, ms[0]), Run(w, first), ms[1..], n + 1);
      RunRun(w, first, rest);
      es := first + rest;
    }
  }

  lemma RedisIsABroker(c: Codec, ms: seq<Move>) returns (es: seq<Event>)
    requires Sound(c) && ShortEnough(|ms|)
    ensures Mirrors(c, Play(c, Empty, ms), Run(Initial, es)) && Young(Run(Initial, es), |ms|)
  {
    es := PlayIsARun(c, Empty, Initial, ms, 0);
  }

  /**
   * In Redis too a token once answered is final: every later poll that finds the record answers
   * it, and every later cancel answers false.
   */
  lemma RedisCompletedIsFinal(c: Codec, ms: seq<Move>, k: nat, id: string, token: string,
                              later: seq<Move>, j: nat, purpose: Purpose, digest: string, sent: int)
    requires Sound(c) && ShortEnough(|ms| + |later|)
    requires var v := Play(c, Empty, ms); k in v.ops && v.ops[k] == Finished(id, Done(token)) && j !in v.ops
    ensures var v := Play(c, Empty, ms);
            var v2 := Play(c, Act(c, v, Move(Begin(j, Reading(purpose, id, digest, v.now)), sent)), later);
            j in v2.ops && (v2.ops[j].Finished? ==>
              v2.ops[j].outcome == (if purpose == ForPoll then Done(token) else CancelSaid(false))
              || (purpose == ForPoll && v2.ops[j].outcome == Unknown))
  {
    var es := RedisIsABroker(c, ms);
    var v, w := Play(c, Empty, ms), Run(Initial, es);
    var e := Begin(j, Reading(purpose, id, digest, v.now));
    Theorems.Reachable(es);
    Step(w, e);
    YoungStep(w, e, |ms|);
    SimulateQuiet(c, v, w, Move(e, sent));
    var rest := PlayIsARun(c, Act(c, v, Move(e, sent)), Apply(w, e), later, |ms|);
    Theorems.CompletedIsFinal(es, k, id, token, rest, j, purpose, digest);
  }

  /** And so is a cancel that answered true: no poll of that handoff ever answers with a token. */
  lemma RedisCancelledIsFinal(c: Codec, ms: seq<Move>, k: nat, id: string, later: seq<Move>, j: nat)
    requires Sound(c) && ShortEnough(|ms| + |later|)
    requires var v := Play(c, Empty, ms); k in v.ops && v.ops[k] == Finished(id, CancelSaid(true))
    ensures var v2 := Play(c, Play(c, Empty, ms), later);
            j in v2.ops ==> !(v2.ops[j].Finished? && v2.ops[j].id == id && v2.ops[j].outcome.Done?)
  {
    var es := RedisIsABroker(c, ms);
    Theorems.Reachable(es);
    var rest := PlayIsARun(c, Play(c, Empty, ms), Run(Initial, es), later, |ms|);
    Theorems.CancelledIsFinal(es, k, id, rest, j);
  }

  /** In every reachable state the dependency key of a live unfinished record names it and expires with it. */
  lemma RedisDependencyKey(c: Codec, ms: seq<Move>, id: string, digest: string, r: Handoff)
    requires Sound(c) && ShortEnough(|ms|)
    requires Get(c, Play(c, Empty, ms), id, digest) == Some(r) && !Terminal(r.status)
    ensures var v := Play(c, Empty, ms);
            var key := DependencyKey(c.prefix, r.dependencyId);
            Live(v.keys, key, v.now) && v.keys[key] == Key(id, v.keys[RecordKey(c.prefix, id)].expiresAt)
  {
    var es := RedisIsABroker(c, ms);
    var v, w := Play(c, Empty, ms), Run(Initial, es);
    Theorems.Reachable(es);
    GetIsReadable(c, v, w, id, digest);
    assert RecordIs(v.keys, v.now, c.prefix, c.less, w.store, id);
    assert DependencyIs(v.keys, v.now, c.prefix, w.store, r.dependencyId);
  }

  /** So the update script, which sets the dependency key unconditionally, never overwrites another handoff. */
  lemma RedisNeverOverwrites(c: Codec, ms: seq<Move>, k: nat, sent: int)
    requires Sound(c) && |ms| < MAX_SAFE_INTEGER
    requires var v := Play(c, Empty, ms);
             k in v.ops && v.ops[k].Writing?
             && SendUpdate(c, v, v.ops[k].prev, Next(v.ops[k].kind, v.ops[k].prev), sent).1
    ensures var v := Play(c, Empty, ms);
            var prev := v.ops[k].prev;
            var key := DependencyKey(c.prefix, prev.dependencyId);
            Live(v.keys, key, v.now) && v.keys[key].value == prev.handoffId
            && Get(c, v, prev.handoffId, prev.accessTokenDigest) == Some(prev)
  {
    var es := RedisIsABroker(c, ms);
    var v, w := Play(c, Empty, ms), Run(Initial, es);
    Theorems.Reachable(es);
    WritesInFlight(w, k);
    WritesStorable(w, k, |ms|);
    var prev := w.ops[k].prev;
    ScriptCompares(v.keys, v.now, c.prefix, c.num, c.less, w.store, prev, Next(w.ops[k].kind, prev), sent);
    GetIsReadable(c, v, w, prev.handoffId, prev.accessTokenDigest);
    RedisDependencyKey(c, ms, prev.handoffId, prev.accessTokenDigest, prev);
  }
}
