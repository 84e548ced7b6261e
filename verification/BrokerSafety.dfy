/** The broker's invariant holds in every reachable world, and what follows from it. */
module BrokerSafety {
  import opened Basics
  import opened HandoffRecords
  import opened Broker

  // ---------------------------------------------------------------- index

  lemma IndexCreated(s: Store, r: Handoff)
    requires IndexExact(s) && CreateAccepts(s, r) && !Terminal(r.status)
    ensures IndexExact(Created(s, r))
  {
  }

  lemma IndexUpdated(s: Store, next: Handoff)
    requires IndexExact(s) && next.handoffId in s.records
    requires var r := s.records[next.handoffId]; !Terminal(r.status) && r.dependencyId == next.dependencyId
    ensures IndexExact(Updated(s, next))
  {
  }

  // ---------------------------------------------------------------- what a step keeps

  // History h1 has become h2: unchanged, or one version longer by a write of operation k.
  predicate Grown(h1: seq<Entry>, h2: seq<Entry>, k: nat) {
    || h2 == h1
    || (&& |h1| > 0 && !Terminal(Last(h1).status)
        && |h2| == |h1| + 1 && h2[..|h1|] == h1 && h2[|h1|].author == k)
  }

  ghost predicate Extends(w1: World, w2: World, k: nat) {
    && w1.now <= w2.now && w1.severed <= w2.severed
    && (forall id :: id in w1.history ==> id in w2.history && Grown(w1.history[id], w2.history[id], k))
  }

  lemma KnownKept(w1: World, w2: World, k: nat, r: Handoff)
    requires Extends(w1, w2, k) && Known(w1, r)
    ensures Known(w2, r)
    ensures w2.history[r.handoffId][r.version - 1] == w1.history[r.handoffId][r.version - 1]
  {
    var h1, h2 := w1.history[r.handoffId], w2.history[r.handoffId];
    assert h2[..|h1|][r.version - 1] == h2[r.version - 1];
  }

  lemma JustifiedLater(kind: Write, r: Handoff, at: int, later: int)
    requires Justified(kind, r, at) && at <= later
    ensures Justified(kind, r, later)
  {
  }

  lemma NotGivenUpKept(w1: World, w2: World, k: nat, j: nat, c: Handoff)
    requires Extends(w1, w2, k) && j != k && Known(w1, c) && NotYetGivenUp(w1, j, c)
    ensures NotYetGivenUp(w2, j, c)
  {
    var h1, h2 := w1.history[c.handoffId], w2.history[c.handoffId];
    if |h1| > c.version { assert h2[..|h1|][c.version] == h2[c.version]; }
  }

  lemma OpKept(w1: World, w2: World, k: nat, j: nat, o: Op)
    requires Extends(w1, w2, k) && j != k && OpHolds(w1, j, o)
    ensures OpHolds(w2, j, o)
  {
    match o
    case Creating(_) =>
    case Reading(_, _, _, _) =>
    case Seen(_, r) => KnownKept(w1, w2, k, r);
    case Writing(kind, r) =>
      KnownKept(w1, w2, k, r);
      JustifiedLater(kind, r, w1.now, w2.now);
      if HolderWrite(kind) { NotGivenUpKept(w1, w2, k, j, r); }
    case Held(r) => KnownKept(w1, w2, k, r); NotGivenUpKept(w1, w2, k, j, r);
    case Finished(id, outcome) =>
  }

  lemma InvFrom(w1: World, w2: World, k: nat)
    requires Inv(w1) && Extends(w1, w2, k) && Chains(w2)
    requires forall id :: id in w2.store.records ==> Current(w2, id)
    requires IndexExact(w2.store)
    requires forall j :: j in w2.ops && j != k ==> j in w1.ops && w2.ops[j] == w1.ops[j]
    requires k in w2.ops ==> OpHolds(w2, k, w2.ops[k])
    ensures Inv(w2)
  {
    forall j | j in w2.ops ensures OpHolds(w2, j, w2.ops[j]) {
      if j != k { OpKept(w1, w2, k, j, w1.ops[j]); }
    }
  }

  lemma ChainAppended(h: seq<Entry>, e: Entry, id: string, now: int)
    requires Chain(h, id, now) && e.at == now && Edge(h[|h|-1], e)
    ensures Chain(h + [e], id, now)
  {
    var g := h + [e];
    assert Link(h, |h| - 1, id, now);
    forall i | 0 <= i < |g| ensures Link(g, i, id, now) {
      if i < |h| { assert Link(h, i, id, now); }
    }
  }

  lemma ChainLater(h: seq<Entry>, id: string, now: int, later: int)
    requires Chain(h, id, now) && now <= later
    ensures Chain(h, id, later)
  {
    forall i | 0 <= i < |h| ensures Link(h, i, id, later) { assert Link(h, i, id, now); }
  }

  // No version follows a terminal one.
  lemma TerminalIsLast(h: seq<Entry>, id: string, now: int, i: nat)
    requires Chain(h, id, now) && i < |h| && Terminal(h[i].record.status)
    ensures i == |h| - 1
  {
    if i + 1 < |h| {
      var linked := Link(h, i + 1, id, now);
      assert false;
    }
  }

  // Every version has the identity, provider session and expiry of the first.
  lemma {:induction false} SameThroughout(h: seq<Entry>, id: string, now: int, i: nat)
    requires Chain(h, id, now) && i < |h|
    ensures SameIdentity(h[0].record, h[i].record) && 500 <= h[i].record.pollAfterMs <= 10_000
  {
    var linked := Link(h, i, id, now);
    if i > 0 { SameThroughout(h, id, now, i - 1); }
  }

  // The view of a terminal record repeats what its last write stored.
  lemma TerminalViewHolds(w: World, r: Handoff)
    requires Chains(w) && Known(w, r) && Terminal(r.status)
    ensures OutcomeHolds(w, r.handoffId, TerminalView(r))
    ensures OutcomeHolds(w, r.handoffId, CancelSaid(r.status == Cancelled))
    ensures r.status == Completed ==> TerminalView(r).Done?
  {
    var h := w.history[r.handoffId];
    TerminalIsLast(h, r.handoffId, w.now, r.version - 1);
    if r.status == Completed {
      assert Link(h, |h| - 1, r.handoffId, w.now);
      UnprotectProtect(h[|h|-1].cause.kind.token);
    }
  }

  // A store accepts a write issued by the service only when it was issued over the live record.
  lemma AcceptedIsLast(w: World, r: Handoff, next: Handoff)
    requires Inv(w) && Known(w, r) && UpdateAccepts(w.store, r, next)
    ensures Current(w, r.handoffId) && w.store.records[r.handoffId] == r
    ensures |w.history[r.handoffId]| == r.version
  {
    CurrentIsKnown(w, r.handoffId);
  }

  lemma CurrentIsKnown(w: World, id: string)
    requires Inv(w) && id in w.store.records
    ensures Current(w, id) && Known(w, w.store.records[id])
    ensures w.store.records[id].version == |w.history[id]| && w.store.records[id].handoffId == id
  {
    var current, h := Current(w, id), w.history[id];
    var linked := Link(h, |h| - 1, id, w.now);
  }

  // ---------------------------------------------------------------- steps

  function WroteWorld(w: World, kind: Write, prev: Handoff, k: nat): World {
    Appended(w.(store := Updated(w.store, Next(kind, prev))), Entry(Next(kind, prev), w.now, k, Wrote(kind)))
  }

  // The newest version is the one written over, and the written one follows it.
  lemma WriteHistory(w: World, kind: Write, prev: Handoff, k: nat)
    requires Inv(w) && k in w.ops && w.ops[k] == Writing(kind, prev) && UpdateAccepts(w.store, prev, Next(kind, prev))
    ensures prev.handoffId in w.history && |w.history[prev.handoffId]| == prev.version && !Terminal(prev.status)
    ensures prev.version > 0 && w.history[prev.handoffId][prev.version - 1].record == prev
    ensures WroteWorld(w, kind, prev, k).history
            == w.history[prev.handoffId := w.history[prev.handoffId] + [Entry(Next(kind, prev), w.now, k, Wrote(kind))]]
  {
    assert OpHolds(w, k, w.ops[k]);
    AcceptedIsLast(w, prev, Next(kind, prev));
  }

  lemma WriteChains(w: World, kind: Write, prev: Handoff, k: nat)
    requires Inv(w) && k in w.ops && w.ops[k] == Writing(kind, prev) && UpdateAccepts(w.store, prev, Next(kind, prev))
    ensures Chains(WroteWorld(w, kind, prev, k))
  {
    var id := prev.handoffId;
    WriteHistory(w, kind, prev, k);
    var h := w.history[id];
    assert OpHolds(w, k, w.ops[k]) && Link(h, |h| - 1, id, w.now);
    WriteEdge(w, kind, prev, k);
    ChainAppended(h, Entry(Next(kind, prev), w.now, k, Wrote(kind)), id, w.now);
  }

  lemma WriteExtends(w: World, kind: Write, prev: Handoff, k: nat)
    requires Inv(w) && k in w.ops && w.ops[k] == Writing(kind, prev) && UpdateAccepts(w.store, prev, Next(kind, prev))
    ensures var w2 := WroteWorld(w, kind, prev, k);
            && Extends(w, w2, k)
            && Known(w2, Next(kind, prev)) && |w2.history[prev.handoffId]| == prev.version + 1
            && w2.history[prev.handoffId][prev.version] == Entry(Next(kind, prev), w.now, k, Wrote(kind))
  {
    WriteHistory(w, kind, prev, k);
    var h := w.history[prev.handoffId];
    assert (h + [Entry(Next(kind, prev), w.now, k, Wrote(kind))])[..|h|] == h;
  }

  lemma WriteEdge(w: World, kind: Write, prev: Handoff, k: nat)
    requires Known(w, prev) && OpHolds(w, k, Writing(kind, prev))
    requires w.history[prev.handoffId][prev.version - 1].at <= w.now
    ensures Edge(w.history[prev.handoffId][prev.version - 1], Entry(Next(kind, prev), w.now, k, Wrote(kind)))
  {
  }

  lemma WriteCurrent(w: World, kind: Write, prev: Handoff, k: nat)
    requires Inv(w) && k in w.ops && w.ops[k] == Writing(kind, prev) && UpdateAccepts(w.store, prev, Next(kind, prev))
    ensures var w2 := WroteWorld(w, kind, prev, k);
            IndexExact(w2.store) && forall id :: id in w2.store.records ==> Current(w2, id)
  {
    assert OpHolds(w, k, w.ops[k]);
    WriteHistory(w, kind, prev, k);
    AcceptedIsLast(w, prev, Next(kind, prev));
    IndexUpdated(w.store, Next(kind, prev));
    var w2 := WroteWorld(w, kind, prev, k);
    forall i | i in w2.store.records ensures Current(w2, i) {
      if i != prev.handoffId { assert Current(w, i); }
    }
  }

  // Where the operation stands after its write was accepted, and after it was not.
  lemma AcceptedOp(w: World, kind: Write, prev: Handoff, k: nat, w2: World, lost: bool)
    requires Known(w2, prev) && Known(w2, Next(kind, prev)) && Justified(kind, prev, w2.now)
    requires |w2.history[prev.handoffId]| == prev.version + 1
    requires w2.history[prev.handoffId][prev.version] == Entry(Next(kind, prev), w2.now, k, Wrote(kind))
    requires HolderWrite(kind) ==> ClaimedBy(w2, k, prev)
    requires lost ==> k in w2.severed
    ensures OpHolds(w2, k, if lost then AfterLost(kind, prev) else AfterAccepted(kind, Next(kind, prev)))
  {
    if kind.Complete? { UnprotectProtect(kind.token); }
  }

  lemma RejectedOp(kind: Write, prev: Handoff, k: nat, w: World, lost: bool)
    requires OpHolds(w, k, Writing(kind, prev))
    ensures OpHolds(w, k, if lost then AfterLost(kind, prev) else AfterRejected(kind, prev))
  {
  }

  lemma StepLandWrite(w: World, k: nat, lost: bool)
    requires Inv(w) && k in w.ops && w.ops[k].Writing?
    ensures Inv(Landed(w, k, lost))
  {
    var kind, prev := w.ops[k].kind, w.ops[k].prev;
    assert OpHolds(w, k, w.ops[k]);
    if UpdateAccepts(w.store, prev, Next(kind, prev)) { LandAccepted(w, kind, prev, k, lost); }
    else { LandRejected(w, kind, prev, k, lost); }
  }

  lemma LandedIsWrote(w: World, kind: Write, prev: Handoff, k: nat, lost: bool)
    requires k in w.ops && w.ops[k] == Writing(kind, prev) && UpdateAccepts(w.store, prev, Next(kind, prev))
    ensures var w1, w2 := WroteWorld(w, kind, prev, k), Landed(w, k, lost);
            && w2.history == w1.history && w2.store == w1.store && w2.now == w.now
            && w2.severed == w.severed + (if lost then {k} else {})
            && w2.ops == w.ops[k := if lost then AfterLost(kind, prev) else AfterAccepted(kind, Next(kind, prev))]
  {
  }

  lemma LandAccepted(w: World, kind: Write, prev: Handoff, k: nat, lost: bool)
    requires Inv(w) && k in w.ops && w.ops[k] == Writing(kind, prev) && UpdateAccepts(w.store, prev, Next(kind, prev))
    ensures Inv(Landed(w, k, lost))
  {
    var w1, w2 := WroteWorld(w, kind, prev, k), Landed(w, k, lost);
    assert OpHolds(w, k, w.ops[k]);
    WriteExtends(w, kind, prev, k);
    WriteChains(w, kind, prev, k);
    WriteCurrent(w, kind, prev, k);
    LandedIsWrote(w, kind, prev, k, lost);
    KnownKept(w, w2, k, prev);
    AcceptedOp(w, kind, prev, k, w2, lost);
    forall id | id in w2.store.records ensures Current(w2, id) { assert Current(w1, id); }
    InvFrom(w, w2, k);
  }

  lemma LandRejected(w: World, kind: Write, prev: Handoff, k: nat, lost: bool)
    requires Inv(w) && k in w.ops && w.ops[k] == Writing(kind, prev) && !UpdateAccepts(w.store, prev, Next(kind, prev))
    ensures Inv(Landed(w, k, lost))
  {
    var w2 := Landed(w, k, lost);
    assert OpHolds(w, k, w.ops[k]);
    RejectedOp(kind, prev, k, w, lost);
    SameHistoryOp(w, w2, k, w2.ops[k]);
    forall id | id in w2.store.records ensures Current(w2, id) { assert Current(w, id); }
    InvFrom(w, w2, k);
  }

  lemma SameHistoryOp(w: World, w2: World, k: nat, o: Op)
    requires w2.history == w.history && w.now <= w2.now && w.severed <= w2.severed && OpHolds(w, k, o)
    ensures OpHolds(w2, k, o)
  {
  }

  function CreateWorld(w: World, r: Handoff, k: nat): World {
    Appended(w.(store := Created(w.store, r)), Entry(r, w.now, k, Born))
  }

  lemma CreateExtends(w: World, r: Handoff, k: nat)
    requires Inv(w) && FirstVersion(r) && r.handoffId !in w.history && CreateAccepts(w.store, r)
    ensures Extends(w, CreateWorld(w, r, k), k) && Chains(CreateWorld(w, r, k))
    ensures CreateWorld(w, r, k).history == w.history[r.handoffId := [Entry(r, w.now, k, Born)]]
  {
    var h := [Entry(r, w.now, k, Born)];
    assert [] + h == h;
    assert Link(h, 0, r.handoffId, w.now);
  }

  lemma CreateCurrent(w: World, r: Handoff, k: nat)
    requires Inv(w) && FirstVersion(r) && r.handoffId !in w.history && CreateAccepts(w.store, r)
    ensures var w2 := CreateWorld(w, r, k);
            IndexExact(w2.store) && forall id :: id in w2.store.records ==> Current(w2, id)
  {
    var w2 := CreateWorld(w, r, k);
    IndexCreated(w.store, r);
    CreateExtends(w, r, k);
    forall id | id in w2.store.records ensures Current(w2, id) { if id != r.handoffId { assert Current(w, id); } }
  }

  lemma StepLandCreate(w: World, k: nat, refused: bool)
    requires Inv(w) && k in w.ops && w.ops[k].Creating?
    ensures Inv(Apply(w, LandCreate(k, refused)))
  {
    var w2 := Apply(w, LandCreate(k, refused));
    var r := w.ops[k].record;
    assert OpHolds(w, k, w.ops[k]);
    if !(refused || r.handoffId in w.history || !CreateAccepts(w.store, r)) {
      var w1 := CreateWorld(w, r, k);
      CreateExtends(w, r, k);
      CreateCurrent(w, r, k);
      assert w2 == At(w1, k, Finished(r.handoffId, Started));
      forall id | id in w2.store.records ensures Current(w2, id) { assert Current(w1, id); }
      InvFrom(w, w2, k);
    } else {
      QuietStep(w, w2, k);
    }
  }

  // Steps that write nothing: the clock, a key that expires, and purely local progress.
  lemma QuietStep(w: World, w2: World, k: nat)
    requires Inv(w) && w2.history == w.history && w2.severed == w.severed && w.now <= w2.now
    requires IndexExact(w2.store)
    requires forall id :: id in w2.store.records ==> id in w.store.records && w2.store.records[id] == w.store.records[id]
    requires forall j :: j in w2.ops && j != k ==> j in w.ops && w2.ops[j] == w.ops[j]
    requires k in w2.ops ==> OpHolds(w2, k, w2.ops[k])
    ensures Inv(w2)
  {
    forall id | id in w2.store.records ensures Current(w2, id) { assert Current(w, id); }
    forall id | id in w2.history ensures Chain(w2.history[id], id, w2.now) { ChainLater(w.history[id], id, w.now, w2.now); }
    InvFrom(w, w2, k);
  }

  lemma FreshOp(w: World) returns (k: nat)
    ensures k !in w.ops
  {
    k := FreshAmong(w.ops.Keys);
  }

  lemma FreshAmong(s: set<nat>) returns (k: nat)
    ensures forall j :: j in s ==> j < k
  {
    if s == {} { k := 0; } else {
      var x :| x in s;
      var m := FreshAmong(s - {x});
      k := Max(m, x + 1);
      forall j | j in s ensures j < k { if j != x { assert j in s - {x}; } }
    }
  }

  lemma StepRead(w: World, k: nat)
    requires Inv(w) && k in w.ops && w.ops[k].Reading?
    ensures Inv(Apply(w, LandRead(k)))
  {
    var w2 := Apply(w, LandRead(k));
    var o := w.ops[k];
    assert OpHolds(w, k, o);
    if Readable(w.store, o.id, o.digest) { CurrentIsKnown(w, o.id); }
    QuietStep(w, w2, k);
  }

  lemma AfterReadHolds(w: World, k: nat, purpose: Purpose, r: Handoff)
    requires Known(w, r) && r.pollAfterMs <= 10_000
    requires Terminal(r.status) ==> OutcomeHolds(w, r.handoffId, TerminalView(r))
                                    && OutcomeHolds(w, r.handoffId, CancelSaid(r.status == Cancelled))
    ensures OpHolds(w, k, AfterRead(purpose, r, w.now))
  {
  }

  lemma StepProceed(w: World, k: nat)
    requires Inv(w) && k in w.ops && w.ops[k].Seen?
    ensures Inv(Apply(w, Proceed(k)))
  {
    var r := w.ops[k].snap;
    assert OpHolds(w, k, w.ops[k]);
    if Terminal(r.status) { TerminalViewHolds(w, r); }
    SameThroughout(w.history[r.handoffId], r.handoffId, w.now, r.version - 1);
    AfterReadHolds(w, k, w.ops[k].purpose, r);
    var w2 := Apply(w, Proceed(k));
    SameHistoryOp(w, w2, k, w2.ops[k]);
    QuietStep(w, w2, k);
  }

  lemma StepDecide(w: World, k: nat, v: Verdict)
    requires Inv(w) && k in w.ops && w.ops[k].Held?
    ensures Inv(Apply(w, Decide(k, v)))
  {
    assert OpHolds(w, k, w.ops[k]);
    QuietStep(w, Apply(w, Decide(k, v)), k);
  }

  lemma Step(w: World, e: Event)
    requires Inv(w)
    ensures Inv(Apply(w, e))
  {
    match e
    case Tick(_) => var k := FreshOp(w); QuietStep(w, Apply(w, e), k);
    case Vanish(ids) => var k := FreshOp(w); IndexVanished(w.store, ids); QuietStep(w, Apply(w, e), k);
    case Begin(k, _) => if Apply(w, e) != w { QuietStep(w, Apply(w, e), k); }
    case LandCreate(k, refused) => if k in w.ops && w.ops[k].Creating? { StepLandCreate(w, k, refused); }
    case LandRead(k) => if k in w.ops && w.ops[k].Reading? { StepRead(w, k); }
    case Proceed(k) => if k in w.ops && w.ops[k].Seen? { StepProceed(w, k); }
    case Decide(k, v) => if k in w.ops && w.ops[k].Held? { StepDecide(w, k, v); }
    case LandWrite(k, lost) => if k in w.ops && w.ops[k].Writing? { StepLandWrite(w, k, lost); }
  }

  /**
   * Every write the service ever has in flight meets what the stores need to agree: version and
   * token single out the record it read, which is unfinished, and the write keeps its identity.
   */
  lemma WritesInFlight(w: World, k: nat)
    requires Inv(w) && k in w.ops && w.ops[k].Writing?
    ensures var prev, next := w.ops[k].prev, Next(w.ops[k].kind, w.ops[k].prev);
            && VersionFixes(w.store, prev) && KeepsIndex(w.store, prev, next)
            && SameIdentity(prev, next) && next.version == prev.version + 1 && !Terminal(prev.status)
  {
    assert OpHolds(w, k, w.ops[k]);
    if w.ops[k].prev.handoffId in w.store.records { CurrentIsKnown(w, w.ops[k].prev.handoffId); }
  }

  // The version that a step adds to the history, if any.
  function Added(w: World, e: Event): Option<Entry> {
    match e
    case LandCreate(k, refused) =>
      if k !in w.ops || !w.ops[k].Creating? then None
      else
        var r := w.ops[k].record;
        if refused || r.handoffId in w.history || !CreateAccepts(w.store, r) then None else Some(Entry(r, w.now, k, Born))
    case LandWrite(k, _) =>
      if k !in w.ops || !w.ops[k].Writing? then None
      else
        var next := Next(w.ops[k].kind, w.ops[k].prev);
        if UpdateAccepts(w.store, w.ops[k].prev, next) then Some(Entry(next, w.now, k, Wrote(w.ops[k].kind))) else None
    case _ => None
  }

  lemma HistoryGrows(w: World, e: Event)
    ensures Apply(w, e).history == if Added(w, e).None? then w.history else Appended(w, Added(w, e).value).history
  {
  }

  /** Every reachable world satisfies the invariant. */
  lemma {:induction false} RunKeepsInv(w: World, es: seq<Event>)
    requires Inv(w)
    ensures Inv(Run(w, es))
    decreases |es|
  {
    if es != [] { Step(w, es[0]); RunKeepsInv(Apply(w, es[0]), es[1..]); }
  }
}
