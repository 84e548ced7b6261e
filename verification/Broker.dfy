/**
 * Brokered handoff as a state machine. Every async function of HumanHandoffService is cut at
 * each await; steps of any number of starts, polls and cancels interleave freely under one
 * clock that never goes back. A process that dies is an operation that takes no further step.
 */
module Broker {
  import opened Basics
  import opened HandoffRecords

  datatype Outcome =
    | Started | Refused | Unknown | StillPending
    | Done(token: string) | FailedView(code: string) | GoneView(status: Status)
    | CancelSaid(cancelled: bool) | Threw

  datatype Op =
    | Creating(record: Handoff)
    | Reading(purpose: Purpose, id: string, digest: string, at: int)
    | Seen(purpose: Purpose, snap: Handoff)
    | Writing(kind: Write, prev: Handoff)
    | Held(claim: Handoff)
    | Finished(id: string, outcome: Outcome)

  datatype Cause = Born | Wrote(kind: Write)

  datatype Entry = Entry(record: Handoff, at: int, author: nat, cause: Cause)

  /** history keeps every version a record ever had; severed the operations that lost a reply. */
  datatype World = World(
    now: nat,
    store: Store,
    history: map<string, seq<Entry>>,
    ops: map<nat, Op>,
    severed: set<nat>)

  datatype Verdict = NotYet | Rejected(code: string) | Proved(token: string)

  datatype Event =
    | Tick(ms: nat)
    | Begin(op: nat, start: Op)
    | LandCreate(op: nat, refused: bool)
    | LandRead(op: nat)
    | Proceed(op: nat)
    | Decide(op: nat, verdict: Verdict)
    | LandWrite(op: nat, lost: bool)
    | Vanish(ids: set<string>)

  const Initial := World(0, Store(map[], map[]), map[], map[], {})

  function At(w: World, op: nat, next: Op): World { w.(ops := w.ops[op := next]) }

  function Appended(w: World, e: Entry): World {
    var id := e.record.handoffId;
    var past := if id in w.history then w.history[id] else [];
    w.(history := w.history[id := past + [e]])
  }

  predicate MayBegin(now: nat, start: Op) {
    match start
    case Creating(r) => FirstVersion(r) && r.expiresAt > now
    case Reading(_, _, _, at) => at == now
    case _ => false
  }

  function TerminalView(r: Handoff): Outcome {
    match r.status
    case Completed =>
      if r.protectedCompletion.Some? && Unprotect(r.protectedCompletion.value).Some?
      then Done(Unprotect(r.protectedCompletion.value).value) else Threw
    case Failed => FailedView(if r.failureCode.Some? then r.failureCode.value else "HANDOFF_FAILED")
    case _ => GoneView(r.status)
  }

  // What poll or cancel does once getAuthorized has answered with a record.
  function AfterRead(purpose: Purpose, r: Handoff, now: nat): Op {
    if purpose == ForCancel then
      if Terminal(r.status) then Finished(r.handoffId, CancelSaid(r.status == Cancelled)) else Writing(Cancel, r)
    else if Terminal(r.status) then Finished(r.handoffId, TerminalView(r))
    else if r.status == Pending then Writing(Claim(LeaseEnd(r, now)), r)
    else if LeaseLive(r, now) then Finished(r.handoffId, StillPending)
    else Writing(Reclaim, r)
  }

  function VerdictWrite(v: Verdict): Write {
    match v
    case NotYet => Release
    case Rejected(code) => Fail(code)
    case Proved(token) => Complete(token)
  }

  function AfterAccepted(k: Write, next: Handoff): Op {
    match k
    case Reclaim => Seen(ForPoll, next)
    case Claim(_) => Held(next)
    case Release => Finished(next.handoffId, StillPending)
    case Complete(token) => Finished(next.handoffId, Done(token))
    case Fail(_) => Finished(next.handoffId, TerminalView(next))
    case Cancel => Finished(next.handoffId, CancelSaid(true))
    case Expire(purpose, _, _) => Seen(purpose, next)
  }

  // A lost compare-and-swap. A poll whose completion loses still reports a failed view.
  function AfterRejected(k: Write, prev: Handoff): Op {
    match k
    case Reclaim => Finished(prev.handoffId, StillPending)
    case Claim(_) => Finished(prev.handoffId, StillPending)
    case Release => Finished(prev.handoffId, StillPending)
    case Complete(_) => Writing(Fail("HANDOFF_POLL_FAILED"), prev)
    case Fail(_) => Finished(prev.handoffId, TerminalView(Next(k, prev)))
    case Cancel => Finished(prev.handoffId, CancelSaid(false))
    case Expire(purpose, digest, at) => Reading(purpose, prev.handoffId, digest, at)
  }

  // The store call threw: inside poll's try block the claim is failed, elsewhere the call rejects.
  function AfterLost(k: Write, prev: Handoff): Op {
    if k.Release? || k.Complete? then Writing(Fail("HANDOFF_POLL_FAILED"), prev)
    else Finished(prev.handoffId, Threw)
  }

  function Apply(w: World, e: Event): World {
    match e
    case Tick(ms) => w.(now := w.now + ms)
    case Begin(k, start) => if k !in w.ops && MayBegin(w.now, start) then At(w, k, start) else w
    case LandCreate(k, refused) =>
      if k !in w.ops || !w.ops[k].Creating? then w
      else
        var r := w.ops[k].record;
        if refused || r.handoffId in w.history || !CreateAccepts(w.store, r) then At(w, k, Finished(r.handoffId, Refused))
        else At(Appended(w.(store := Created(w.store, r)), Entry(r, w.now, k, Born)), k, Finished(r.handoffId, Started))
    case LandRead(k) =>
      if k !in w.ops || !w.ops[k].Reading? then w
      else
        var o := w.ops[k];
        if !Readable(w.store, o.id, o.digest) then
          At(w, k, Finished(o.id, if o.purpose == ForPoll then Unknown else CancelSaid(false)))
        else
          var r := w.store.records[o.id];
          At(w, k, if Overdue(r, o.at) then Writing(Expire(o.purpose, o.digest, o.at), r) else Seen(o.purpose, r))
    case Proceed(k) =>
      if k !in w.ops || !w.ops[k].Seen? then w
      else At(w, k, AfterRead(w.ops[k].purpose, w.ops[k].snap, w.now))
    case Decide(k, verdict) =>
      if k !in w.ops || !w.ops[k].Held? then w
      else At(w, k, Writing(VerdictWrite(verdict), w.ops[k].claim))
    case LandWrite(k, lost) =>
      if k !in w.ops || !w.ops[k].Writing? then w else Landed(w, k, lost)
    case Vanish(ids) => w.(store := Vanished(w.store, ids))
  }

  function Landed(w: World, k: nat, lost: bool): World
    requires k in w.ops && w.ops[k].Writing?
  {
    var kind, prev := w.ops[k].kind, w.ops[k].prev;
    var next := Next(kind, prev);
    var accepted := UpdateAccepts(w.store, prev, next);
    var w1 := if accepted
      then Appended(w.(store := Updated(w.store, next)), Entry(next, w.now, k, Wrote(kind)))
      else w;
    if lost then At(w1.(severed := w1.severed + {k}), k, AfterLost(kind, prev))
    else At(w1, k, if accepted then AfterAccepted(kind, next) else AfterRejected(kind, prev))
  }

  function Run(w: World, es: seq<Event>): World
    decreases |es|
  {
    if es == [] then w else Run(Apply(w, es[0]), es[1..])
  }

  // ---------------------------------------------------------------- invariant

  /** One version of a record may follow another only by a justified write. */
  predicate Edge(a: Entry, b: Entry) {
    && b.cause.Wrote?
    && b.record == Next(b.cause.kind, a.record)
    && a.at <= b.at
    && Justified(b.cause.kind, a.record, b.at)
    && (HolderWrite(b.cause.kind) ==> a.author == b.author && a.cause.Wrote? && a.cause.kind.Claim?)
  }

  // Version i + 1 of a record either is its first or follows version i.
  predicate Link(h: seq<Entry>, i: nat, id: string, now: int)
    requires i < |h|
  {
    && h[i].record.version == i + 1 && h[i].record.handoffId == id && h[i].at <= now
    && if i == 0 then h[0].cause == Born && FirstVersion(h[0].record) else Edge(h[i-1], h[i])
  }

  ghost predicate Chain(h: seq<Entry>, id: string, now: int) {
    |h| > 0 && forall i :: 0 <= i < |h| ==> Link(h, i, id, now)
  }

  predicate Known(w: World, r: Handoff) {
    && r.handoffId in w.history
    && 1 <= r.version <= |w.history[r.handoffId]|
    && w.history[r.handoffId][r.version - 1].record == r
  }

  function Last(h: seq<Entry>): Handoff
    requires |h| > 0
  {
    h[|h| - 1].record
  }

  // Operation k is a poll past a successful claim and not yet finished with it.
  predicate Holds(w: World, k: nat, claim: Handoff) {
    && k in w.ops
    && (w.ops[k] == Held(claim) || (w.ops[k].Writing? && HolderWrite(w.ops[k].kind) && w.ops[k].prev == claim))
  }

  predicate ClaimedBy(w: World, k: nat, claim: Handoff) {
    && Known(w, claim) && claim.status == Polling
    && var e := w.history[claim.handoffId][claim.version - 1];
       e.author == k && e.cause.Wrote? && e.cause.kind.Claim?
  }

  // A claim still held has not been given up by its own holder, except by a write whose reply was
  // lost; and that write was not the failure, after which the holder stops.
  predicate NotYetGivenUp(w: World, k: nat, claim: Handoff) {
    !Known(w, claim) || |w.history[claim.handoffId]| == claim.version
    || w.history[claim.handoffId][claim.version].author != k
    || (k in w.severed && w.history[claim.handoffId][claim.version].record.status != Failed)
  }

  predicate OutcomeHolds(w: World, id: string, o: Outcome) {
    match o
    case Done(token) =>
      id in w.history && |w.history[id]| > 0
      && Last(w.history[id]).status == Completed && Last(w.history[id]).protectedCompletion == Some(Protect(token))
    case CancelSaid(true) => id in w.history && |w.history[id]| > 0 && Last(w.history[id]).status == Cancelled
    case _ => true
  }

  predicate OpHolds(w: World, k: nat, o: Op) {
    match o
    case Creating(r) => FirstVersion(r)
    case Reading(_, _, _, at) => at <= w.now
    case Seen(_, r) => Known(w, r)
    case Writing(kind, r) => Known(w, r) && Justified(kind, r, w.now)
                             && (HolderWrite(kind) ==> ClaimedBy(w, k, r) && NotYetGivenUp(w, k, r))
    case Held(r) => ClaimedBy(w, k, r) && NotYetGivenUp(w, k, r)
    case Finished(id, outcome) => OutcomeHolds(w, id, outcome)
  }

  ghost predicate Chains(w: World) {
    forall id :: id in w.history ==> Chain(w.history[id], id, w.now)
  }

  // A live record is the newest version of its history.
  predicate Current(w: World, id: string) {
    id in w.store.records && id in w.history && |w.history[id]| > 0 && w.store.records[id] == Last(w.history[id])
  }

  ghost predicate Inv(w: World) {
    && Chains(w)
    && (forall id :: id in w.store.records ==> Current(w, id))
    && IndexExact(w.store)
    && (forall k :: k in w.ops ==> OpHolds(w, k, w.ops[k]))
  }
}
