/** What every run of the brokered handoff guarantees. */
module BrokerTheorems {
  import opened Basics
  import opened HandoffRecords
  import opened Broker
  import opened BrokerSafety

  lemma Reachable(es: seq<Event>)
    ensures Inv(Run(Initial, es))
  {
    RunKeepsInv(Initial, es);
  }

  // ---------------------------------------------------------------- one record's history

  /** The status changes the protocol allows, and who may cause them. */
  ghost predicate Allowed(a: Entry, b: Entry) {
    && !Terminal(a.record.status)
    && b.record.version == a.record.version + 1
    && SameIdentity(a.record, b.record)
    && a.at <= b.at
    && (b.record.status == Pending || b.record.status.Completed? || b.record.status.Failed? ==> a.record.status == Polling)
    && (b.record.status == Polling ==> a.record.status == Pending)
    && (b.record.status.Completed? || b.record.status.Failed? ==> a.author == b.author)
    && (b.record.status == Expired ==> b.record.expiresAt <= b.at)
  }

  lemma HistoryIsAChain(es: seq<Event>, id: string)
    ensures var w := Run(Initial, es);
            id in w.history ==>
              var h := w.history[id];
              && |h| > 0 && h[0].record.status == Pending
              && (forall i :: 0 <= i < |h| ==> h[i].record.version == i + 1 && h[i].record.handoffId == id)
              && (forall i :: 0 < i < |h| ==> Allowed(h[i-1], h[i]))
              && (forall i, j :: 0 <= i < j < |h| ==> SameIdentity(h[i].record, h[j].record) && !Terminal(h[i].record.status))
  {
    var w := Run(Initial, es);
    Reachable(es);
    if id in w.history {
      var h := w.history[id];
      var first := Link(h, 0, id, w.now);
      forall i | 0 <= i < |h| ensures h[i].record.version == i + 1 && h[i].record.handoffId == id {
        var linked := Link(h, i, id, w.now);
      }
      forall i | 0 < i < |h| ensures Allowed(h[i-1], h[i]) {
        var linked := Link(h, i, id, w.now);
      }
      forall i, j | 0 <= i < j < |h| ensures SameIdentity(h[i].record, h[j].record) && !Terminal(h[i].record.status) {
        SameThroughout(h, id, w.now, i);
        SameThroughout(h, id, w.now, j);
        if Terminal(h[i].record.status) { TerminalIsLast(h, id, w.now, i); }
      }
    }
  }

  // ---------------------------------------------------------------- claims and leases

  lemma LeasesAreShort(es: seq<Event>, id: string, i: nat)
    requires var w := Run(Initial, es); id in w.history && i < |w.history[id]| && w.history[id][i].record.status == Polling
    ensures var e := Run(Initial, es).history[id][i];
            && e.record.pollClaimExpiresAt.Some?
            && e.record.pollClaimExpiresAt.value <= e.record.expiresAt
            && e.record.pollClaimExpiresAt.value <= e.at + 30_000
  {
    var w := Run(Initial, es);
    Reachable(es);
    var linked := Link(w.history[id], i, id, w.now);
  }

  /**
   * Two polls of one handoff that are both past a claim: the earlier claim was given up before the
   * later one was made, either by another operation after its lease had run out, or by its own
   * holder, which then never received the store's reply.
   */
  lemma ClaimsExclude(es: seq<Event>, k1: nat, c1: Handoff, k2: nat, c2: Handoff)
    requires var w := Run(Initial, es); Holds(w, k1, c1) && Holds(w, k2, c2)
    requires c1.handoffId == c2.handoffId && k1 != k2
    ensures c1.version != c2.version
    ensures var w := Run(Initial, es);
            c1.version < c2.version ==>
              && c1.handoffId in w.history
              && var h := w.history[c1.handoffId];
              && c2.version <= |h| && c1.pollClaimExpiresAt.Some?
              && h[c2.version - 1].record == c2 && h[c2.version - 1].author == k2
              && h[c1.version].record.status == Pending && h[c1.version].at <= h[c2.version - 1].at
              && (if h[c1.version].author == k1 then k1 in w.severed else c1.pollClaimExpiresAt.value <= h[c1.version].at)
  {
    var w := Run(Initial, es);
    Reachable(es);
    assert OpHolds(w, k1, w.ops[k1]) && OpHolds(w, k2, w.ops[k2]);
    if c1.version < c2.version {
      GivenUp(w.history[c1.handoffId], c1.handoffId, w.now, c1.version);
      TimesAscend(w.history[c1.handoffId], c1.handoffId, w.now, c1.version, c2.version - 1);
    }
  }

  // A claim that is not the newest version was followed by a pending one unless it finished the handoff.
  lemma GivenUp(h: seq<Entry>, id: string, now: int, v: nat)
    requires Chain(h, id, now) && 1 <= v < |h| && h[v-1].record.status == Polling
    ensures h[v-1].record.pollClaimExpiresAt.Some? && h[v].record.status != Polling
    ensures v < |h| - 1 ==> h[v].record.status == Pending
    ensures h[v].record.status == Pending && h[v].author != h[v-1].author ==> h[v-1].record.pollClaimExpiresAt.value <= h[v].at
  {
    var linked0, linked := Link(h, v - 1, id, now), Link(h, v, id, now);
    if Terminal(h[v].record.status) { TerminalIsLast(h, id, now, v); }
  }

  lemma {:induction false} TimesAscend(h: seq<Entry>, id: string, now: int, i: nat, j: nat)
    requires Chain(h, id, now) && i <= j < |h|
    ensures h[i].at <= h[j].at
  {
    if i < j { TimesAscend(h, id, now, i, j - 1); var linked := Link(h, j, id, now); }
  }

  /** Of all polls past a claim of one handoff, at most one can still write. */
  lemma OneHolderCanWrite(es: seq<Event>, k1: nat, c1: Handoff, n1: Handoff, k2: nat, c2: Handoff, n2: Handoff)
    requires var w := Run(Initial, es);
             && Holds(w, k1, c1) && UpdateAccepts(w.store, c1, n1)
             && Holds(w, k2, c2) && UpdateAccepts(w.store, c2, n2)
    requires c1.handoffId == c2.handoffId
    ensures k1 == k2
  {
    var w := Run(Initial, es);
    Reachable(es);
    assert OpHolds(w, k1, w.ops[k1]) && OpHolds(w, k2, w.ops[k2]);
  }

  lemma {:induction false} NoReplyLost(w: World, es: seq<Event>)
    requires forall e :: e in es ==> !(e.LandWrite? && e.lost)
    ensures Run(w, es).severed == w.severed
    decreases |es|
  {
    if es != [] { NoReplyLost(Apply(w, es[0]), es[1..]); }
  }

  // ---------------------------------------------------------------- interchangeable compare-and-swap

  /**
   * For every write the service has in flight and every live record, comparing version and
   * token digest decides exactly as comparing the whole stored document.
   */
  lemma VersionFixesTheRecord(es: seq<Event>, k: nat)
    requires var w := Run(Initial, es); k in w.ops && w.ops[k].Writing? && w.ops[k].prev.handoffId in w.store.records
    ensures var w, prev := Run(Initial, es).store, Run(Initial, es).ops[k].prev;
            UpdateAccepts(w, prev, Next(Run(Initial, es).ops[k].kind, prev)) <==> w.records[prev.handoffId] == prev
  {
    var w := Run(Initial, es);
    Reachable(es);
    assert OpHolds(w, k, w.ops[k]);
    CurrentIsKnown(w, w.ops[k].prev.handoffId);
  }

  lemma OneActiveHandoff(es: seq<Event>, a: string, b: string)
    requires var s := Run(Initial, es).store;
             a in s.records && b in s.records && !Terminal(s.records[a].status) && !Terminal(s.records[b].status)
             && s.records[a].dependencyId == s.records[b].dependencyId
    ensures a == b
    ensures var s := Run(Initial, es).store; s.records[a].dependencyId in s.active && s.active[s.records[a].dependencyId] == a
  {
    Reachable(es);
  }

  // ---------------------------------------------------------------- stable answers

  lemma FinishedStays(w: World, e: Event, k: nat)
    requires k in w.ops && w.ops[k].Finished?
    ensures k in Apply(w, e).ops && Apply(w, e).ops[k] == w.ops[k]
  {
  }

  /** All completed answers of one handoff carry one token, and exclude a successful cancel. */
  lemma AnswersAgree(es: seq<Event>, k: nat, j: nat, id: string, token: string)
    requires var w := Run(Initial, es); k in w.ops && j in w.ops && w.ops[k] == Finished(id, Done(token))
    ensures var o := Run(Initial, es).ops[j];
            && o != Finished(id, CancelSaid(true))
            && (o.Finished? && o.id == id && o.outcome.Done? ==> o.outcome.token == token)
  {
    var w := Run(Initial, es);
    Reachable(es);
    assert OpHolds(w, k, w.ops[k]) && OpHolds(w, j, w.ops[j]);
    UnprotectProtect(token);
    if w.ops[j].Finished? && w.ops[j].outcome.Done? { UnprotectProtect(w.ops[j].outcome.token); }
  }

  // Where a poll or cancel begun after a terminal answer can be: it has not read yet, or it
  // has read the terminal record, or it has answered from it.
  predicate Settled(o: Op, purpose: Purpose, id: string, last: Handoff) {
    match o
    case Reading(p, i, _, _) => p == purpose && i == id
    case Seen(p, r) => p == purpose && r == last
    case Finished(i, outcome) =>
      i == id && if purpose == ForPoll then outcome == TerminalView(last) || outcome == Unknown
                 else outcome == CancelSaid(last.status == Cancelled) || outcome == CancelSaid(false)
    case _ => false
  }

  ghost predicate SettledAt(w: World, id: string, last: Handoff) {
    id in w.history && |w.history[id]| > 0 && Last(w.history[id]) == last && Terminal(last.status)
  }

  lemma LastStays(w: World, e: Event, id: string, last: Handoff)
    requires Inv(w) && SettledAt(w, id, last)
    ensures SettledAt(Apply(w, e), id, last)
  {
    if e.LandWrite? && e.op in w.ops && w.ops[e.op].Writing? {
      var kind, prev := w.ops[e.op].kind, w.ops[e.op].prev;
      assert OpHolds(w, e.op, w.ops[e.op]);
      if UpdateAccepts(w.store, prev, Next(kind, prev)) { AcceptedIsLast(w, prev, Next(kind, prev)); }
    }
  }

  lemma SettledStep(w: World, e: Event, j: nat, purpose: Purpose, id: string, last: Handoff)
    requires Inv(w) && SettledAt(w, id, last) && j in w.ops && Settled(w.ops[j], purpose, id, last)
    ensures j in Apply(w, e).ops && Settled(Apply(w, e).ops[j], purpose, id, last)
  {
    if e.LandRead? && e.op == j && w.ops[j].Reading? { SettledRead(w, j, purpose, id, last); }
    if e.Proceed? && e.op == j && w.ops[j].Seen? { SeenIsOfRecord(w, j, purpose, id, last); }
  }

  lemma SettledRead(w: World, j: nat, purpose: Purpose, id: string, last: Handoff)
    requires Inv(w) && SettledAt(w, id, last) && j in w.ops && w.ops[j].Reading? && w.ops[j].purpose == purpose && w.ops[j].id == id
    ensures Settled(Apply(w, LandRead(j)).ops[j], purpose, id, last)
  {
    if id in w.store.records { CurrentIsKnown(w, id); }
  }

  lemma SeenIsOfRecord(w: World, j: nat, purpose: Purpose, id: string, last: Handoff)
    requires Inv(w) && SettledAt(w, id, last) && j in w.ops && w.ops[j] == Seen(purpose, last)
    ensures last.handoffId == id
  {
    assert OpHolds(w, j, w.ops[j]);
    var linked := Link(w.history[id], |w.history[id]| - 1, id, w.now);
  }

  lemma {:induction false} StaysSettled(w: World, es: seq<Event>, j: nat, purpose: Purpose, id: string, last: Handoff)
    requires Inv(w) && SettledAt(w, id, last) && j in w.ops && Settled(w.ops[j], purpose, id, last)
    ensures var w2 := Run(w, es); SettledAt(w2, id, last) && j in w2.ops && Settled(w2.ops[j], purpose, id, last)
    decreases |es|
  {
    if es != [] {
      Step(w, es[0]);
      LastStays(w, es[0], id, last);
      SettledStep(w, es[0], j, purpose, id, last);
      StaysSettled(Apply(w, es[0]), es[1..], j, purpose, id, last);
    }
  }

  /**
   * After a poll has answered with a token, every poll begun later answers with that token or
   * does not find the record, and every cancel begun later answers false.
   */
  lemma CompletedIsFinal(es: seq<Event>, k: nat, id: string, token: string,
                         later: seq<Event>, j: nat, purpose: Purpose, digest: string)
    requires var w := Run(Initial, es); k in w.ops && w.ops[k] == Finished(id, Done(token)) && j !in w.ops
    ensures var w := Run(Initial, es);
            var w2 := Run(Apply(w, Begin(j, Reading(purpose, id, digest, w.now))), later);
            && j in w2.ops
            && (w2.ops[j].Finished? ==>
                  w2.ops[j].outcome == (if purpose == ForPoll then Done(token) else CancelSaid(false))
                  || (purpose == ForPoll && w2.ops[j].outcome == Unknown))
            && (w2.ops[j].Finished? || w2.ops[j].Reading? || w2.ops[j].Seen?)
  {
    var w := Run(Initial, es);
    Reachable(es);
    assert OpHolds(w, k, w.ops[k]);
    var e := Begin(j, Reading(purpose, id, digest, w.now));
    var last := Last(w.history[id]);
    Step(w, e);
    UnprotectProtect(token);
    StaysSettled(Apply(w, e), later, j, purpose, id, last);
  }

  /** Once a cancel has answered true, no poll of that handoff ever answers with a token. */
  lemma CancelledIsFinal(es: seq<Event>, k: nat, id: string, later: seq<Event>, j: nat)
    requires var w := Run(Initial, es); k in w.ops && w.ops[k] == Finished(id, CancelSaid(true))
    ensures var w2 := Run(Run(Initial, es), later);
            j in w2.ops ==> !(w2.ops[j].Finished? && w2.ops[j].id == id && w2.ops[j].outcome.Done?)
  {
    var w := Run(Initial, es);
    Reachable(es);
    RunKeepsInv(w, later);
    FinishedForever(w, later, k);
    var w2 := Run(w, later);
    assert OpHolds(w2, k, w2.ops[k]);
    if j in w2.ops { assert OpHolds(w2, j, w2.ops[j]); }
  }

  lemma {:induction false} FinishedForever(w: World, es: seq<Event>, k: nat)
    requires k in w.ops && w.ops[k].Finished?
    ensures k in Run(w, es).ops && Run(w, es).ops[k] == w.ops[k]
    decreases |es|
  {
    if es != [] { FinishedStays(w, es[0], k); FinishedForever(Apply(w, es[0]), es[1..], k); }
  }

  // ---------------------------------------------------------------- what is not stable

  function Example(version: nat): Handoff
    requires 1 <= version <= 5
  {
    if version == 1 then
      Handoff("h", "d", "p", "m", "t", Pending, None, Presentation("u", None), "s", None, None, 500, 60_000, 1)
    else
      Next([Claim(10_000), Reclaim, Claim(20_000), Complete("token")][version - 2], Example(version - 1))
  }

  lemma ExampleFacts(v: nat)
    requires 1 <= v <= 4
    ensures var r := Example(v);
            && r.handoffId == "h" && r.accessTokenDigest == "t" && r.expiresAt == 60_000 && r.pollAfterMs == 500 && r.version == v
            && r.status == (if v % 2 == 1 then Pending else Polling)
            && r.pollClaimExpiresAt == (if v % 2 == 1 then None else Some(if v == 2 then 10_000 else 20_000))
  {
    if v > 1 { ExampleFacts(v - 1); }
  }

  lemma {:induction false} RunSnoc(w: World, es: seq<Event>, e: Event)
    ensures Run(w, es + [e]) == Apply(Run(w, es), e)
    decreases |es|
  {
    if es != [] {
      assert (es + [e])[1..] == es[1..] + [e];
      RunSnoc(Apply(w, es[0]), es[1..], e);
    }
  }

  lemma Then(es: seq<Event>, w: World, e: Event) returns (es2: seq<Event>, w2: World)
    requires w == Run(Initial, es)
    ensures w2 == Run(Initial, es2) == Apply(w, e)
  {
    RunSnoc(Initial, es, e);
    es2, w2 := es + [e], Apply(w, e);
  }

  // Operation k writes over the newest version.
  lemma Wins(es: seq<Event>, w: World, k: nat, r: Handoff, kind: Write) returns (es2: seq<Event>, w2: World)
    requires w == Run(Initial, es) && w.store.records == map[r.handoffId := r]
    requires k in w.ops && w.ops[k] == Writing(kind, r)
    ensures w2 == Run(Initial, es2) && w2.now == w.now && w2.store.records == map[r.handoffId := Next(kind, r)]
    ensures w2.ops == w.ops[k := AfterAccepted(kind, Next(kind, r))]
  {
    es2, w2 := Then(es, w, LandWrite(k, false));
    assert UpdateAccepts(w.store, r, Next(kind, r));
    assert w2.store.records == w.store.records[r.handoffId := Next(kind, r)];
  }

  // A poll of the one live record begins, reads and decides what to do.
  lemma Looks(es: seq<Event>, w: World, k: nat, r: Handoff) returns (es2: seq<Event>, w2: World)
    requires w == Run(Initial, es) && k !in w.ops && w.now < r.expiresAt
    requires w.store.records == map[r.handoffId := r]
    ensures w2 == Run(Initial, es2) && w2.now == w.now && w2.store == w.store
    ensures w2.ops == w.ops[k := AfterRead(ForPoll, r, w.now)]
  {
    var esA, wA := Then(es, w, Begin(k, Reading(ForPoll, r.handoffId, r.accessTokenDigest, w.now)));
    var esB, wB := Then(esA, wA, LandRead(k));
    assert wB.ops[k] == Seen(ForPoll, r);
    es2, w2 := Then(esB, wB, Proceed(k));
    assert w2.ops == w.ops[k := AfterRead(ForPoll, r, w.now)];
  }

  lemma FirstPollClaims() returns (es: seq<Event>, w: World)
    ensures w == Run(Initial, es) && w.now == 10_000 && w.store.records == map["h" := Example(2)]
    ensures w.ops == map[0 := Finished("h", Started), 1 := Held(Example(2))]
  {
    es, w := Then([], Initial, Begin(0, Creating(Example(1))));
    es, w := Then(es, w, LandCreate(0, false));
    assert w.store.records == map["h" := Example(1)] && w.ops == map[0 := Finished("h", Started)];
    ExampleFacts(1);
    es, w := Looks(es, w, 1, Example(1));
    es, w := Wins(es, w, 1, Example(1), Claim(10_000));
    es, w := Then(es, w, Tick(10_000));
  }

  lemma SecondPollReclaims() returns (es: seq<Event>, w: World)
    ensures w == Run(Initial, es) && w.store.records == map["h" := Example(4)]
    ensures w.ops == map[0 := Finished("h", Started), 1 := Held(Example(2)), 2 := Held(Example(4))]
  {
    es, w := FirstPollClaims();
    ExampleFacts(2); ExampleFacts(3);
    es, w := Looks(es, w, 2, Example(2));
    es, w := Wins(es, w, 2, Example(2), Reclaim);
    es, w := Then(es, w, Proceed(2));
    es, w := Wins(es, w, 2, Example(3), Claim(20_000));
  }

  lemma SecondPollCompletes() returns (es: seq<Event>, w: World)
    ensures w == Run(Initial, es) && w.store.records == map["h" := Next(Complete("token"), Example(4))]
    ensures 1 in w.ops && w.ops[1] == Held(Example(2)) && Example(2).handoffId == "h" && Example(2).version == 2
    ensures 2 in w.ops && w.ops[2] == Finished("h", Done("token")) && Next(Complete("token"), Example(4)).version == 5
  {
    es, w := SecondPollReclaims();
    ExampleFacts(2); ExampleFacts(4);
    es, w := Then(es, w, Decide(2, Proved("token")));
    es, w := Wins(es, w, 2, Example(4), Complete("token"));
  }

  /**
   * A poll may report a failure that the store never records: its lease runs out, another poll
   * reclaims the handoff and completes it, and the first poll still answers "failed".
   */
  lemma FailedViewIsNotStable() returns (es: seq<Event>)
    ensures var w := Run(Initial, es);
            && 1 in w.ops && w.ops[1].Finished? && w.ops[1].id == "h" && w.ops[1].outcome.FailedView?
            && 2 in w.ops && w.ops[2] == Finished("h", Done("token"))
  {
    var w;
    es, w := SecondPollCompletes();
    es, w := Then(es, w, Decide(1, Rejected("LATE")));
    es, w := Then(es, w, LandWrite(1, false));
  }

  /** A poll that ends in failure always answers with its code; the store agrees exactly when its compare-and-swap is accepted. */
  lemma FailedViewHoldsExactlyWhenAccepted(es: seq<Event>, k: nat)
    requires var w := Run(Initial, es); k in w.ops && w.ops[k].Writing? && w.ops[k].kind.Fail?
    ensures var w := Run(Initial, es);
            var kind, prev := w.ops[k].kind, w.ops[k].prev;
            var w2 := Apply(w, LandWrite(k, false));
            && w2.ops[k] == Finished(prev.handoffId, FailedView(SanitizedCode(kind.code)))
            && prev.handoffId in w2.history && w2.history[prev.handoffId] != []
            && (Last(w2.history[prev.handoffId]) == Next(kind, prev) <==> UpdateAccepts(w.store, prev, Next(kind, prev)))
  {
    var w := Run(Initial, es);
    Reachable(es);
    var kind, prev := w.ops[k].kind, w.ops[k].prev;
    assert OpHolds(w, k, w.ops[k]);
    var h := w.history[prev.handoffId];
    if |h| > prev.version { FailedByHolder(h, prev.handoffId, w.now, prev.version); }
    var lastLinked := Link(h, |h| - 1, prev.handoffId, w.now);
  }

  // A failed version was written by the holder of the claim before it.
  lemma FailedByHolder(h: seq<Entry>, id: string, now: int, v: nat)
    requires Chain(h, id, now) && 1 <= v < |h|
    ensures h[v].record.status == Failed ==> h[v].author == h[v-1].author
  {
    var linked := Link(h, v, id, now);
  }
}
