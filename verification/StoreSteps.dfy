/** How the in-memory and PostgreSQL stores fit the broker's steps. */
module StoreSteps {
  import opened HandoffRecords
  import opened HandoffStores
  import opened Broker
  import opened BrokerSafety

  // The broker's two steps with nothing in between.
  function ReadAtOnce(w: World, k: nat): World {
    var w1 := Apply(w, LandRead(k));
    if k in w1.ops && w1.ops[k].Writing? then Apply(w1, LandWrite(k, false)) else w1
  }

  /**
   * The in-memory read, which expires an overdue record in the same breath, is the broker's read
   * followed at once by its compare-and-swap, which then always succeeds.
   */
  lemma InMemoryReadIsTwoSteps(w: World, k: nat)
    requires Inv(w) && k in w.ops && w.ops[k].Reading?
    ensures var o := w.ops[k];
            var (s, r) := ReadResult(w.store, o.id, o.digest, o.at);
            var w2 := ReadAtOnce(w, k);
            && w2.store == s && w2.now == w.now && k in w2.ops
            && w2.ops[k] == (if r.Some? then Seen(o.purpose, r.value)
                             else Finished(o.id, if o.purpose == ForPoll then Unknown else CancelSaid(false)))
            && forall j :: j in w.ops && j != k ==> j in w2.ops && w2.ops[j] == w.ops[j]
  {
    var o := w.ops[k];
    if Readable(w.store, o.id, o.digest) {
      CurrentIsKnown(w, o.id);
      if Overdue(w.store.records[o.id], o.at) { OverdueReadIsTwoSteps(w, k); }
    }
  }

  lemma OverdueReadIsTwoSteps(w: World, k: nat)
    requires Inv(w) && k in w.ops && w.ops[k].Reading?
    requires Readable(w.store, w.ops[k].id, w.ops[k].digest) && Overdue(w.store.records[w.ops[k].id], w.ops[k].at)
    ensures var o := w.ops[k];
            var w2 := ReadAtOnce(w, k);
            w2.store == ReadResult(w.store, o.id, o.digest, o.at).0 && w2.now == w.now
            && w2.ops == w.ops[k := Seen(o.purpose, ReadResult(w.store, o.id, o.digest, o.at).1.value)]
  {
    var o := w.ops[k];
    var r, kind := w.store.records[o.id], Expire(o.purpose, o.digest, o.at);
    CurrentIsKnown(w, o.id);
    assert Next(kind, r) == r.(status := Expired, version := r.version + 1);
    var w1 := Apply(w, LandRead(k));
    assert w1 == At(w, k, Writing(kind, r)) && UpdateAccepts(w1.store, r, Next(kind, r));
  }

  /** Every write the service ever has in flight fits the PostgreSQL rows, so the row update is the contract's. */
  lemma PostgresTakesEveryWrite(w: World, k: nat)
    requires Inv(w) && k in w.ops && w.ops[k].Writing?
    ensures var prev, next := w.ops[k].prev, Next(w.ops[k].kind, w.ops[k].prev);
            UpdateAccepts(w.store, prev, next) ==> Fits(w.store, prev, next)
  {
    WritesInFlight(w, k);
  }
}
