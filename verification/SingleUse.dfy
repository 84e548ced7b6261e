/**
 * What a single-use store answers: result acceptance and result replay, with and without
 * forgetting expired entries. The stores of src/nonce-store.ts forget; the reference here does not.
 */
module SingleUse {
  import opened Basics

  datatype Mark<+T> = Mark(payload: T, expiresAt: nat)

  datatype Status = Fresh | SameOperation | Replayed

  /**
   * One call. `fit` says that its arguments pass the store's own checks; `now` is the time the
   * caller passes in, `clock` the time by which the store forgets.
   */
  datatype Call<+T> = Call(fit: bool, id: string, legacy: Option<string>, payload: T, expiresAt: nat, now: nat, clock: nat)

  type Marks<T> = map<string, Mark<T>>

  predicate Passes<T>(c: Call<T>) { c.fit && c.expiresAt > c.now }

  predicate Mentions<T>(c: Call<T>, id: string) { c.id == id || c.legacy == Some(id) }

  function Pruned<T>(m: Marks<T>, clock: nat): Marks<T> { map id | id in m && m[id].expiresAt > clock :: m[id] }

  function Found<T>(m: Marks<T>, c: Call<T>): Option<Mark<T>> {
    if c.legacy.Some? && c.legacy.value in m then Some(m[c.legacy.value])
    else if c.id in m then Some(m[c.id])
    else None
  }

  /** The reference: nothing is ever forgotten. */
  function Enter<T(==)>(m: Marks<T>, c: Call<T>): (Marks<T>, Status) {
    if !Passes(c) then (m, Replayed)
    else
      var found := Found(m, c);
      if found.None? then (m[c.id := Mark(c.payload, c.expiresAt)], Fresh)
      else (m, if found.value.payload == c.payload then SameOperation else Replayed)
  }

  function EnterPruning<T(==)>(m: Marks<T>, c: Call<T>): (Marks<T>, Status) {
    if Passes(c) then Enter(Pruned(m, c.clock), c) else (m, Replayed)
  }

  // The row of an ID, unless it has expired at the given time.
  predicate LiveRow<T>(m: Marks<T>, id: string, at: nat) { id in m && m[id].expiresAt > at }

  /**
   * A table that keeps its rows. An expired row still blocks its own ID but no longer repeats its
   * operation; a legacy row counts only while it is live, and either row may be the one repeated.
   */
  function EnterTable<T(==)>(m: Marks<T>, c: Call<T>): (Marks<T>, Status) {
    if !Passes(c) then (m, Replayed)
    else
      var at := if c.legacy.Some? then c.now else c.clock;
      var legacyLive := c.legacy.Some? && LiveRow(m, c.legacy.value, at);
      if !legacyLive && c.id !in m then (m[c.id := Mark(c.payload, c.expiresAt)], Fresh)
      else if legacyLive && m[c.legacy.value].payload == c.payload then (m, SameOperation)
      else if LiveRow(m, c.id, at) && m[c.id].payload == c.payload then (m, SameOperation)
      else (m, Replayed)
  }

  function Answers<T(==)>(m: Marks<T>, calls: seq<Call<T>>): (r: seq<Status>)
    ensures |r| == |calls|
    decreases |calls|
  {
    if calls == [] then [] else [Enter(m, calls[0]).1] + Answers(Enter(m, calls[0]).0, calls[1..])
  }

  function AnswersPruning<T(==)>(m: Marks<T>, calls: seq<Call<T>>): (r: seq<Status>)
    ensures |r| == |calls|
    decreases |calls|
  {
    if calls == [] then [] else [EnterPruning(m, calls[0]).1] + AnswersPruning(EnterPruning(m, calls[0]).0, calls[1..])
  }

  function AnswersTable<T(==)>(m: Marks<T>, calls: seq<Call<T>>): (r: seq<Status>)
    ensures |r| == |calls|
    decreases |calls|
  {
    if calls == [] then [] else [EnterTable(m, calls[0]).1] + AnswersTable(EnterTable(m, calls[0]).0, calls[1..])
  }

  // ---------------------------------------------------------------- when forgetting shows

  /** One expiry for each result, shared by its scoped and its legacy ID. */
  predicate Lives<T>(life: string -> nat, c: Call<T>) {
    c.expiresAt == life(c.id) && (c.legacy.Some? ==> c.expiresAt == life(c.legacy.value))
  }

  ghost predicate Consistent<T>(life: string -> nat, m: Marks<T>, calls: seq<Call<T>>) {
    (forall c :: c in calls ==> Lives(life, c)) && forall id :: id in m ==> m[id].expiresAt == life(id)
  }

  // The store's clock never goes back. What callers pass as `now` is free.
  predicate Ordered<T>(from: nat, calls: seq<Call<T>>)
    decreases |calls|
  {
    calls == [] || (from <= calls[0].clock && Ordered(calls[0].clock, calls[1..]))
  }

  /** A result seen before, presented with a `now` before its expiry when the store's clock is past it. */
  predicate Stale<T>(m: Marks<T>, c: Call<T>) {
    Passes(c) && Found(m, c).Some? && c.expiresAt <= c.clock
  }

  predicate NeverStale<T(==)>(m: Marks<T>, calls: seq<Call<T>>)
    decreases |calls|
  {
    calls == [] || (!Stale(m, calls[0]) && NeverStale(Enter(m, calls[0]).0, calls[1..]))
  }

  lemma PrunedAgain<T>(p: Marks<T>, m: Marks<T>, from: nat, clock: nat)
    requires Pruned(p, from) == Pruned(m, from) && from <= clock
    ensures Pruned(p, clock) == Pruned(m, clock)
  {
    assert Pruned(Pruned(p, from), clock) == Pruned(p, clock);
    assert Pruned(Pruned(m, from), clock) == Pruned(m, clock);
  }

  lemma OneCall<T>(life: string -> nat, p: Marks<T>, m: Marks<T>, from: nat, c: Call<T>)
    requires Consistent(life, m, [c]) && Pruned(p, from) == Pruned(m, from) && from <= c.clock
    ensures EnterPruning(p, c).1 == Enter(m, c).1 <==> !Stale(m, c)
    ensures !Stale(m, c) ==> Pruned(EnterPruning(p, c).0, c.clock) == Pruned(Enter(m, c).0, c.clock)
  {
    assert c in [c];
    PrunedAgain(p, m, from, c.clock);
    var kept := Pruned(m, c.clock);
    assert Pruned(kept, c.clock) == kept;
    if Passes(c) {
      var mark := Mark(c.payload, c.expiresAt);
      assert Found(m, c).None? ==> Pruned(kept[c.id := mark], c.clock) == Pruned(m[c.id := mark], c.clock);
      assert Found(m, c).Some? && c.expiresAt > c.clock ==> Found(kept, c) == Found(m, c);
    }
  }

  /** A forgetting store answers as one that never forgets exactly when no call is stale. */
  lemma {:induction false} AgreeExactly<T>(life: string -> nat, p: Marks<T>, m: Marks<T>, from: nat, calls: seq<Call<T>>)
    requires Consistent(life, m, calls) && Pruned(p, from) == Pruned(m, from) && Ordered(from, calls)
    ensures AnswersPruning(p, calls) == Answers(m, calls) <==> NeverStale(m, calls)
    decreases |calls|
  {
    if calls != [] {
      var c := calls[0];
      var (p2, a) := EnterPruning(p, c);
      var (m2, b) := Enter(m, c);
      assert c in calls && forall x :: x in calls[1..] ==> x in calls;
      OneCall(life, p, m, from, c);
      var xs, ys := AnswersPruning(p2, calls[1..]), Answers(m2, calls[1..]);
      assert AnswersPruning(p, calls) == [a] + xs && Answers(m, calls) == [b] + ys;
      assert ([a] + xs)[1..] == xs && ([b] + ys)[1..] == ys;
      if a == b { AgreeExactly(life, p2, m2, c.clock, calls[1..]); }
    }
  }

  /** A store whose clock is the caller's `now`, as the in-memory stores use it, never meets a stale call. */
  lemma {:induction false} OwnClockIsNeverStale<T>(m: Marks<T>, calls: seq<Call<T>>)
    requires forall c :: c in calls ==> c.clock == c.now
    ensures NeverStale(m, calls)
    decreases |calls|
  {
    if calls != [] {
      assert forall x :: x in calls[1..] ==> x in calls;
      OwnClockIsNeverStale(Enter(m, calls[0]).0, calls[1..]);
    }
  }

  // ---------------------------------------------------------------- what the reference guarantees

  lemma {:induction false} SeenOnce<T>(m: Marks<T>, calls: seq<Call<T>>, id: string, j: nat)
    requires id in m && j < |calls| && Mentions(calls[j], id)
    ensures Answers(m, calls)[j] != Fresh
    decreases |calls|
  {
    if j > 0 { SeenOnce(Enter(m, calls[0]).0, calls[1..], id, j - 1); }
  }

  /** An ID that was new once is never new again, under either of its names. */
  lemma {:induction false} AtMostOneFresh<T>(m: Marks<T>, calls: seq<Call<T>>, i: nat, j: nat)
    requires i < j < |calls| && Answers(m, calls)[i] == Fresh && Mentions(calls[j], calls[i].id)
    ensures Answers(m, calls)[j] != Fresh
    decreases |calls|
  {
    if i > 0 { AtMostOneFresh(Enter(m, calls[0]).0, calls[1..], i - 1, j - 1); }
    else { SeenOnce(Enter(m, calls[0]).0, calls[1..], calls[0].id, j - 1); }
  }

  // An earlier call was new under a name that call j mentions.
  predicate SeenBefore<T(==)>(m: Marks<T>, calls: seq<Call<T>>, i: int, j: int) {
    0 <= i < j < |calls| && Answers(m, calls)[i] == Fresh && Mentions(calls[j], calls[i].id)
  }

  /** A call is new exactly when its arguments pass, the store starts without its names, and no earlier call was new under one of them. */
  lemma {:induction false} FreshExactly<T>(m: Marks<T>, calls: seq<Call<T>>, j: nat)
    requires j < |calls|
    ensures Answers(m, calls)[j] == Fresh <==>
              Passes(calls[j]) && Found(m, calls[j]).None? && forall i :: !SeenBefore(m, calls, i, j)
    decreases |calls|
  {
    if j > 0 {
      var m2, rest, before := Enter(m, calls[0]).0, calls[1..], j - 1;
      FreshExactly(m2, rest, before);
      forall i | SeenBefore(m, calls, i, j) && i > 0 ensures SeenBefore(m2, rest, i - 1, before) {}
      if i :| SeenBefore(m2, rest, i, before) { assert SeenBefore(m, calls, i + 1, j); }
      assert Answers(m, calls)[0] == Fresh && Mentions(calls[j], calls[0].id) ==> SeenBefore(m, calls, 0, j);
    }
  }

  // An ID found in the marks has an origin: it was there at the start or some call put it there.
  lemma {:induction false} Origin<T>(m: Marks<T>, calls: seq<Call<T>>, j: nat) returns (id: string, i: Option<nat>)
    requires j < |calls| && Answers(m, calls)[j] == SameOperation
    ensures Mentions(calls[j], id)
    ensures i.None? ==> id in m && m[id].payload == calls[j].payload
    ensures i.Some? ==> i.value < j && Answers(m, calls)[i.value] == Fresh
                        && calls[i.value].id == id && calls[i.value].payload == calls[j].payload
    decreases |calls|
  {
    var c := calls[0];
    if j == 0 {
      id, i := if c.legacy.Some? && c.legacy.value in m then c.legacy.value else c.id, None;
    } else {
      id, i := Origin(Enter(m, c).0, calls[1..], j - 1);
      if i.Some? {
        i := Some(i.value + 1);
      } else if id !in m {
        assert Enter(m, c).1 == Fresh;
        i := Some(0);
      }
    }
  }

  // Call j repeats the operation of call i, which was accepted as new before it.
  predicate Repeats<T(==)>(calls: seq<Call<T>>, i: int, j: int) {
    0 <= i < j < |calls| && Answers(map[], calls)[i] == Fresh && Mentions(calls[j], calls[i].id) && calls[i].payload == calls[j].payload
  }

  /** Every repeated operation repeats one that was accepted as new before. */
  lemma SameOperationRepeats<T>(calls: seq<Call<T>>, j: nat)
    requires j < |calls| && Answers(map[], calls)[j] == SameOperation
    ensures exists i :: Repeats(calls, i, j)
  {
    var id, k := Origin(map[], calls, j);
    assert Repeats(calls, k.value, j);
  }

  /** The in-memory stores, used under one non-decreasing clock, keep both guarantees although they forget. */
  lemma PruningIsSafe<T>(life: string -> nat, calls: seq<Call<T>>, i: nat, j: nat)
    requires Consistent(life, map[], calls) && Ordered(0, calls) && NeverStale(map[], calls)
    requires i < j < |calls| && AnswersPruning(map[], calls)[i] == Fresh && Mentions(calls[j], calls[i].id)
    ensures var s := AnswersPruning(map[], calls)[j];
            && s != Fresh
            && (s == SameOperation && calls[j].legacy.None? ==> calls[j].payload == calls[i].payload)
  {
    AgreeExactly(life, map[], map[], 0, calls);
    AtMostOneFresh(map[], calls, i, j);
    if AnswersPruning(map[], calls)[j] == SameOperation && calls[j].legacy.None? {
      SameOperationRepeats(calls, j);
      var k :| Repeats(calls, k, j);
      if k < i { AtMostOneFresh(map[], calls, k, i); }
      if i < k { AtMostOneFresh(map[], calls, i, k); }
    }
  }

  /** If callers' times may go back, a forgetting store can accept one result twice. */
  lemma TimeGoingBackAcceptsTwice()
    ensures var calls := [Call(true, "a", None, 1, 80, 50, 50), Call(true, "b", None, 2, 200, 100, 100), Call(true, "a", None, 3, 80, 60, 60)];
            AnswersPruning(map[], calls) == [Fresh, Fresh, Fresh]
  {
    var c0, c1, c2 := Call(true, "a", None, 1, 80, 50, 50), Call(true, "b", None, 2, 200, 100, 100), Call(true, "a", None, 3, 80, 60, 60);
    var m1 := EnterPruning(map[], c0).0;
    var m2 := EnterPruning(m1, c1).0;
    assert "a" !in Pruned(m1, 100) && "b" !in Pruned(m1, 100);
    assert m2 == map["b" := Mark(2, 200)];
    assert "a" !in Pruned(m2, 60);
    var calls := [c0, c1, c2];
    assert calls[1..] == [c1, c2] && [c1, c2][1..] == [c2];
    assert AnswersPruning(m2, [c2]) == [Fresh];
    assert AnswersPruning(m1, [c1, c2]) == [Fresh, Fresh];
  }

  /** A table that keeps its rows is never more generous than the reference: same new ones, no other repeats. */
  lemma {:induction false} TableIsStricter<T>(m: Marks<T>, calls: seq<Call<T>>, j: nat)
    requires j < |calls| && forall c :: c in calls ==> c.legacy.None?
    ensures AnswersTable(m, calls)[j] == Fresh <==> Answers(m, calls)[j] == Fresh
    ensures AnswersTable(m, calls)[j] == SameOperation ==> Answers(m, calls)[j] == SameOperation
    decreases |calls|
  {
    var c := calls[0];
    assert c in calls && forall x :: x in calls[1..] ==> x in calls;
    assert EnterTable(m, c).0 == Enter(m, c).0;
    if j > 0 { TableIsStricter(Enter(m, c).0, calls[1..], j - 1); }
  }

  // With one expiry for each result, the table inserts exactly where the reference does.
  lemma OneTableCall<T>(life: string -> nat, m: Marks<T>, c: Call<T>)
    requires Consistent(life, m, [c])
    ensures EnterTable(m, c).0 == Enter(m, c).0
    ensures EnterTable(m, c).1 == Fresh <==> Enter(m, c).1 == Fresh
    ensures EnterTable(m, c).1 == SameOperation ==>
              (c.legacy.Some? && c.legacy.value in m && m[c.legacy.value].payload == c.payload)
              || (c.id in m && m[c.id].payload == c.payload)
  {
    assert c in [c];
  }

  lemma {:induction false} TableRepeats<T>(life: string -> nat, m: Marks<T>, calls: seq<Call<T>>, j: nat)
    returns (id: string, i: Option<nat>)
    requires Consistent(life, m, calls) && j < |calls| && AnswersTable(m, calls)[j] == SameOperation
    ensures Mentions(calls[j], id)
    ensures i.None? ==> id in m && m[id].payload == calls[j].payload
    ensures i.Some? ==> i.value < j && Answers(m, calls)[i.value] == Fresh
                        && calls[i.value].id == id && calls[i.value].payload == calls[j].payload
    decreases |calls|
  {
    var c := calls[0];
    assert c in calls && forall x :: x in calls[1..] ==> x in calls;
    OneTableCall(life, m, c);
    if j == 0 {
      id, i := if c.legacy.Some? && c.legacy.value in m && m[c.legacy.value].payload == c.payload then c.legacy.value else c.id, None;
    } else {
      id, i := TableRepeats(life, Enter(m, c).0, calls[1..], j - 1);
      if i.Some? {
        i := Some(i.value + 1);
      } else if id !in m {
        assert Enter(m, c).1 == Fresh;
        i := Some(0);
      }
    }
  }

  lemma {:induction false} TableFreshAlike<T>(life: string -> nat, m: Marks<T>, calls: seq<Call<T>>, j: nat)
    requires Consistent(life, m, calls) && j < |calls|
    ensures AnswersTable(m, calls)[j] == Fresh <==> Answers(m, calls)[j] == Fresh
    decreases |calls|
  {
    var c := calls[0];
    assert c in calls && forall x :: x in calls[1..] ==> x in calls;
    OneTableCall(life, m, c);
    if j > 0 { TableFreshAlike(life, Enter(m, c).0, calls[1..], j - 1); }
  }

  /**
   * With legacy IDs too: under one expiry for each result the table answers new exactly where the
   * reference does, and what it calls the same operation was accepted as new before.
   */
  lemma TableWithLegacy<T>(life: string -> nat, calls: seq<Call<T>>, j: nat)
    requires Consistent(life, map[], calls) && j < |calls|
    ensures AnswersTable(map[], calls)[j] == Fresh <==> Answers(map[], calls)[j] == Fresh
    ensures AnswersTable(map[], calls)[j] == SameOperation ==> exists i :: Repeats(calls, i, j)
  {
    TableFreshAlike(life, map[], calls, j);
    if AnswersTable(map[], calls)[j] == SameOperation {
      var id, k := TableRepeats(life, map[], calls, j);
      assert Repeats(calls, k.value, j);
    }
  }
}
