/**
 * Result acceptance and replay in Redis (src/redis.ts): scripts over text keys with a time to
 * live, shown to answer as the forgetting store whose clock is the server's.
 */
module RedisResults {
  import opened Basics
  import opened SingleUse
  import opened MemoryStores
  import opened CanonicalJson
  import opened JsonObjects
  import opened RedisHandoffs

  datatype Kind = Result | AcceptanceOf

  function ResultKey(prefix: string, kind: Kind, id: string): string {
    prefix + (if kind == Result then ":result:" else ":acceptance:") + id
  }

  function LegacyKey(prefix: string, kind: Kind, legacyId: Option<string>): Option<string> {
    if legacyId.Some? then Some(ResultKey(prefix, kind, legacyId.value)) else None
  }

  lemma ResultKeysApart(prefix: string, kind: Kind, a: string, b: string)
    ensures ResultKey(prefix, kind, a) == ResultKey(prefix, kind, b) <==> a == b
  {
    var n := |prefix| + (if kind == Result then 8 else 12);
    assert ResultKey(prefix, kind, a)[n..] == a && ResultKey(prefix, kind, b)[n..] == b;
  }

  const OPERATION_KEYS := ["operationId", "requestDigest"]

  // The text that an acceptance key holds.
  function OperationText(less: Order, o: Operation): string {
    Printed(less, OPERATION_KEYS, [Str(o.operationId), Str(o.requestDigest)])
  }

  lemma OperationTextInjective(num: Reader, less: Order, a: Operation, b: Operation)
    requires Lawful(num) && StrictTotal(less)
    ensures OperationText(less, a) == OperationText(less, b) <==> a == b
  {
    var vs, ws := [Str(a.operationId), Str(a.requestDigest)], [Str(b.operationId), Str(b.requestDigest)];
    if OperationText(less, a) == OperationText(less, b) {
      PrintedDetermines(num, less, OPERATION_KEYS, vs, ws);
      assert SameField(vs[0], ws[0]) && SameField(vs[1], ws[1]);
    }
  }

  // ---------------------------------------------------------------- the scripts

  // What the scripts read: the legacy key first, then the key itself.
  function Current(keys: map<string, Key>, clock: int, key: string, legacyKey: Option<string>): Option<string> {
    if legacyKey.Some? && Live(keys, legacyKey.value, clock) then Some(keys[legacyKey.value].value)
    else if Live(keys, key, clock) then Some(keys[key].value)
    else None
  }

  // 1 new, 2 the same operation, 0 replay.
  function AcceptScript(keys: map<string, Key>, clock: int, key: string, legacyKey: Option<string>, value: string, expiresAt: int)
    : (map<string, Key>, int)
  {
    var current := Current(keys, clock, key, legacyKey);
    if current.None? then (keys[key := Key(value, expiresAt)], 1)
    else (keys, if current.value == value then 2 else 0)
  }

  function StatusOfReply(n: int): Status { if n == 1 then Fresh else if n == 2 then SameOperation else Replayed }

  // Unlike the in-memory store, Redis also bounds the legacy ID here.
  function RedisConsumeCall(resultId: string, legacyId: Option<string>, expiresAt: Option<nat>, now: nat, clock: nat): Call<()> {
    var c := ConsumeCall(resultId, legacyId, expiresAt, now, clock);
    c.(fit := c.fit && (legacyId.Some? ==> |legacyId.value| <= 200))
  }

  // SET NX, after the legacy key was found absent.
  function ConsumeScript(keys: map<string, Key>, clock: int, key: string, legacyKey: Option<string>, expiresAt: int)
    : (map<string, Key>, bool)
  {
    if Current(keys, clock, key, legacyKey).Some? then (keys, false)
    else (keys[key := Key("1", expiresAt)], true)
  }

  // ---------------------------------------------------------------- what the keys stand for

  predicate MarkIs<T>(keys: map<string, Key>, clock: nat, key: string, text: T -> string, m: Marks<T>, id: string) {
    && (Live(keys, key, clock) <==> id in m && m[id].expiresAt > clock)
    && (Live(keys, key, clock) ==> id in m && keys[key] == Key(text(m[id].payload), m[id].expiresAt))
  }

  ghost predicate MarksAre<T>(keys: map<string, Key>, clock: nat, prefix: string, kind: Kind, text: T -> string, m: Marks<T>) {
    forall id :: MarkIs(keys, clock, ResultKey(prefix, kind, id), text, m, id)
  }

  lemma MarksLater<T>(keys: map<string, Key>, clock: nat, later: nat, prefix: string, kind: Kind, text: T -> string, m: Marks<T>)
    requires MarksAre(keys, clock, prefix, kind, text, m) && clock <= later
    ensures MarksAre(keys, later, prefix, kind, text, m)
  {
    forall id ensures MarkIs(keys, later, ResultKey(prefix, kind, id), text, m, id) {
      assert MarkIs(keys, clock, ResultKey(prefix, kind, id), text, m, id);
    }
  }

  lemma MarkWritten<T>(keys: map<string, Key>, clock: nat, prefix: string, kind: Kind, text: T -> string, m: Marks<T>,
                       id: string, mark: Mark<T>)
    requires MarksAre(keys, clock, prefix, kind, text, m)
    ensures MarksAre(keys[ResultKey(prefix, kind, id) := Key(text(mark.payload), mark.expiresAt)], clock, prefix, kind, text,
                     Pruned(m, clock)[id := mark])
  {
    var keys2, m2 := keys[ResultKey(prefix, kind, id) := Key(text(mark.payload), mark.expiresAt)], Pruned(m, clock)[id := mark];
    forall i ensures MarkIs(keys2, clock, ResultKey(prefix, kind, i), text, m2, i) {
      ResultKeysApart(prefix, kind, i, id);
      assert MarkIs(keys, clock, ResultKey(prefix, kind, i), text, m, i);
    }
  }

  lemma MarksPruned<T>(keys: map<string, Key>, clock: nat, prefix: string, kind: Kind, text: T -> string, m: Marks<T>)
    requires MarksAre(keys, clock, prefix, kind, text, m)
    ensures MarksAre(keys, clock, prefix, kind, text, Pruned(m, clock))
  {
    forall i ensures MarkIs(keys, clock, ResultKey(prefix, kind, i), text, Pruned(m, clock), i) {
      assert MarkIs(keys, clock, ResultKey(prefix, kind, i), text, m, i);
    }
  }

  // Redis finds what the forgetting store finds.
  lemma FoundAlike<T>(keys: map<string, Key>, prefix: string, kind: Kind, text: T -> string, m: Marks<T>, c: Call<T>)
    requires MarksAre(keys, c.clock, prefix, kind, text, m)
    ensures var found := Found(Pruned(m, c.clock), c);
            Current(keys, c.clock, ResultKey(prefix, kind, c.id), LegacyKey(prefix, kind, c.legacy))
              == if found.Some? then Some(text(found.value.payload)) else None
  {
    assert MarkIs(keys, c.clock, ResultKey(prefix, kind, c.id), text, m, c.id);
    if c.legacy.Some? { assert MarkIs(keys, c.clock, ResultKey(prefix, kind, c.legacy.value), text, m, c.legacy.value); }
  }

  /** RedisX424Store's result acceptances and result replays, as fields its commands change. */
  class RedisResultStore {
    const prefix: string
    const less: Order
    ghost const num: Reader
    var keys: map<string, Key>
    var clock: nat
    ghost var accepted: Marks<Operation>
    ghost var consumed: Marks<()>

    ghost predicate Valid()
      reads this
    {
      && Lawful(num) && StrictTotal(less)
      && MarksAre(keys, clock, prefix, AcceptanceOf, (o: Operation) => OperationText(less, o), accepted)
      && MarksAre(keys, clock, prefix, Result, (u: ()) => "1", consumed)
    }

    constructor (prefix: string, less: Order, ghost num: Reader)
      requires Lawful(num) && StrictTotal(less)
      ensures Valid() && accepted == map[] && consumed == map[] && clock == 0
    {
      this.prefix, this.less, this.num := prefix, less, num;
      keys, clock, accepted, consumed := map[], 0, map[], map[];
    }

    method Advance(ms: nat)
      requires Valid()
      modifies this`clock
      ensures Valid() && clock == old(clock) + ms
    {
      MarksLater(keys, clock, clock + ms, prefix, AcceptanceOf, (o: Operation) => OperationText(less, o), accepted);
      MarksLater(keys, clock, clock + ms, prefix, Result, (u: ()) => "1", consumed);
      clock := clock + ms;
    }

    method AcceptResult(input: Acceptance, legacyId: Option<string>, now: nat) returns (status: Status)
      requires Valid()
      modifies this`keys, this`accepted
      ensures Valid()
      ensures (accepted, status) == EnterPruning(old(accepted), AcceptCall(input, legacyId, now, clock))
    {
      if !AcceptanceFit(input, legacyId) || input.expiresAt.value <= now { return Replayed; }
      var key := ResultKey(prefix, AcceptanceOf, input.resultId);
      var legacyKey := LegacyKey(prefix, AcceptanceOf, legacyId);
      var reply := AcceptScript(keys, clock, key, legacyKey, OperationText(less, input.operation), input.expiresAt.value);
      AcceptFollows(keys, clock, prefix, num, less, accepted, consumed, input, legacyId, now);
      accepted := EnterPruning(accepted, AcceptCall(input, legacyId, now, clock)).0;
      keys, status := reply.0, StatusOfReply(reply.1);
    }

    method ConsumeResult(resultId: string, legacyId: Option<string>, expiresAt: Option<nat>, now: nat) returns (ok: bool)
      requires Valid()
      modifies this`keys, this`consumed
      ensures Valid()
      ensures var (m, status) := EnterPruning(old(consumed), RedisConsumeCall(resultId, legacyId, expiresAt, now, clock));
              consumed == m && ok == (status == Fresh)
    {
      if expiresAt.None? || expiresAt.value <= now || resultId == "" || (legacyId.Some? && (legacyId.value == "" || |legacyId.value| > 200)) {
        return false;
      }
      var key := ResultKey(prefix, Result, resultId);
      var legacyKey := LegacyKey(prefix, Result, legacyId);
      var reply := ConsumeScript(keys, clock, key, legacyKey, expiresAt.value);
      ConsumeFollows(keys, clock, prefix, less, accepted, consumed, resultId, legacyId, expiresAt.value, now);
      consumed := EnterPruning(consumed, RedisConsumeCall(resultId, legacyId, expiresAt, now, clock)).0;
      keys, ok := reply.0, reply.1;
    }
  }

  // A write under one kind of key leaves the other kind alone.
  lemma OtherKind<T>(keys: map<string, Key>, clock: nat, prefix: string, kind: Kind, text: T -> string, m: Marks<T>,
                     other: Kind, id: string, k: Key)
    requires MarksAre(keys, clock, prefix, kind, text, m) && kind != other
    ensures MarksAre(keys[ResultKey(prefix, other, id) := k], clock, prefix, kind, text, m)
  {
    forall i ensures MarkIs(keys[ResultKey(prefix, other, id) := k], clock, ResultKey(prefix, kind, i), text, m, i) {
      assert MarkIs(keys, clock, ResultKey(prefix, kind, i), text, m, i);
      var n := |prefix| + 1;
      assert ResultKey(prefix, kind, i)[n] == (if kind == Result then 'r' else 'a');
      assert ResultKey(prefix, other, id)[n] == (if other == Result then 'r' else 'a');
    }
  }

  lemma AcceptFollows(keys: map<string, Key>, clock: nat, prefix: string, num: Reader, less: Order, accepted: Marks<Operation>,
                      consumed: Marks<()>, input: Acceptance, legacyId: Option<string>, now: nat)
    requires Lawful(num) && StrictTotal(less) && Passes(AcceptCall(input, legacyId, now, clock))
    requires MarksAre(keys, clock, prefix, AcceptanceOf, (o: Operation) => OperationText(less, o), accepted)
    requires MarksAre(keys, clock, prefix, Result, (u: ()) => "1", consumed)
    ensures var legacyKey := LegacyKey(prefix, AcceptanceOf, legacyId);
            var (keys2, n) := AcceptScript(keys, clock, ResultKey(prefix, AcceptanceOf, input.resultId), legacyKey,
                                           OperationText(less, input.operation), input.expiresAt.value);
            var (m2, status) := EnterPruning(accepted, AcceptCall(input, legacyId, now, clock));
            && StatusOfReply(n) == status
            && MarksAre(keys2, clock, prefix, AcceptanceOf, (o: Operation) => OperationText(less, o), m2)
            && MarksAre(keys2, clock, prefix, Result, (u: ()) => "1", consumed)
  {
    var text := (o: Operation) => OperationText(less, o);
    var c := AcceptCall(input, legacyId, now, clock);
    FoundAlike(keys, prefix, AcceptanceOf, text, accepted, c);
    MarksPruned(keys, clock, prefix, AcceptanceOf, text, accepted);
    var found := Found(Pruned(accepted, clock), c);
    if found.Some? { OperationTextInjective(num, less, found.value.payload, input.operation); }
    else {
      MarkWritten(keys, clock, prefix, AcceptanceOf, text, accepted, input.resultId, Mark(input.operation, input.expiresAt.value));
      OtherKind(keys, clock, prefix, Result, (u: ()) => "1", consumed, AcceptanceOf, input.resultId,
                Key(OperationText(less, input.operation), input.expiresAt.value));
    }
  }

  lemma ConsumeFollows(keys: map<string, Key>, clock: nat, prefix: string, less: Order, accepted: Marks<Operation>,
                       consumed: Marks<()>, resultId: string, legacyId: Option<string>, expiresAt: nat, now: nat)
    requires Passes(RedisConsumeCall(resultId, legacyId, Some(expiresAt), now, clock))
    requires MarksAre(keys, clock, prefix, AcceptanceOf, (o: Operation) => OperationText(less, o), accepted)
    requires MarksAre(keys, clock, prefix, Result, (u: ()) => "1", consumed)
    ensures var legacyKey := LegacyKey(prefix, Result, legacyId);
            var (keys2, ok) := ConsumeScript(keys, clock, ResultKey(prefix, Result, resultId), legacyKey, expiresAt);
            var (m2, status) := EnterPruning(consumed, RedisConsumeCall(resultId, legacyId, Some(expiresAt), now, clock));
            && ok == (status == Fresh)
            && MarksAre(keys2, clock, prefix, Result, (u: ()) => "1", m2)
            && MarksAre(keys2, clock, prefix, AcceptanceOf, (o: Operation) => OperationText(less, o), accepted)
  {
    var text := (u: ()) => "1";
    var c := RedisConsumeCall(resultId, legacyId, Some(expiresAt), now, clock);
    FoundAlike(keys, prefix, Result, text, consumed, c);
    MarksPruned(keys, clock, prefix, Result, text, consumed);
    if Found(Pruned(consumed, clock), c).None? {
      MarkWritten(keys, clock, prefix, Result, text, consumed, resultId, Mark((), expiresAt));
      OtherKind(keys, clock, prefix, AcceptanceOf, (o: Operation) => OperationText(less, o), accepted, Result, resultId, Key("1", expiresAt));
    }
  }
}
