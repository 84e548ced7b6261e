/**
 * RedisHandoffStore (src/redis.ts): two Lua scripts over text keys with a time to live, shown to
 * keep the same store contract as the in-memory and PostgreSQL stores.
 */
module RedisHandoffs {
  import opened Basics
  import opened HandoffRecords
  import opened CanonicalJson
  import opened HandoffDocuments

  datatype Key = Key(value: string, expiresAt: int)

  predicate Live(keys: map<string, Key>, k: string, now: int) { k in keys && keys[k].expiresAt > now }

  function RecordKey(prefix: string, handoffId: string): string { prefix + ":handoff:" + handoffId }

  function DependencyKey(prefix: string, dependencyId: string): string { prefix + ":handoff-dependency:" + dependencyId }

  lemma KeysApart(prefix: string, a: string, b: string)
    ensures RecordKey(prefix, a) == RecordKey(prefix, b) <==> a == b
    ensures DependencyKey(prefix, a) == DependencyKey(prefix, b) <==> a == b
    ensures RecordKey(prefix, a) != DependencyKey(prefix, b)
  {
    var n := |prefix|;
    assert RecordKey(prefix, a)[n + 9..] == a && RecordKey(prefix, b)[n + 9..] == b;
    assert DependencyKey(prefix, a)[n + 20..] == a && DependencyKey(prefix, b)[n + 20..] == b;
    assert RecordKey(prefix, a)[n + 8] == ':' && DependencyKey(prefix, b)[n + 8] == '-';
  }

  // ---------------------------------------------------------------- the scripts

  function CreateScript(keys: map<string, Key>, now: int, recordKey: string, dependencyKey: string,
                        value: string, expiresAt: int, id: string): (map<string, Key>, bool) {
    if Live(keys, recordKey, now) || Live(keys, dependencyKey, now) then (keys, false)
    else (keys[recordKey := Key(value, expiresAt)][dependencyKey := Key(id, expiresAt)], true)
  }

  function UpdateScript(keys: map<string, Key>, now: int, recordKey: string, dependencyKey: string,
                        expected: string, value: string, expiresAt: int, terminal: bool, id: string): (map<string, Key>, bool) {
    if !Live(keys, recordKey, now) || keys[recordKey].value != expected then (keys, false)
    else
      var written := keys[recordKey := Key(value, expiresAt)];
      if !terminal then (written[dependencyKey := Key(id, expiresAt)], true)
      else if Live(written, dependencyKey, now) && written[dependencyKey].value == id then (written - {dependencyKey}, true)
      else (written, true)
  }

  // ---------------------------------------------------------------- what the keys stand for

  predicate RecordIs(keys: map<string, Key>, now: int, prefix: string, less: Order, s: Store, id: string) {
    && (id in s.records <==> Live(keys, RecordKey(prefix, id), now))
    && (id in s.records ==>
          var k := keys[RecordKey(prefix, id)];
          k.value == Document(less, s.records[id]) && s.records[id].expiresAt <= k.expiresAt && Storable(s.records[id]))
  }

  // A dependency key names the active record and expires at the same instant.
  predicate DependencyIs(keys: map<string, Key>, now: int, prefix: string, s: Store, d: string) {
    && (d in s.active <==> Live(keys, DependencyKey(prefix, d), now))
    && (d in s.active ==>
          var r := RecordKey(prefix, s.active[d]);
          r in keys && keys[DependencyKey(prefix, d)] == Key(s.active[d], keys[r].expiresAt))
  }

  /** At time `now` the live keys are store s. */
  ghost predicate KeysAre(keys: map<string, Key>, now: int, prefix: string, less: Order, s: Store) {
    && IndexExact(s)
    && (forall id :: RecordIs(keys, now, prefix, less, s, id))
    && (forall d :: DependencyIs(keys, now, prefix, s, d))
  }

  // Records whose key does not outlive time `later`.
  function Expiring(keys: map<string, Key>, later: int, prefix: string, s: Store): set<string> {
    set id | id in s.records && !Live(keys, RecordKey(prefix, id), later)
  }

  lemma TimePasses(keys: map<string, Key>, now: int, later: int, prefix: string, less: Order, s: Store)
    requires KeysAre(keys, now, prefix, less, s) && now <= later
    ensures KeysAre(keys, later, prefix, less, Vanished(s, Expiring(keys, later, prefix, s)))
    ensures forall id :: id in Expiring(keys, later, prefix, s) ==> s.records[id].expiresAt <= later
  {
    var gone := Expiring(keys, later, prefix, s);
    var t := Vanished(s, gone);
    IndexVanished(s, gone);
    forall id ensures RecordIs(keys, later, prefix, less, t, id) && (id in gone ==> s.records[id].expiresAt <= later) {
      assert RecordIs(keys, now, prefix, less, s, id);
    }
    forall d ensures DependencyIs(keys, later, prefix, t, d) {
      assert DependencyIs(keys, now, prefix, s, d);
      if d in s.active { assert RecordIs(keys, now, prefix, less, s, s.active[d]); }
    }
  }

  // A key written with an expiry that has passed is gone at once.
  function Settled(s: Store, id: string, expiresAt: int, now: int): Store {
    if expiresAt > now then s else Vanished(s, {id})
  }

  predicate SameKey(keys: map<string, Key>, keys2: map<string, Key>, k: string) {
    (k in keys <==> k in keys2) && (k in keys ==> keys2[k] == keys[k])
  }

  lemma WrittenRecord(keys: map<string, Key>, keys2: map<string, Key>, now: int, prefix: string, less: Order,
                      s: Store, t: Store, r: Handoff, expiresAt: int, id: string)
    requires RecordIs(keys, now, prefix, less, s, id)
    requires RecordKey(prefix, r.handoffId) in keys2
    requires keys2[RecordKey(prefix, r.handoffId)] == Key(Document(less, r), expiresAt) && r.expiresAt <= expiresAt && Storable(r)
    requires id != r.handoffId ==> SameKey(keys, keys2, RecordKey(prefix, id))
    requires t.records == if expiresAt > now then s.records[r.handoffId := r] else s.records - {r.handoffId}
    ensures RecordIs(keys2, now, prefix, less, t, id)
  {
  }

  function CreatedKeys(keys: map<string, Key>, prefix: string, less: Order, r: Handoff): map<string, Key> {
    keys[RecordKey(prefix, r.handoffId) := Key(Document(less, r), r.expiresAt)]
        [DependencyKey(prefix, r.dependencyId) := Key(r.handoffId, r.expiresAt)]
  }

  lemma CreateScriptAnswers(keys: map<string, Key>, now: int, prefix: string, less: Order, s: Store, r: Handoff)
    requires KeysAre(keys, now, prefix, less, s)
    ensures CreateScript(keys, now, RecordKey(prefix, r.handoffId), DependencyKey(prefix, r.dependencyId),
                         Document(less, r), r.expiresAt, r.handoffId)
            == if CreateAccepts(s, r) then (CreatedKeys(keys, prefix, less, r), true) else (keys, false)
  {
    assert RecordIs(keys, now, prefix, less, s, r.handoffId) && DependencyIs(keys, now, prefix, s, r.dependencyId);
  }

  lemma CreatedIndexExact(s: Store, r: Handoff, now: int)
    requires IndexExact(s) && CreateAccepts(s, r) && !Terminal(r.status)
    ensures IndexExact(Settled(Created(s, r), r.handoffId, r.expiresAt, now))
  {
    var created := Created(s, r);
    assert IndexExact(created);
    IndexVanished(created, {r.handoffId});
  }

  lemma CreateFollows(keys: map<string, Key>, now: int, prefix: string, less: Order, s: Store, r: Handoff)
    requires KeysAre(keys, now, prefix, less, s) && Storable(r) && !Terminal(r.status)
    ensures var (keys2, ok) := CreateScript(keys, now, RecordKey(prefix, r.handoffId), DependencyKey(prefix, r.dependencyId),
                                            Document(less, r), r.expiresAt, r.handoffId);
            && ok == CreateAccepts(s, r)
            && KeysAre(keys2, now, prefix, less, if ok then Settled(Created(s, r), r.handoffId, r.expiresAt, now) else s)
  {
    CreateScriptAnswers(keys, now, prefix, less, s, r);
    if CreateAccepts(s, r) {
      var t := Settled(Created(s, r), r.handoffId, r.expiresAt, now);
      var keys2 := CreatedKeys(keys, prefix, less, r);
      CreatedIndexExact(s, r, now);
      CreatedRecords(keys, keys2, now, prefix, less, s, t, r);
      CreatedIndex(keys, keys2, now, prefix, less, s, t, r);
    }
  }

  lemma CreatedRecords(keys: map<string, Key>, keys2: map<string, Key>, now: int, prefix: string, less: Order, s: Store, t: Store, r: Handoff)
    requires KeysAre(keys, now, prefix, less, s) && Storable(r) && CreateAccepts(s, r)
    requires keys2 == CreatedKeys(keys, prefix, less, r)
    requires t == Settled(Created(s, r), r.handoffId, r.expiresAt, now)
    ensures forall id :: RecordIs(keys2, now, prefix, less, t, id)
  {
    forall id ensures RecordIs(keys2, now, prefix, less, t, id) {
      KeysApart(prefix, id, r.handoffId);
      KeysApart(prefix, id, r.dependencyId);
      KeysApart(prefix, r.handoffId, r.dependencyId);
      assert RecordIs(keys, now, prefix, less, s, id);
      WrittenRecord(keys, keys2, now, prefix, less, s, t, r, r.expiresAt, id);
    }
  }

  lemma CreatedIndex(keys: map<string, Key>, keys2: map<string, Key>, now: int, prefix: string, less: Order, s: Store, t: Store, r: Handoff)
    requires KeysAre(keys, now, prefix, less, s) && Storable(r) && CreateAccepts(s, r)
    requires keys2 == CreatedKeys(keys, prefix, less, r)
    requires t == Settled(Created(s, r), r.handoffId, r.expiresAt, now)
    ensures forall d :: DependencyIs(keys2, now, prefix, t, d)
  {
    forall d ensures DependencyIs(keys2, now, prefix, t, d) {
      KeysApart(prefix, r.handoffId, d);
      KeysApart(prefix, r.handoffId, r.dependencyId);
      KeysApart(prefix, d, r.dependencyId);
      assert DependencyIs(keys, now, prefix, s, d);
      if d in s.active {
        KeysApart(prefix, s.active[d], r.handoffId);
        KeysApart(prefix, s.active[d], r.dependencyId);
      }
    }
  }

  // The keys after an accepted update.
  function UpdatedKeys(keys: map<string, Key>, now: int, prefix: string, less: Order, next: Handoff, expiresAt: int): map<string, Key> {
    var written := keys[RecordKey(prefix, next.handoffId) := Key(Document(less, next), expiresAt)];
    var dependencyKey := DependencyKey(prefix, next.dependencyId);
    if !Terminal(next.status) then written[dependencyKey := Key(next.handoffId, expiresAt)]
    else if Live(written, dependencyKey, now) && written[dependencyKey].value == next.handoffId then written - {dependencyKey}
    else written
  }

  /**
   * The script compares whole records, and leaves keys that stand for the updated store whenever
   * that store has an exact index at all.
   */
  lemma UpdateFollows(keys: map<string, Key>, now: int, prefix: string, num: Reader, less: Order, s: Store,
                      prev: Handoff, next: Handoff, expiresAt: int)
    requires KeysAre(keys, now, prefix, less, s) && ReadsNaturals(num) && StrictTotal(less) && SameIdentity(prev, next)
    requires WholeAccepts(s, prev) ==> KeepsIndex(s, prev, next)
    requires Storable(prev) && Storable(next) && next.expiresAt <= expiresAt
    ensures var (keys2, ok) := UpdateScript(keys, now, RecordKey(prefix, prev.handoffId), DependencyKey(prefix, prev.dependencyId),
                                            Document(less, prev), Document(less, next), expiresAt, Terminal(next.status), prev.handoffId);
            && ok == WholeAccepts(s, prev)
            && KeysAre(keys2, now, prefix, less, if ok then Settled(Updated(s, next), next.handoffId, expiresAt, now) else s)
  {
    var id := prev.handoffId;
    ScriptCompares(keys, now, prefix, num, less, s, prev, next, expiresAt);
    if WholeAccepts(s, prev) {
      var t := Settled(Updated(s, next), id, expiresAt, now);
      UpdatedIndexExact(s, prev, next, expiresAt, now);
      UpdatedRecords(keys, now, prefix, less, s, t, prev, next, expiresAt);
      UpdatedIndex(keys, now, prefix, less, s, t, prev, next, expiresAt);
    }
  }

  lemma ScriptCompares(keys: map<string, Key>, now: int, prefix: string, num: Reader, less: Order, s: Store,
                       prev: Handoff, next: Handoff, expiresAt: int)
    requires KeysAre(keys, now, prefix, less, s) && ReadsNaturals(num) && StrictTotal(less) && SameIdentity(prev, next) && Storable(prev)
    ensures UpdateScript(keys, now, RecordKey(prefix, prev.handoffId), DependencyKey(prefix, prev.dependencyId),
                         Document(less, prev), Document(less, next), expiresAt, Terminal(next.status), prev.handoffId)
            == if WholeAccepts(s, prev) then (UpdatedKeys(keys, now, prefix, less, next, expiresAt), true) else (keys, false)
  {
    assert RecordIs(keys, now, prefix, less, s, prev.handoffId);
    if prev.handoffId in s.records { DocumentInjective(num, less, s.records[prev.handoffId], prev); }
  }

  lemma UpdatedIndexExact(s: Store, prev: Handoff, next: Handoff, expiresAt: int, now: int)
    requires IndexExact(s) && WholeAccepts(s, prev) && SameIdentity(prev, next) && KeepsIndex(s, prev, next)
    ensures IndexExact(Settled(Updated(s, next), next.handoffId, expiresAt, now))
  {
    IndexKept(s, prev, next);
    IndexVanished(Updated(s, next), {next.handoffId});
  }

  lemma UpdatedRecords(keys: map<string, Key>, now: int, prefix: string, less: Order, s: Store, t: Store,
                       prev: Handoff, next: Handoff, expiresAt: int)
    requires KeysAre(keys, now, prefix, less, s) && SameIdentity(prev, next)
    requires WholeAccepts(s, prev) && Storable(next) && next.expiresAt <= expiresAt
    requires t == Settled(Updated(s, next), next.handoffId, expiresAt, now)
    ensures forall id :: RecordIs(UpdatedKeys(keys, now, prefix, less, next, expiresAt), now, prefix, less, t, id)
  {
    var keys2 := UpdatedKeys(keys, now, prefix, less, next, expiresAt);
    forall id ensures RecordIs(keys2, now, prefix, less, t, id) {
      KeysApart(prefix, id, next.handoffId);
      KeysApart(prefix, id, next.dependencyId);
      KeysApart(prefix, next.handoffId, next.dependencyId);
      assert RecordIs(keys, now, prefix, less, s, id);
      WrittenRecord(keys, keys2, now, prefix, less, s, t, next, expiresAt, id);
    }
  }

  lemma UpdatedIndex(keys: map<string, Key>, now: int, prefix: string, less: Order, s: Store, t: Store,
                     prev: Handoff, next: Handoff, expiresAt: int)
    requires KeysAre(keys, now, prefix, less, s) && SameIdentity(prev, next) && KeepsIndex(s, prev, next) && WholeAccepts(s, prev)
    requires t == Settled(Updated(s, next), next.handoffId, expiresAt, now)
    ensures forall d :: DependencyIs(UpdatedKeys(keys, now, prefix, less, next, expiresAt), now, prefix, t, d)
  {
    forall d ensures DependencyIs(UpdatedKeys(keys, now, prefix, less, next, expiresAt), now, prefix, t, d) {
      if d == next.dependencyId { OwnDependency(keys, now, prefix, less, s, t, prev, next, expiresAt); }
      else {
        assert DependencyIs(keys, now, prefix, s, d);
        OtherDependency(keys, now, prefix, less, s, t, next, expiresAt, d);
      }
    }
  }

  lemma OwnDependency(keys: map<string, Key>, now: int, prefix: string, less: Order, s: Store, t: Store,
                      prev: Handoff, next: Handoff, expiresAt: int)
    requires KeysAre(keys, now, prefix, less, s) && SameIdentity(prev, next) && KeepsIndex(s, prev, next) && WholeAccepts(s, prev)
    requires t == Settled(Updated(s, next), next.handoffId, expiresAt, now)
    ensures DependencyIs(UpdatedKeys(keys, now, prefix, less, next, expiresAt), now, prefix, t, next.dependencyId)
  {
    KeysApart(prefix, next.handoffId, next.dependencyId);
    assert DependencyIs(keys, now, prefix, s, next.dependencyId);
  }

  lemma OtherDependency(keys: map<string, Key>, now: int, prefix: string, less: Order, s: Store, t: Store,
                        next: Handoff, expiresAt: int, d: string)
    requires DependencyIs(keys, now, prefix, s, d) && d != next.dependencyId && (d in s.active ==> s.active[d] != next.handoffId)
    requires t == Settled(Updated(s, next), next.handoffId, expiresAt, now)
    ensures DependencyIs(UpdatedKeys(keys, now, prefix, less, next, expiresAt), now, prefix, t, d)
  {
    KeysApart(prefix, next.handoffId, d);
    KeysApart(prefix, d, next.dependencyId);
    if d in s.active {
      KeysApart(prefix, s.active[d], next.handoffId);
      KeysApart(prefix, s.active[d], next.dependencyId);
    }
  }

  /** The store itself, as fields that its two scripts change. */
  class RedisHandoffStore {
    const prefix: string
    const less: Order
    ghost const num: Reader
    var keys: map<string, Key>
    var clock: int
    ghost var state: Store

    ghost predicate Valid()
      reads this
    {
      ReadsNaturals(num) && StrictTotal(less) && KeysAre(keys, clock, prefix, less, state)
    }

    constructor (prefix: string, less: Order, ghost num: Reader)
      requires ReadsNaturals(num) && StrictTotal(less)
      ensures Valid() && state == Store(map[], map[]) && clock == 0
      ensures this.prefix == prefix && this.less == less && this.num == num
    {
      this.prefix, this.less, this.num := prefix, less, num;
      keys, clock, state := map[], 0, Store(map[], map[]);
    }

    // The server's clock moves and keys past their time disappear.
    method Advance(ms: nat)
      requires Valid()
      modifies this`clock, this`state
      ensures Valid() && clock == old(clock) + ms
      ensures state == Vanished(old(state), Expiring(keys, clock, prefix, old(state)))
    {
      var later := clock + ms;
      TimePasses(keys, clock, later, prefix, less, state);
      ghost var left := Vanished(state, Expiring(keys, later, prefix, state));
      clock, state := later, left;
    }

    // `sent` is the caller's clock when the command was sent.
    method Create(record: Handoff, sent: int) returns (ok: bool)
      requires Valid() && Storable(record) && !Terminal(record.status)
      modifies this`keys, this`state
      ensures Valid() && ok == (record.expiresAt > sent && CreateAccepts(old(state), record))
      ensures state == if ok then Settled(Created(old(state), record), record.handoffId, record.expiresAt, clock) else old(state)
    {
      if record.expiresAt <= sent { return false; }
      CreateFollows(keys, clock, prefix, less, state, record);
      var script := CreateScript(keys, clock, RecordKey(prefix, record.handoffId), DependencyKey(prefix, record.dependencyId),
                                 Document(less, record), record.expiresAt, record.handoffId);
      keys, ok := script.0, script.1;
      state := if ok then Settled(Created(state, record), record.handoffId, record.expiresAt, clock) else state;
    }

    method Update(previous: Handoff, next: Handoff, sent: int) returns (ok: bool)
      requires Valid() && Storable(previous) && Storable(next) && SameIdentity(previous, next)
      requires WholeAccepts(state, previous) ==> KeepsIndex(state, previous, next)
      modifies this`keys, this`state
      ensures Valid() && ok == (next.version == previous.version + 1 && WholeAccepts(old(state), previous))
      ensures state == if ok then Settled(Updated(old(state), next), next.handoffId, Max(sent + 1_000, next.expiresAt), clock)
                       else old(state)
    {
      if next.version != previous.version + 1 { return false; }
      var expiresAt := Max(sent + 1_000, next.expiresAt);
      UpdateFollows(keys, clock, prefix, num, less, state, previous, next, expiresAt);
      var script := UpdateScript(keys, clock, RecordKey(prefix, previous.handoffId), DependencyKey(prefix, previous.dependencyId),
                                 Document(less, previous), Document(less, next), expiresAt, Terminal(next.status), previous.handoffId);
      keys, ok := script.0, script.1;
      state := if ok then Settled(Updated(state, next), next.handoffId, expiresAt, clock) else state;
    }
  }
}
