/**
 * The in-memory nonce, result replay, result acceptance and provider replay stores
 * (src/nonce-store.ts). A timestamp that does not parse is None.
 */
module MemoryStores {
  import opened Basics
  import opened SingleUse
  import opened Framing

  // ---------------------------------------------------------------- nonces

  datatype Nonce = Nonce(nonce: string, expiresAt: int, used: bool)

  datatype NonceCall =
    | Put(id: string, nonce: string, expiresAt: Option<int>)
    | Consume(id: string, nonce: string, now: int)
    | Lapse(id: string)

  // Lapse is the end of a key's time to live, which the in-memory store does not have. The answer to a put is whether it did not throw.
  function ServeNonce(m: map<string, Nonce>, c: NonceCall): (map<string, Nonce>, bool) {
    match c
    case Put(id, nonce, expiresAt) =>
      if id == "" || nonce == "" || expiresAt.None? || id in m then (m, false)
      else (m[id := Nonce(nonce, expiresAt.value, false)], true)
    case Consume(id, nonce, now) =>
      if id !in m || m[id].used || m[id].nonce != nonce || m[id].expiresAt <= now then (m, false)
      else (m[id := m[id].(used := true)], true)
    case Lapse(_) => (m, false)
  }

  // Redis and PostgreSQL delete a nonce when it is consumed; Redis also drops it when it expires.
  function ServeDurableNonce(m: map<string, Nonce>, c: NonceCall): (map<string, Nonce>, bool) {
    match c
    case Put(_, _, _) => ServeNonce(m, c)
    case Consume(id, _, _) => if ServeNonce(m, c).1 then (m - {id}, true) else (m, false)
    case Lapse(id) => (m - {id}, false)
  }

  function Serve(m: map<string, Nonce>, c: NonceCall, durable: bool): (map<string, Nonce>, bool) {
    if durable then ServeDurableNonce(m, c) else ServeNonce(m, c)
  }

  function NonceAnswers(m: map<string, Nonce>, calls: seq<NonceCall>, durable: bool): (r: seq<bool>)
    ensures |r| == |calls|
    decreases |calls|
  {
    if calls == [] then []
    else
      var (m2, a) := Serve(m, calls[0], durable);
      [a] + NonceAnswers(m2, calls[1..], durable)
  }

  lemma {:induction false} UsedForGood(m: map<string, Nonce>, calls: seq<NonceCall>, id: string, j: nat)
    requires id in m && m[id].used && j < |calls| && calls[j].id == id
    ensures !NonceAnswers(m, calls, false)[j]
    decreases |calls|
  {
    if j > 0 { UsedForGood(ServeNonce(m, calls[0]).0, calls[1..], id, j - 1); }
  }

  /** One dependency ID gives at most one successful consumption, and can never be registered again. */
  lemma {:induction false} NonceOnce(m: map<string, Nonce>, calls: seq<NonceCall>, i: nat, j: nat)
    requires i < j < |calls| && calls[i].Consume? && NonceAnswers(m, calls, false)[i] && calls[j].id == calls[i].id
    ensures !NonceAnswers(m, calls, false)[j]
    decreases |calls|
  {
    var m2 := ServeNonce(m, calls[0]).0;
    if i > 0 { NonceOnce(m2, calls[1..], i - 1, j - 1); } else { UsedForGood(m2, calls[1..], calls[0].id, j - 1); }
  }

  lemma {:induction false} Reregistered(m: map<string, Nonce>, calls: seq<NonceCall>, id: string, j: nat) returns (k: nat)
    requires id !in m && j < |calls| && calls[j].Consume? && calls[j].id == id && NonceAnswers(m, calls, true)[j]
    ensures k < j && calls[k].Put? && calls[k].id == id && NonceAnswers(m, calls, true)[k]
    decreases |calls|
  {
    var (m2, a) := ServeDurableNonce(m, calls[0]);
    if calls[0].Put? && calls[0].id == id && a { k := 0; }
    else {
      var k' := Reregistered(m2, calls[1..], id, j - 1);
      k := k' + 1;
    }
  }

  /** Where consuming deletes, a second success needs the ID to have been registered again in between. */
  lemma {:induction false} DurableNonceOnce(m: map<string, Nonce>, calls: seq<NonceCall>, i: nat, j: nat) returns (k: nat)
    requires i < j < |calls| && calls[i].Consume? && calls[j].Consume? && calls[i].id == calls[j].id
    requires NonceAnswers(m, calls, true)[i] && NonceAnswers(m, calls, true)[j]
    ensures i < k < j && calls[k].Put? && calls[k].id == calls[i].id && NonceAnswers(m, calls, true)[k]
    decreases |calls|
  {
    var m2 := ServeDurableNonce(m, calls[0]).0;
    if i > 0 { k := DurableNonceOnce(m2, calls[1..], i - 1, j - 1); } else { k := Reregistered(m2, calls[1..], calls[0].id, j - 1); }
    k := k + 1;
  }

  class InMemoryNonceStore {
    var entries: map<string, Nonce>

    constructor ()
      ensures entries == map[]
    {
      entries := map[];
    }

    method Put(dependencyId: string, nonce: string, expiresAt: Option<int>) returns (ok: bool)
      modifies this
      ensures (entries, ok) == ServeNonce(old(entries), NonceCall.Put(dependencyId, nonce, expiresAt))
    {
      if dependencyId == "" || nonce == "" || expiresAt.None? { return false; }
      if dependencyId in entries { return false; }
      entries := entries[dependencyId := Nonce(nonce, expiresAt.value, false)];
      ok := true;
    }

    method Consume(dependencyId: string, nonce: string, now: int) returns (ok: bool)
      modifies this
      ensures (entries, ok) == ServeNonce(old(entries), NonceCall.Consume(dependencyId, nonce, now))
    {
      if dependencyId !in entries { return false; }
      var entry := entries[dependencyId];
      if entry.used || entry.nonce != nonce || entry.expiresAt <= now { return false; }
      entries := entries[dependencyId := entry.(used := true)];
      ok := true;
    }
  }

  // ---------------------------------------------------------------- results

  /** The operation that a result was accepted for. */
  datatype Operation = Operation(operationId: string, requestDigest: string)

  datatype Acceptance = Acceptance(resultId: string, operation: Operation, expiresAt: Option<nat>)

  const SHA256 := "sha256:"

  // sha256: and 43 base64url characters.
  predicate DigestShaped(d: string) {
    |d| == |SHA256| + 43 && SHA256 <= d && forall i :: |SHA256| <= i < |d| ==> Base64UrlChar(d[i])
  }

  predicate AcceptanceFit(a: Acceptance, legacyId: Option<string>) {
    && 0 < |a.resultId| <= 200 && (legacyId.Some? ==> 0 < |legacyId.value| <= 200)
    && 0 < |a.operation.operationId| <= 512 && DigestShaped(a.operation.requestDigest) && a.expiresAt.Some?
  }

  function AcceptCall(a: Acceptance, legacyId: Option<string>, now: nat, clock: nat): Call<Operation> {
    Call(AcceptanceFit(a, legacyId), a.resultId, legacyId, a.operation, if a.expiresAt.Some? then a.expiresAt.value else 0, now, clock)
  }

  // A replay store keeps no payload, so a result found again is simply not fresh.
  function ConsumeCall(resultId: string, legacyId: Option<string>, expiresAt: Option<nat>, now: nat, clock: nat): Call<()> {
    Call(resultId != "" && legacyId != Some("") && expiresAt.Some?, resultId, legacyId, (),
         if expiresAt.Some? then expiresAt.value else 0, now, clock)
  }

  /** The acceptance stores take exactly these arguments; all others are answered as replays. */
  lemma AcceptTakes(a: Acceptance, legacyId: Option<string>, now: nat, clock: nat)
    ensures Passes(AcceptCall(a, legacyId, now, clock)) <==>
              && 1 <= |a.resultId| <= 200 && (legacyId.None? || 1 <= |legacyId.value| <= 200)
              && 1 <= |a.operation.operationId| <= 512
              && (exists code :: |code| == 43 && a.operation.requestDigest == "sha256:" + code && forall c :: c in code ==> Base64UrlChar(c))
              && a.expiresAt.Some? && now < a.expiresAt.value
  {
    var d := a.operation.requestDigest;
    if DigestShaped(d) {
      var code := d[|SHA256|..];
      assert d == "sha256:" + code;
      forall c | c in code ensures Base64UrlChar(c) {
        var i :| 0 <= i < |code| && code[i] == c;
        assert d[|SHA256| + i] == c;
      }
    }
  }

  class InMemoryResultAcceptanceStore {
    var accepted: map<string, Mark<Operation>>

    constructor ()
      ensures accepted == map[]
    {
      accepted := map[];
    }

    method Prune(now: nat)
      modifies this
      ensures accepted == Pruned(old(accepted), now)
    {
      var todo := accepted.Keys;
      while todo != {}
        invariant todo <= old(accepted).Keys
        invariant accepted.Keys <= old(accepted).Keys
        invariant forall id :: id in old(accepted) ==> (id in accepted <==> id in todo || old(accepted)[id].expiresAt > now)
        invariant forall id :: id in accepted ==> accepted[id] == old(accepted)[id]
        decreases |todo|
      {
        var id :| id in todo;
        if accepted[id].expiresAt <= now { accepted := accepted - {id}; }
        todo := todo - {id};
      }
    }

    method Accept(input: Acceptance, now: nat) returns (status: Status)
      modifies this
      ensures (accepted, status) == EnterPruning(old(accepted), AcceptCall(input, None, now, now))
    {
      if |input.resultId| == 0 || |input.resultId| > 200
         || |input.operation.operationId| == 0 || |input.operation.operationId| > 512
         || !DigestShaped(input.operation.requestDigest) || input.expiresAt.None? || input.expiresAt.value <= now {
        return Replayed;
      }
      Prune(now);
      if input.resultId in accepted {
        return if accepted[input.resultId].payload == input.operation then SameOperation else Replayed;
      }
      accepted := accepted[input.resultId := Mark(input.operation, input.expiresAt.value)];
      status := Fresh;
    }

    method AcceptWithLegacy(input: Acceptance, legacyId: string, now: nat) returns (status: Status)
      modifies this
      ensures (accepted, status) == EnterPruning(old(accepted), AcceptCall(input, Some(legacyId), now, now))
    {
      if |input.resultId| == 0 || |input.resultId| > 200 || |legacyId| == 0 || |legacyId| > 200
         || |input.operation.operationId| == 0 || |input.operation.operationId| > 512
         || !DigestShaped(input.operation.requestDigest) || input.expiresAt.None? || input.expiresAt.value <= now {
        return Replayed;
      }
      Prune(now);
      if legacyId in accepted || input.resultId in accepted {
        var existing := if legacyId in accepted then accepted[legacyId] else accepted[input.resultId];
        return if existing.payload == input.operation then SameOperation else Replayed;
      }
      accepted := accepted[input.resultId := Mark(input.operation, input.expiresAt.value)];
      status := Fresh;
    }
  }

  class InMemoryResultReplayStore {
    var used: map<string, nat>

    function Marked(): Marks<()>
      reads this
    {
      map id | id in used :: Mark((), used[id])
    }

    constructor ()
      ensures Marked() == map[]
    {
      used := map[];
    }

    method Prune(now: nat)
      modifies this
      ensures Marked() == Pruned(old(Marked()), now)
    {
      var todo := used.Keys;
      while todo != {}
        invariant todo <= old(used).Keys
        invariant used.Keys <= old(used).Keys
        invariant forall id :: id in old(used) ==> (id in used <==> id in todo || old(used)[id] > now)
        invariant forall id :: id in used ==> used[id] == old(used)[id]
        decreases |todo|
      {
        var id :| id in todo;
        if used[id] <= now { used := used - {id}; }
        todo := todo - {id};
      }
    }

    method Consume(resultId: string, expiresAt: Option<nat>, now: nat) returns (ok: bool)
      modifies this
      ensures var (m, status) := EnterPruning(old(Marked()), ConsumeCall(resultId, None, expiresAt, now, now));
              Marked() == m && ok == (status == Fresh)
    {
      if resultId == "" || expiresAt.None? || expiresAt.value <= now { return false; }
      Prune(now);
      if resultId in used { return false; }
      used := used[resultId := expiresAt.value];
      ok := true;
    }

    method ConsumeWithLegacy(resultId: string, legacyId: string, expiresAt: Option<nat>, now: nat) returns (ok: bool)
      modifies this
      ensures var (m, status) := EnterPruning(old(Marked()), ConsumeCall(resultId, Some(legacyId), expiresAt, now, now));
              Marked() == m && ok == (status == Fresh)
    {
      if resultId == "" || legacyId == "" || expiresAt.None? || expiresAt.value <= now { return false; }
      Prune(now);
      if legacyId in used || resultId in used { return false; }
      used := used[resultId := expiresAt.value];
      ok := true;
    }
  }

  // ---------------------------------------------------------------- provider subjects

  predicate NamesSubject(e: ProviderEntry) {
    e.providerId != "" && e.methodId != "" && e.scopeId != "" && e.subjectDigest != ""
  }

  class InMemoryProviderReplayStore {
    var used: set<string>

    constructor ()
      ensures used == {}
    {
      used := {};
    }

    method Consume(entry: ProviderEntry) returns (ok: bool)
      modifies this
      ensures ok == (NamesSubject(entry) && Joined(entry, '\0') !in old(used))
      ensures used == if ok then old(used) + {Joined(entry, '\0')} else old(used)
    {
      var key := Joined(entry, '\0');
      if entry.providerId == "" || entry.methodId == "" || entry.scopeId == "" || entry.subjectDigest == "" || key in used {
        return false;
      }
      used := used + {key};
      ok := true;
    }
  }

  // Answers of a provider store whose keys are joined with c: NUL in memory, a colon in Redis.
  function SubjectAnswers(used: set<string>, entries: seq<ProviderEntry>, c: char): (r: seq<bool>)
    ensures |r| == |entries|
    decreases |entries|
  {
    if entries == [] then []
    else
      var ok := NamesSubject(entries[0]) && Joined(entries[0], c) !in used;
      [ok] + SubjectAnswers(if ok then used + {Joined(entries[0], c)} else used, entries[1..], c)
  }

  /** A provider subject is accepted exactly the first time it is presented. */
  lemma {:induction false} SubjectOnce(used: set<string>, entries: seq<ProviderEntry>, c: char, j: nat)
    requires (c == ':' || c == '\0') && j < |entries| && forall e :: e in entries ==> Replayable(e)
    ensures SubjectAnswers(used, entries, c)[j] <==> Joined(entries[j], c) !in used && entries[j] !in entries[..j]
    decreases |entries|
  {
    var e, rest, target := entries[0], entries[1..], entries[j];
    assert e in entries && target in entries;
    if j > 0 {
      var now := used + {Joined(e, c)};
      assert SubjectAnswers(used, entries, c)[1..] == SubjectAnswers(now, rest, c) by { FirstSubject(used, entries, c); }
      assert forall x :: x in rest ==> x in entries;
      SubjectOnce(now, rest, c, j - 1);
      assert entries[..j] == [e] + rest[..j-1];
      if Joined(e, c) == Joined(target, c) { JoinedInjective(e, target, c); }
    }
  }

  lemma FirstSubject(used: set<string>, entries: seq<ProviderEntry>, c: char)
    requires entries != [] && Replayable(entries[0])
    ensures SubjectAnswers(used, entries, c)[1..] == SubjectAnswers(used + {Joined(entries[0], c)}, entries[1..], c)
  {
    if Joined(entries[0], c) in used { assert used + {Joined(entries[0], c)} == used; }
  }
}
