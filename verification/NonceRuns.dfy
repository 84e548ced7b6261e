/**
 * When a nonce store (src/nonce-store.ts, src/redis.ts) answers true, told from the calls made so
 * far and not from its state: for the in-memory store, which remembers used nonces, and for the
 * durable ones, which delete a nonce when it is consumed or lapses.
 */
module NonceRuns {
  import opened MemoryStores

  // The state after the first n calls.
  function After(m: map<string, Nonce>, calls: seq<NonceCall>, durable: bool, n: nat): map<string, Nonce>
    requires n <= |calls|
  {
    if n == 0 then m else Serve(After(m, calls, durable, n - 1), calls[n-1], durable).0
  }

  lemma {:induction false} AfterFirst(m: map<string, Nonce>, calls: seq<NonceCall>, durable: bool, n: nat)
    requires 0 < n <= |calls|
    ensures After(m, calls, durable, n) == After(Serve(m, calls[0], durable).0, calls[1..], durable, n - 1)
  {
    if n > 1 { AfterFirst(m, calls, durable, n - 1); }
  }

  lemma {:induction false} AnswerAt(m: map<string, Nonce>, calls: seq<NonceCall>, durable: bool, j: nat)
    requires j < |calls|
    ensures NonceAnswers(m, calls, durable)[j] == Serve(After(m, calls, durable, j), calls[j], durable).1
    decreases |calls|
  {
    if j > 0 {
      AnswerAt(Serve(m, calls[0], durable).0, calls[1..], durable, j - 1);
      AfterFirst(m, calls, durable, j);
    }
  }

  predicate Answered(calls: seq<NonceCall>, durable: bool, k: int)
    requires 0 <= k < |calls|
  {
    NonceAnswers(map[], calls, durable)[k]
  }

  // Call k takes the ID's nonce away: a successful consumption, or the end of its key where keys end.
  predicate Takes(calls: seq<NonceCall>, durable: bool, k: int, id: string)
    requires 0 <= k < |calls|
  {
    calls[k].id == id && ((calls[k].Consume? && Answered(calls, durable, k)) || (durable && calls[k].Lapse?))
  }

  // Call i registered the ID, and nothing has taken its nonce before call j.
  predicate Holds(calls: seq<NonceCall>, durable: bool, i: int, j: int, id: string) {
    && 0 <= i < j <= |calls| && calls[i].Put? && calls[i].id == id && calls[i].expiresAt.Some? && Answered(calls, durable, i)
    && forall k :: i < k < j ==> !Takes(calls, durable, k, id)
  }

  lemma {:induction false} HeldEntry(calls: seq<NonceCall>, durable: bool, i: nat, j: nat, id: string)
    requires Holds(calls, durable, i, j, id)
    ensures var m := After(map[], calls, durable, j);
            id in m && m[id] == Nonce(calls[i].nonce, calls[i].expiresAt.value, false)
    decreases j
  {
    AnswerAt(map[], calls, durable, j - 1);
    if i < j - 1 {
      HeldEntry(calls, durable, i, j - 1, id);
      assert !Takes(calls, durable, j - 1, id);
    }
  }

  lemma {:induction false} EntryIsHeld(calls: seq<NonceCall>, durable: bool, j: nat, id: string) returns (i: nat)
    requires j <= |calls| && id in After(map[], calls, durable, j) && !After(map[], calls, durable, j)[id].used
    ensures Holds(calls, durable, i, j, id)
    decreases j
  {
    AnswerAt(map[], calls, durable, j - 1);
    var before := After(map[], calls, durable, j - 1);
    if id in before && before[id] == After(map[], calls, durable, j)[id] {
      i := EntryIsHeld(calls, durable, j - 1, id);
      assert !Takes(calls, durable, j - 1, id);
    } else {
      i := j - 1;
    }
  }

  /** A nonce is consumed exactly when this very nonce was registered, nothing has taken it since, and its time is not over. */
  lemma ConsumedExactly(calls: seq<NonceCall>, durable: bool, j: nat)
    requires j < |calls| && calls[j].Consume?
    ensures NonceAnswers(map[], calls, durable)[j] <==>
              exists i :: Holds(calls, durable, i, j, calls[j].id) && calls[i].nonce == calls[j].nonce && calls[j].now < calls[i].expiresAt.value
  {
    var id := calls[j].id;
    AnswerAt(map[], calls, durable, j);
    if NonceAnswers(map[], calls, durable)[j] {
      var i := EntryIsHeld(calls, durable, j, id);
      HeldEntry(calls, durable, i, j, id);
    }
    if i :| Holds(calls, durable, i, j, id) && calls[i].nonce == calls[j].nonce && calls[j].now < calls[i].expiresAt.value {
      HeldEntry(calls, durable, i, j, id);
    }
  }

  // Without durable keys an entry stays for good.
  lemma {:induction false} EntryStays(calls: seq<NonceCall>, n: nat, id: string) returns (i: nat)
    requires n <= |calls| && id in After(map[], calls, false, n)
    ensures i < n && calls[i].Put? && calls[i].id == id && Answered(calls, false, i)
    decreases n
  {
    AnswerAt(map[], calls, false, n - 1);
    if id in After(map[], calls, false, n - 1) { i := EntryStays(calls, n - 1, id); } else { i := n - 1; }
  }

  lemma {:induction false} PutStays(calls: seq<NonceCall>, i: nat, n: nat)
    requires i < n <= |calls| && calls[i].Put? && Answered(calls, false, i)
    ensures calls[i].id in After(map[], calls, false, n)
    decreases n
  {
    AnswerAt(map[], calls, false, n - 1);
    if i < n - 1 { PutStays(calls, i, n - 1); }
  }

  lemma {:induction false} DurableIsUnused(calls: seq<NonceCall>, n: nat, id: string)
    requires n <= |calls| && id in After(map[], calls, true, n)
    ensures !After(map[], calls, true, n)[id].used
    decreases n
  {
    if n > 0 && id in After(map[], calls, true, n - 1) { DurableIsUnused(calls, n - 1, id); }
  }

  /**
   * A registration succeeds exactly when it is complete and its ID is free: never registered
   * before in memory, and registered by nothing that still holds in a durable store.
   */
  lemma RegisteredExactly(calls: seq<NonceCall>, durable: bool, j: nat)
    requires j < |calls| && calls[j].Put?
    ensures NonceAnswers(map[], calls, durable)[j] <==>
              && calls[j].id != "" && calls[j].nonce != "" && calls[j].expiresAt.Some?
              && !(exists i :: 0 <= i < j && calls[i].Put? && calls[i].id == calls[j].id && Answered(calls, durable, i)
                               && (durable ==> Holds(calls, true, i, j, calls[j].id)))
  {
    var id := calls[j].id;
    AnswerAt(map[], calls, durable, j);
    if id in After(map[], calls, durable, j) {
      if durable {
        DurableIsUnused(calls, j, id);
        var i := EntryIsHeld(calls, true, j, id);
      } else {
        var i := EntryStays(calls, j, id);
      }
    }
    if i :| 0 <= i < j && calls[i].Put? && calls[i].id == id && Answered(calls, durable, i) && (durable ==> Holds(calls, true, i, j, id)) {
      if durable { HeldEntry(calls, true, i, j, id); } else { PutStays(calls, i, j); }
    }
  }
}
