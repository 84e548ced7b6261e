/**
 * The in-memory and PostgreSQL handoff stores, each against the same store contract.
 */
module HandoffStores {
  import opened Basics
  import opened HandoffRecords

  // What a read that expires an overdue record leaves behind and answers.
  function ReadResult(s: Store, id: string, digest: string, now: int): (Store, Option<Handoff>) {
    if !Readable(s, id, digest) then (s, None)
    else
      var r := s.records[id];
      if Overdue(r, now) then
        var expired := r.(status := Expired, version := r.version + 1);
        (Store(s.records[id := expired], s.active - {r.dependencyId}), Some(expired))
      else (s, Some(r))
  }

  /** InMemoryHandoffStore (src/handoff.ts). */
  class InMemoryHandoffStore {
    var records: map<string, Handoff>
    var activeDependencies: map<string, string>

    function State(): Store
      reads this
    {
      Store(records, activeDependencies)
    }

    constructor ()
      ensures State() == Store(map[], map[])
    {
      records, activeDependencies := map[], map[];
    }

    method Create(record: Handoff) returns (ok: bool)
      modifies this
      ensures ok == CreateAccepts(old(State()), record)
      ensures State() == if ok then Created(old(State()), record) else old(State())
    {
      if record.handoffId in records || record.dependencyId in activeDependencies { return false; }
      records := records[record.handoffId := record];
      activeDependencies := activeDependencies[record.dependencyId := record.handoffId];
      ok := true;
    }

    method GetAuthorized(handoffId: string, accessTokenDigest: string, now: int) returns (r: Option<Handoff>)
      modifies this
      ensures (State(), r) == ReadResult(old(State()), handoffId, accessTokenDigest, now)
    {
      if handoffId !in records || records[handoffId].accessTokenDigest != accessTokenDigest { return None; }
      var record := records[handoffId];
      if record.expiresAt <= now && !Terminal(record.status) {
        var expired := record.(status := Expired, version := record.version + 1);
        records := records[handoffId := expired];
        activeDependencies := activeDependencies - {record.dependencyId};
        return Some(expired);
      }
      r := Some(record);
    }

    method Update(previous: Handoff, next: Handoff) returns (ok: bool)
      modifies this
      ensures ok == UpdateAccepts(old(State()), previous, next)
      ensures State() == if ok then Updated(old(State()), next) else old(State())
    {
      if previous.handoffId !in records { return false; }
      var current := records[previous.handoffId];
      if current.version != previous.version || current.accessTokenDigest != previous.accessTokenDigest
         || next.version != previous.version + 1 { return false; }
      records := records[next.handoffId := next];
      if Terminal(next.status) { activeDependencies := activeDependencies - {next.dependencyId}; }
      ok := true;
    }
  }

  /** One row of x424_handoffs. */
  datatype Row = Row(dependencyId: string, accessTokenDigest: string, status: Status, active: bool, version: nat, document: Handoff)

  // The columns repeat the document, and the rows marked active are the store's index.
  predicate RowIs(row: Row, s: Store, id: string) {
    && id in s.records && row.document == s.records[id]
    && row.dependencyId == row.document.dependencyId
    && row.accessTokenDigest == row.document.accessTokenDigest
    && row.version == row.document.version && row.status == row.document.status
    && (row.active <==> row.dependencyId in s.active && s.active[row.dependencyId] == id)
  }

  ghost predicate RowsAre(rows: map<string, Row>, s: Store) {
    && rows.Keys == s.records.Keys
    && (forall id :: id in rows ==> RowIs(rows[id], s, id))
    && (forall d :: d in s.active ==> s.active[d] in rows && rows[s.active[d]].dependencyId == d)
  }

  // Another row is active for this dependency: the partial unique index holds one at most.
  predicate Taken(rows: map<string, Row>, d: string, id: string) {
    exists other :: other in rows && other != id && rows[other].active && rows[other].dependencyId == d
  }

  function NewRow(r: Handoff): Row {
    Row(r.dependencyId, r.accessTokenDigest, r.status, true, r.version, r)
  }

  function NextRow(row: Row, r: Handoff): Row {
    row.(status := r.status, active := !Terminal(r.status), version := r.version, document := r)
  }

  lemma RowsConflict(rows: map<string, Row>, s: Store, r: Handoff)
    requires RowsAre(rows, s)
    ensures r.handoffId in rows || Taken(rows, r.dependencyId, r.handoffId) <==> !CreateAccepts(s, r)
  {
    if r.dependencyId in s.active { assert RowIs(rows[s.active[r.dependencyId]], s, s.active[r.dependencyId]); }
    forall id | id in rows && rows[id].active && rows[id].dependencyId == r.dependencyId ensures r.dependencyId in s.active {
      assert RowIs(rows[id], s, id);
    }
  }

  lemma RowsCreated(rows: map<string, Row>, s: Store, r: Handoff)
    requires RowsAre(rows, s) && CreateAccepts(s, r)
    ensures RowsAre(rows[r.handoffId := NewRow(r)], Created(s, r))
  {
    var rows2, t := rows[r.handoffId := NewRow(r)], Created(s, r);
    forall id | id in rows2 ensures RowIs(rows2[id], t, id) {
      if id != r.handoffId { assert RowIs(rows[id], s, id); }
    }
  }

  // The update keeps what the columns repeat, and either finishes a record that no other handoff
  // has followed or keeps an active one active.
  predicate Fits(s: Store, prev: Handoff, next: Handoff)
    requires prev.handoffId in s.records
  {
    var r, d := s.records[prev.handoffId], next.dependencyId;
    && next.handoffId == prev.handoffId && d == r.dependencyId && next.accessTokenDigest == r.accessTokenDigest
    && if Terminal(next.status) then d !in s.active || s.active[d] == prev.handoffId
       else d in s.active && s.active[d] == prev.handoffId
  }

  lemma RowsFit(rows: map<string, Row>, s: Store, prev: Handoff, next: Handoff)
    requires RowsAre(rows, s) && UpdateAccepts(s, prev, next) && Fits(s, prev, next)
    ensures RowsAre(rows[prev.handoffId := NextRow(rows[prev.handoffId], next)], Updated(s, next))
    ensures !Terminal(next.status) ==> !Taken(rows, next.dependencyId, prev.handoffId)
  {
    var id := prev.handoffId;
    var rows2, t := rows[id := NextRow(rows[id], next)], Updated(s, next);
    assert RowIs(rows[id], s, id);
    forall i | i in rows2 ensures RowIs(rows2[i], t, i) { assert RowIs(rows[i], s, i); }
    forall i | i in rows && rows[i].active ensures RowIs(rows[i], s, i) {}
  }

  /** The row update stands for the contract's update if and only if it fits. */
  lemma RowsUpdated(rows: map<string, Row>, s: Store, prev: Handoff, next: Handoff)
    requires RowsAre(rows, s) && UpdateAccepts(s, prev, next)
    ensures RowsAre(rows[prev.handoffId := NextRow(rows[prev.handoffId], next)], Updated(s, next)) <==> Fits(s, prev, next)
  {
    var id := prev.handoffId;
    var rows2, t := rows[id := NextRow(rows[id], next)], Updated(s, next);
    if Fits(s, prev, next) {
      RowsFit(rows, s, prev, next);
    } else {
      assert RowIs(rows[id], s, id);
      if RowIs(rows2[id], t, id) { RowsMisfit(rows, s, prev, next); }
    }
  }

  // The only update that fits its own row and yet no contract: it finishes a record while another is active.
  lemma RowsMisfit(rows: map<string, Row>, s: Store, prev: Handoff, next: Handoff)
    requires RowsAre(rows, s) && UpdateAccepts(s, prev, next) && !Fits(s, prev, next)
    requires RowIs(NextRow(rows[prev.handoffId], next), Updated(s, next), prev.handoffId)
    ensures next.dependencyId in s.active
    ensures var other := s.active[next.dependencyId];
            other in rows && other != prev.handoffId && !RowIs(rows[other], Updated(s, next), other)
  {
    assert RowIs(rows[prev.handoffId], s, prev.handoffId);
    if next.dependencyId in s.active {
      var other := s.active[next.dependencyId];
      assert RowIs(rows[other], s, other);
    }
  }

  /** PostgresHandoffStore (src/postgres/store.ts), with its partial unique index on active rows. */
  class PostgresHandoffStore {
    var rows: map<string, Row>

    constructor ()
      ensures RowsAre(rows, Store(map[], map[]))
    {
      rows := map[];
    }

    method Create(record: Handoff) returns (ok: bool)
      modifies this
      ensures rows == if ok then old(rows)[record.handoffId := NewRow(record)] else old(rows)
      ensures forall s :: RowsAre(old(rows), s) ==>
                ok == CreateAccepts(s, record) && RowsAre(rows, if ok then Created(s, record) else s)
    {
      ok := record.handoffId !in rows && !Taken(rows, record.dependencyId, record.handoffId);
      forall s | RowsAre(rows, s)
        ensures ok == CreateAccepts(s, record) && (ok ==> RowsAre(rows[record.handoffId := NewRow(record)], Created(s, record)))
      {
        RowsConflict(rows, s, record);
        if ok { RowsCreated(rows, s, record); }
      }
      if ok { rows := rows[record.handoffId := NewRow(record)]; }
    }

    method Select(handoffId: string, accessTokenDigest: string) returns (r: Option<Handoff>)
      ensures forall s :: RowsAre(rows, s) ==>
                r == if Readable(s, handoffId, accessTokenDigest) then Some(s.records[handoffId]) else None
    {
      r := if handoffId in rows && rows[handoffId].accessTokenDigest == accessTokenDigest
           then Some(rows[handoffId].document) else None;
      forall s | RowsAre(rows, s)
        ensures r == if Readable(s, handoffId, accessTokenDigest) then Some(s.records[handoffId]) else None
      {
        if handoffId in rows { assert RowIs(rows[handoffId], s, handoffId); }
      }
    }

    // None where the unique index makes the statement fail.
    method Update(previous: Handoff, next: Handoff) returns (ok: Option<bool>)
      modifies this
      ensures var id := previous.handoffId;
              rows == if ok == Some(true) && id in old(rows) then old(rows)[id := NextRow(old(rows)[id], next)] else old(rows)
      ensures forall s :: RowsAre(old(rows), s) ==>
                && (ok == Some(false) <==> !UpdateAccepts(s, previous, next))
                && (UpdateAccepts(s, previous, next) ==>
                      (ok == Some(true) && RowsAre(rows, Updated(s, next)) <==> Fits(s, previous, next)))
    {
      var id := previous.handoffId;
      var matches := next.version == previous.version + 1
        && id in rows && rows[id].accessTokenDigest == previous.accessTokenDigest && rows[id].version == previous.version;
      var clash := matches && !Terminal(next.status) && Taken(rows, rows[id].dependencyId, id);
      ok := if !matches then Some(false) else if clash then None else Some(true);
      ghost var rows2 := if matches then rows[id := NextRow(rows[id], next)] else rows;
      forall s | RowsAre(rows, s)
        ensures (matches <==> UpdateAccepts(s, previous, next))
                && (matches ==> (RowsAre(rows2, Updated(s, next)) <==> Fits(s, previous, next)) && (clash ==> !Fits(s, previous, next)))
      {
        if id in rows { assert RowIs(rows[id], s, id); }
        if matches {
          RowsUpdated(rows, s, previous, next);
          if Fits(s, previous, next) { RowsFit(rows, s, previous, next); }
        }
      }
      if ok == Some(true) { rows := rows[id := NextRow(rows[id], next)]; }
    }
  }

  /**
   * update() never looks at the current status. An instance of what it then breaks: a finished
   * record becomes pending again and nothing indexes it.
   */
  lemma UpdateIgnoresStatus(r: Handoff)
    requires Terminal(r.status)
    ensures var next := r.(status := Pending, version := r.version + 1);
            UpdateAccepts(Store(map[r.handoffId := r], map[]), r, next)
            && !IndexExact(Updated(Store(map[r.handoffId := r], map[]), next))
  {
    UpdateKeepsIndexExactly(Store(map[r.handoffId := r], map[]), r, r.(status := Pending, version := r.version + 1));
  }

  /** And the other: a second finish of an old handoff drops the index entry of the one that follows it. */
  lemma UpdateDropsAnother(r: Handoff, other: Handoff)
    requires Terminal(r.status) && !Terminal(other.status) && r.handoffId != other.handoffId && r.dependencyId == other.dependencyId
    ensures var s := Store(map[r.handoffId := r, other.handoffId := other], map[other.dependencyId := other.handoffId]);
            var next := r.(status := Cancelled, version := r.version + 1);
            IndexExact(s) && UpdateAccepts(s, r, next) && other.dependencyId !in Updated(s, next).active && !IndexExact(Updated(s, next))
  {
    var s := Store(map[r.handoffId := r, other.handoffId := other], map[other.dependencyId := other.handoffId]);
    UpdateKeepsIndexExactly(s, r, r.(status := Cancelled, version := r.version + 1));
  }
}
