/**
 * The fleet's shared queue: the baseline rows of forecast.retrain and the statements of store_postgres.go on them. Each
 * statement is one atomic step; its meaning is a function on the table, and the class runs it.
 */
module RetrainTable {
  import opened Basics
  import opened Names

  /** `last_status`; the attempt is rendered only when it is not zero. */
  datatype Status = Unrun | Succeeded | Errored(message: string, attempt: nat)

  datatype Row = Row(
    cron: string,
    timezone: string,
    enabled: bool,
    superseded: bool,
    nextRun: Option<int>,
    claimedBy: Option<Name>,
    claimedUntil: Option<int>,
    attempts: nat,
    lastRun: Option<int>,
    lastStatus: Status)

  datatype RowId = RowId(org: int, key: Name)

  type Table = map<RowId, Row>

  datatype RetrainClaim = RetrainClaim(org: int, key: Name, cron: string, timezone: string, attempts: nat)

  const FLEET_ORG := 0

  function FleetRow(key: Name): RowId {
    RowId(FLEET_ORG, key)
  }

  function ClaimOf(id: RowId, r: Row): RetrainClaim {
    RetrainClaim(id.org, id.key, r.cron, r.timezone, r.attempts)
  }

  function NewRow(cron: string, timezone: string, enabled: bool, next: Option<int>): Row {
    Row(cron, timezone, enabled, false, next, None, None, 0, None, Unrun)
  }

  /** INSERT ... ON CONFLICT DO NOTHING. */
  function ScheduleRows(t: Table, keys: set<Name>, cron: string, timezone: string, now: int): Table {
    t + map k | k in keys && FleetRow(k) !in t ::
          FleetRow(k) := NewRow(cron, timezone, true, Some(now))
  }

  /** The WHERE of a claim, apart from the scope and the organisation. */
  predicate Due(r: Row, now: int) {
    && r.enabled
    && r.nextRun.Some? && r.nextRun.value <= now
    && !r.superseded
    && (r.claimedUntil.None? || r.claimedUntil.value < now)
  }

  predicate Claimable(t: Table, id: RowId, now: int) {
    id in t && id.org == FLEET_ORG && Due(t[id], now)
  }

  predicate Earlier(t: Table, a: RowId, b: RowId) {
    a in t && b in t && t[a].nextRun.Some? && t[b].nextRun.Some? && t[a].nextRun.value <= t[b].nextRun.value
  }

  /** A result of ORDER BY next_run_at LIMIT limit FOR UPDATE SKIP LOCKED, ties and locks as they fall. */
  ghost predicate IsBatch(t: Table, now: int, locked: set<RowId>, limit: nat, batch: seq<RowId>) {
    && |batch| <= limit
    && (forall i :: 0 <= i < |batch| ==> Claimable(t, batch[i], now) && batch[i] !in locked)
    && (forall i, j :: 0 <= i < j < |batch| ==> batch[i] != batch[j] && Earlier(t, batch[i], batch[j]))
    && (forall id :: Claimable(t, id, now) && id !in locked && id !in batch ==>
                       |batch| == limit && forall i :: 0 <= i < |batch| ==> Earlier(t, batch[i], id))
  }

  function Ids(batch: seq<RowId>): set<RowId> {
    set id | id in batch
  }

  /** The same rows, each once, in whatever order. */
  ghost predicate IsOrderOf(answer: seq<RowId>, batch: seq<RowId>) {
    && |answer| == |batch| && Ids(answer) == Ids(batch)
    && forall i, j :: 0 <= i < j < |answer| ==> answer[i] != answer[j]
  }

  lemma {:induction false} DistinctIds(batch: seq<RowId>)
    requires forall i, j :: 0 <= i < j < |batch| ==> batch[i] != batch[j]
    ensures |Ids(batch)| == |batch|
  {
    if batch != [] {
      var init := batch[..|batch| - 1];
      DistinctIds(init);
      assert Ids(batch) == Ids(init) + {batch[|batch| - 1]};
    }
  }

  function LeaseRows(t: Table, ids: set<RowId>, owner: Name, until: int): Table {
    map id | id in t ::
      if id in ids then t[id].(claimedBy := Some(owner), claimedUntil := Some(until)) else t[id]
  }

  function ClaimsOf(t: Table, batch: seq<RowId>): seq<RetrainClaim>
    requires forall i :: 0 <= i < |batch| ==> batch[i] in t
  {
    seq(|batch|, i requires 0 <= i < |batch| => ClaimOf(batch[i], t[batch[i]]))
  }

  /** What a claim leaves and answers: only who claims its rows, and until when, is new. */
  lemma LeaseLeaves(t: Table, batch: seq<RowId>, answer: seq<RowId>, owner: Name, until: int)
    requires IsOrderOf(answer, batch) && forall i :: 0 <= i < |batch| ==> batch[i] in t
    ensures forall i :: 0 <= i < |answer| ==> answer[i] in t
    ensures
      var t', claims := LeaseRows(t, Ids(batch), owner, until), ClaimsOf(t, answer);
      && t'.Keys == t.Keys && |claims| == |batch|
      && (forall id :: id in t ==>
            t'[id] == if id in batch then t[id].(claimedBy := Some(owner), claimedUntil := Some(until)) else t[id])
      && (forall i :: 0 <= i < |answer| ==>
            claims[i] == RetrainClaim(answer[i].org, answer[i].key, t[answer[i]].cron, t[answer[i]].timezone,
                                      t[answer[i]].attempts))
  {
    forall i | 0 <= i < |answer|
      ensures answer[i] in t
    {
      assert answer[i] in Ids(answer);
    }
  }

  /** The whole guard of a finish and of an extension: the owner string. */
  predicate OwnedBy(t: Table, id: RowId, owner: Name) {
    id in t && t[id].claimedBy == Some(owner)
  }

  function ExtendRow(t: Table, id: RowId, owner: Name, until: int): Table {
    if OwnedBy(t, id, owner) then t[id := t[id].(claimedUntil := Some(until))] else t
  }

  function FinishedRow(r: Row, next: int, now: int, status: Status, attempts: nat): Row {
    r.(nextRun := Some(next), lastRun := Some(now), lastStatus := status, attempts := attempts,
       claimedBy := None, claimedUntil := None)
  }

  function DoneRow(t: Table, id: RowId, owner: Name, next: int, now: int, status: Status, attempts: nat): Table {
    if OwnedBy(t, id, owner) then t[id := FinishedRow(t[id], next, now, status, attempts)] else t
  }

  /** No row is added or lost, and only the addressed one may differ, and only under its owner. */
  ghost predicate OnlyOwners(t: Table, t': Table, id: RowId, owner: Name) {
    && t'.Keys == t.Keys
    && forall other :: other in t && (other != id || !OwnedBy(t, id, owner)) ==> t'[other] == t[other]
  }

  function RetireRows(t: Table, keys: set<Name>): Table {
    map id | id in t && !(id.org == FLEET_ORG && id.key in keys) :: t[id]
  }

  /** A non-empty set of due rows has one that no other precedes. */
  lemma {:induction false} EarliestExists(t: Table, now: int, ids: set<RowId>) returns (first: RowId)
    requires ids != {} && forall id :: id in ids ==> Claimable(t, id, now)
    ensures first in ids && forall id :: id in ids ==> Earlier(t, first, id)
    decreases |ids|
  {
    first :| first in ids;
    if ids != {first} {
      var rest := ids - {first};
      var best := EarliestExists(t, now, rest);
      assert ids == rest + {first};
      if !Earlier(t, first, best) {
        first := best;
      }
    }
  }

  /** The table behind a connection pool, with the database's clock. */
  class RetrainStore {
    var rows: Table
    var now: int

    constructor ()
      ensures rows == map[]
    {
      rows, now := map[], 0;
    }

    method Schedule(keys: seq<Name>, cron: string, timezone: string, reply: Reply) returns (err: bool)
      modifies this`rows
      ensures rows == if reply.Failed? then old(rows)
                      else ScheduleRows(old(rows), Elements(keys), cron, timezone, now)
      ensures err == (keys != [] && !reply.Acked?)
      ensures forall id :: id in old(rows) ==> id in rows && rows[id] == old(rows)[id]
      ensures forall id :: id in rows && id !in old(rows) ==>
                id.org == 0 && id.key in keys
                && rows[id] == Row(cron, timezone, true, false, Some(now), None, None, 0, None, Unrun)
      ensures !reply.Failed? ==> forall i :: 0 <= i < |keys| ==> RowId(0, keys[i]) in rows
    {
      if |keys| == 0 {
        assert ScheduleRows(rows, Elements(keys), cron, timezone, now) == rows;
        return false;
      }
      if !reply.Failed? {
        assert forall i :: 0 <= i < |keys| ==> keys[i] in Elements(keys) && FleetRow(keys[i]) == RowId(0, keys[i]);
        rows := ScheduleRows(rows, Elements(keys), cron, timezone, now);
      }
      err := !reply.Acked?;
    }

    /** The selection: earliest first, past the rows another statement has locked. */
    static method SelectBatch(t: Table, now: int, locked: set<RowId>, limit: nat) returns (due: seq<RowId>)
      ensures IsBatch(t, now, locked, limit, due)
    {
      due := [];
      var left := set id | id in t && Claimable(t, id, now) && id !in locked;
      while left != {} && |due| < limit
        invariant |due| <= limit
        invariant forall i :: 0 <= i < |due| ==> Claimable(t, due[i], now) && due[i] !in locked && due[i] !in left
        invariant forall i, j :: 0 <= i < j < |due| ==> due[i] != due[j] && Earlier(t, due[i], due[j])
        invariant forall id :: id in left ==> Claimable(t, id, now) && id !in locked
        invariant forall id :: Claimable(t, id, now) && id !in locked ==> id in left || id in due
        invariant forall id, i :: id in left && 0 <= i < |due| ==> Earlier(t, due[i], id)
        decreases left
      {
        ghost var earliest := EarliestExists(t, now, left);
        var first :| first in left && forall id :: id in left ==> Earlier(t, first, id);
        due := due + [first];
        left := left - {first};
      }
    }

    /** Leases a batch and answers with its claims, in no particular order. */
    method Claim(owner: Name, lease: int, limit: nat, locked: set<RowId>, reply: Reply)
      returns (claims: seq<RetrainClaim>, err: bool, ghost batch: seq<RowId>, ghost answer: seq<RowId>)
      modifies this`rows
      ensures IsBatch(old(rows), now, locked, limit, batch) && IsOrderOf(answer, batch)
      ensures rows == if reply.Failed? then old(rows)
                      else LeaseRows(old(rows), Ids(batch), owner, now + lease)
      ensures err == !reply.Acked?
      ensures forall i :: 0 <= i < |answer| ==> answer[i] in old(rows)
      ensures claims == if err then [] else ClaimsOf(old(rows), answer)
    {
      ghost var t := rows;
      var due := SelectBatch(rows, now, locked, limit);
      batch, answer := due, due;
      assert forall i :: 0 <= i < |due| ==> Claimable(t, due[i], now);
      if !reply.Failed? {
        rows := LeaseRows(rows, Ids(due), owner, now + lease);
      }
      claims, err := [], !reply.Acked?;
      if err {
        return;
      }
      claims, answer := Returning(t, due, owner, now + lease);
    }

    /** The order an update comes upon its rows in. */
    static method AnyOrder(due: seq<RowId>) returns (order: seq<RowId>)
      requires forall i, j :: 0 <= i < j < |due| ==> due[i] != due[j]
      ensures IsOrderOf(order, due)
    {
      order := [];
      var left := Ids(due);
      DistinctIds(due);
      while left != {}
        invariant left <= Ids(due) && |order| + |left| == |due|
        invariant Ids(order) == Ids(due) - left
        invariant forall i, j :: 0 <= i < j < |order| ==> order[i] != order[j]
        decreases left
      {
        var id :| id in left;
        assert forall i :: 0 <= i < |order| ==> order[i] in Ids(order);
        assert Ids(order + [id]) == Ids(order) + {id};
        order := order + [id];
        left := left - {id};
      }
    }

    /** The rows an update returns. */
    method Returning(ghost t: Table, due: seq<RowId>, owner: Name, until: int)
      returns (claims: seq<RetrainClaim>, answer: seq<RowId>)
      requires rows == LeaseRows(t, Ids(due), owner, until) && forall i :: 0 <= i < |due| ==> due[i] in t
      requires forall i, j :: 0 <= i < j < |due| ==> due[i] != due[j]
      ensures IsOrderOf(answer, due)
      ensures forall i :: 0 <= i < |answer| ==> answer[i] in t
      ensures claims == ClaimsOf(t, answer)
    {
      claims := [];
      var order := AnyOrder(due);
      answer := order;
      forall i | 0 <= i < |order|
        ensures order[i] in t
      {
        assert order[i] in Ids(order);
      }
      for i := 0 to |order|
        invariant claims == ClaimsOf(t, order[..i])
      {
        claims := claims + [ClaimOf(order[i], rows[order[i]])];
      }
      assert order[..|order|] == order;
    }

    method Extend(owner: Name, org: int, key: Name, lease: int, reply: Reply) returns (ok: bool, err: bool)
      modifies this`rows
      ensures rows == if reply.Failed? then old(rows) else ExtendRow(old(rows), RowId(org, key), owner, now + lease)
      ensures err == !reply.Acked?
      ensures ok <==> reply.Acked? && OwnedBy(old(rows), RowId(org, key), owner)
      ensures OnlyOwners(old(rows), rows, RowId(org, key), owner)
      ensures !reply.Failed? && OwnedBy(old(rows), RowId(org, key), owner) ==>
                rows[RowId(org, key)] == old(rows)[RowId(org, key)].(claimedUntil := Some(now + lease))
    {
      ok, err := reply.Acked? && OwnedBy(rows, RowId(org, key), owner), !reply.Acked?;
      if !reply.Failed? {
        rows := ExtendRow(rows, RowId(org, key), owner, now + lease);
      }
    }

    method Done(owner: Name, org: int, key: Name, next: int, status: Status, attempts: nat, reply: Reply)
      returns (err: bool)
      modifies this`rows
      ensures rows == if reply.Failed? then old(rows)
                      else DoneRow(old(rows), RowId(org, key), owner, next, now, status, attempts)
      ensures err == !reply.Acked?
      ensures OnlyOwners(old(rows), rows, RowId(org, key), owner)
      ensures !reply.Failed? && OwnedBy(old(rows), RowId(org, key), owner) ==>
                var id := RowId(org, key);
                rows[id] == old(rows)[id].(nextRun := Some(next), lastRun := Some(now), lastStatus := status,
                                           attempts := attempts, claimedBy := None, claimedUntil := None)
    {
      if !reply.Failed? {
        rows := DoneRow(rows, RowId(org, key), owner, next, now, status, attempts);
      }
      err := !reply.Acked?;
    }

    method Retire(keys: seq<Name>, reply: Reply) returns (deleted: nat, err: bool)
      modifies this`rows
      ensures rows == if reply.Failed? then old(rows) else RetireRows(old(rows), Elements(keys))
      ensures err == (keys != [] && !reply.Acked?)
      ensures deleted == if err then 0 else |old(rows).Keys - rows.Keys|
      ensures !reply.Failed? ==> forall i :: 0 <= i < |keys| ==> RowId(0, keys[i]) !in rows
      ensures forall id :: id in rows ==> id in old(rows) && rows[id] == old(rows)[id]
      ensures forall id :: id in old(rows) && id !in rows ==> !reply.Failed? && id.org == 0 && id.key in keys
    {
      if |keys| == 0 {
        assert RetireRows(rows, Elements(keys)) == rows;
        assert rows.Keys - rows.Keys == {};
        return 0, false;
      }
      ghost var was := rows;
      deleted, err := 0, !reply.Acked?;
      if !reply.Failed? {
        var gone := set id | id in rows && id.org == FLEET_ORG && id.key in Elements(keys);
        assert forall i :: 0 <= i < |keys| ==> keys[i] in Elements(keys);
        rows := RetireRows(rows, Elements(keys));
        assert was.Keys - rows.Keys == gone;
        deleted := if err then 0 else |gone|;
      }
    }
  }
}
