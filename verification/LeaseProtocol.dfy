/**
 * Any number of workers on one queue: every interleaving of their statements, with leases, crashes, lost answers,
 * failed writes, a shutdown release, and an operator who edits rows. The only guard on a write is the owner string.
 */
module LeaseProtocol {
  import opened Basics
  import opened Names
  import opened RetrainTable

  // What happened, in order. Nothing below the history is visible to a worker.

  datatype Outcome = Success | Failure | Interrupted

  /** `answered` is whether the answer of a claim reached its worker. */
  datatype Event =
    | Created(ids: set<RowId>)
    | Claimed(worker: Name, ids: set<RowId>, answered: bool)
    | Finished(id: RowId, outcome: Outcome)
    | Removed(ids: set<RowId>)

  type History = seq<Event>

  /** The event settles or voids whatever claim the row had. */
  predicate Closes(e: Event, id: RowId) {
    match e
    case Created(ids) => id in ids
    case Claimed(_, _, _) => false
    case Finished(i, _) => i == id
    case Removed(ids) => id in ids
  }

  predicate Claims(e: Event, id: RowId) {
    e.Claimed? && id in e.ids
  }

  /** The fencing token of the row: the position of its newest claim, if that claim is still open. */
  function OpenClaim(h: History, id: RowId): (token: Option<nat>)
    ensures token.Some? ==> token.value < |h| && Claims(h[token.value], id)
  {
    if h == [] then None
    else
      var e := h[|h| - 1];
      if Claims(e, id) then Some(|h| - 1)
      else if Closes(e, id) then None
      else OpenClaim(h[..|h| - 1], id)
  }

  /** The position of the row's newest claim, whoever made it and whatever became of it. */
  function NewestClaim(h: History, id: RowId): (token: Option<nat>)
    ensures token.Some? ==> token.value < |h| && Claims(h[token.value], id)
    ensures forall i :: 0 <= i < |h| && Claims(h[i], id) ==> token.Some? && i <= token.value
  {
    if h == [] then None
    else if Claims(h[|h| - 1], id) then Some(|h| - 1)
    else NewestClaim(h[..|h| - 1], id)
  }

  function NewestClaimBy(h: History, w: Name, id: RowId): (token: Option<nat>)
    ensures token.Some? ==> token.value < |h| && Claims(h[token.value], id) && h[token.value].worker == w
  {
    if h == [] then None
    else if Claims(h[|h| - 1], id) && h[|h| - 1].worker == w then Some(|h| - 1)
    else NewestClaimBy(h[..|h| - 1], w, id)
  }

  /** What an event makes of a count of failures. */
  function Counted(before: nat, e: Event, id: RowId): nat {
    match e
    case Created(ids) => if id in ids then 0 else before
    case Finished(i, outcome) =>
      if i != id || outcome.Interrupted? then before
      else if outcome.Success? then 0
      else before + 1
    case _ => before
  }

  /** Failed finishes since the row's last success or creation; an interruption does not count. */
  function Failures(h: History, id: RowId): nat {
    if h == [] then 0 else Counted(Failures(h[..|h| - 1], id), h[|h| - 1], id)
  }

  ghost predicate RemovedSince(h: History, id: RowId, token: nat) {
    exists i :: token < i < |h| && h[i].Removed? && id in h[i].ids
  }

  lemma {:induction false} OpenIsNewest(h: History, id: RowId)
    ensures OpenClaim(h, id).Some? ==>
              && NewestClaim(h, id) == OpenClaim(h, id)
              && NewestClaimBy(h, h[OpenClaim(h, id).value].worker, id) == OpenClaim(h, id)
  {
    if h != [] {
      OpenIsNewest(h[..|h| - 1], id);
    }
  }

  // Workers.

  /** A claim as a worker remembers it; the token is bookkeeping the worker does not have. */
  datatype Held = Held(claim: RetrainClaim, token: nat)

  /** Waiting for a slot, or past the extension, with the lease end the extension reported. */
  datatype Stage = Queued | Fitting(until: Option<int>)

  datatype Task = Task(held: Held, stage: Stage)

  /** `since` is where the history stood at this process's start. */
  datatype Worker = Worker(since: nat, held: map<Name, Held>, tasks: map<Name, Task>)

  datatype State = State(rows: Table, now: int, workers: map<Name, Worker>, history: History)

  datatype Step =
    | Start(w: Name)
    | Crash(w: Name)
    | Advance(ticks: nat)
    | Schedule(keys: set<Name>, cron: string, timezone: string, reply: Reply)
    | Claim(w: Name, lease: int, limit: nat, locked: set<RowId>, batch: seq<RowId>, reply: Reply)
    | Break(w: Name)
    | Extend(w: Name, key: Name, lease: int, reply: Reply)
    | Finish(w: Name, key: Name, outcome: Outcome, next: int, status: Status, reply: Reply)
    | Release(w: Name, key: Name, next: int, reply: Reply)
    | Retire(keys: set<Name>, reply: Reply)
    | Insert(id: RowId, cron: string, timezone: string, enabled: bool, firstRun: Option<int>)
    | Edit(id: RowId, cron: string, timezone: string, enabled: bool, superseded: bool)
    | Delete(id: RowId)

  ghost predicate Enabled(s: State, step: Step) {
    match step
    case Start(w) => w !in s.workers
    case Crash(w) => w in s.workers
    case Advance(_) => true
    case Schedule(_, _, _, _) => true
    // A tick claims once, and only after the tasks of the previous tick are gone.
    case Claim(w, _, limit, locked, batch, _) =>
      w in s.workers && s.workers[w].tasks == map[] && IsBatch(s.rows, s.now, locked, limit, batch)
    case Break(w) => w in s.workers
    case Extend(w, key, _, _) => w in s.workers && key in s.workers[w].tasks && s.workers[w].tasks[key].stage.Queued?
    case Finish(w, key, outcome, _, _, _) =>
      && w in s.workers && key in s.workers[w].tasks && s.workers[w].tasks[key].stage.Fitting?
      && !outcome.Interrupted?
    case Release(w, key, _, _) => w in s.workers && s.workers[w].tasks == map[] && key in s.workers[w].held
    case Retire(_, _) => true
    case Insert(id, _, _, _, _) => id !in s.rows
    case Edit(id, _, _, _, _) => id in s.rows
    case Delete(id) => id in s.rows
  }

  function Log(h: History, happened: bool, e: Event): History {
    if happened then h + [e] else h
  }

  /** The count a finish writes. */
  function AttemptsAfter(c: RetrainClaim, outcome: Outcome): nat {
    match outcome
    case Success => 0
    case Failure => c.attempts + 1
    case Interrupted => c.attempts
  }

  function Unhold(held: map<Name, Held>, key: Name, reply: Reply): map<Name, Held> {
    if reply.Acked? then held - {key} else held
  }

  /** The rows an insert for the keys adds. */
  function NewRows(rows: Table, keys: set<Name>): set<RowId> {
    set k | k in keys && FleetRow(k) !in rows :: FleetRow(k)
  }

  /** The claims a batch adds to the held map. */
  function Taken(rows: Table, batch: set<RowId>, token: nat): map<Name, Held> {
    map k | k in (set id | id in batch :: id.key) && FleetRow(k) in batch && FleetRow(k) in rows ::
      Held(ClaimOf(FleetRow(k), rows[FleetRow(k)]), token)
  }

  function DoneState(s: State, w: Name, c: RetrainClaim, outcome: Outcome, next: int, status: Status, reply: Reply,
                     worker: Worker): State {
    var id := RowId(c.org, c.key);
    State(
      if reply.Failed? then s.rows else DoneRow(s.rows, id, w, next, s.now, status, AttemptsAfter(c, outcome)),
      s.now,
      s.workers[w := worker],
      Log(s.history, !reply.Failed? && OwnedBy(s.rows, id, w), Finished(id, outcome)))
  }

  ghost function Next(s: State, step: Step): State
    requires Enabled(s, step)
  {
    match step
    case Start(w) => s.(workers := s.workers[w := Worker(|s.history|, map[], map[])])
    case Crash(w) => s.(workers := s.workers[w := Worker(|s.history|, map[], map[])])
    case Advance(ticks) => s.(now := s.now + ticks)
    case Schedule(keys, cron, timezone, reply) =>
      if reply.Failed? then s
      else s.(rows := ScheduleRows(s.rows, keys, cron, timezone, s.now),
              history := s.history + [Created(NewRows(s.rows, keys))])
    case Claim(w, lease, _, _, batch, reply) =>
      if reply.Failed? then s
      else
        var wk := s.workers[w];
        var taken := Taken(s.rows, Ids(batch), |s.history|);
        var wk' := if reply.Lost? then wk
                   else wk.(held := wk.held + taken, tasks := map k | k in taken :: Task(taken[k], Queued));
        State(LeaseRows(s.rows, Ids(batch), w, s.now + lease), s.now, s.workers[w := wk'],
              s.history + [Claimed(w, Ids(batch), reply.Acked?)])
    case Break(w) =>
      var wk := s.workers[w];
      s.(workers := s.workers[w := wk.(tasks := map k | k in wk.tasks && !wk.tasks[k].stage.Queued? :: wk.tasks[k])])
    case Extend(w, key, lease, reply) =>
      var wk := s.workers[w];
      var id := RowId(wk.tasks[key].held.claim.org, wk.tasks[key].held.claim.key);
      var tasks :=
        if reply.Acked? && !OwnedBy(s.rows, id, w) then wk.tasks - {key}
        else wk.tasks[key := wk.tasks[key].(stage := Fitting(if reply.Acked? then Some(s.now + lease) else None))];
      s.(rows := if reply.Failed? then s.rows else ExtendRow(s.rows, id, w, s.now + lease),
         workers := s.workers[w := wk.(tasks := tasks)])
    case Finish(w, key, outcome, next, status, reply) =>
      var wk := s.workers[w];
      DoneState(s, w, wk.tasks[key].held.claim, outcome, next, status, reply,
                wk.(tasks := wk.tasks - {key}, held := Unhold(wk.held, key, reply)))
    case Release(w, key, next, reply) =>
      var wk := s.workers[w];
      DoneState(s, w, wk.held[key].claim, Interrupted, next, Errored("interrupted", 0), reply,
                wk.(held := Unhold(wk.held, key, reply)))
    case Retire(keys, reply) =>
      if reply.Failed? then s
      else s.(rows := RetireRows(s.rows, keys), history := s.history + [Removed(set k | k in keys :: FleetRow(k))])
    case Insert(id, cron, timezone, enabled, firstRun) =>
      s.(rows := s.rows[id := NewRow(cron, timezone, enabled, firstRun)], history := s.history + [Created({id})])
    case Edit(id, cron, timezone, enabled, superseded) =>
      s.(rows := s.rows[id := s.rows[id].(cron := cron, timezone := timezone, enabled := enabled,
                                          superseded := superseded)])
    case Delete(id) =>
      s.(rows := s.rows - {id}, history := s.history + [Removed({id})])
  }

  // Runs.

  const INITIAL := State(map[], 0, map[], [])

  datatype Run = Run(states: seq<State>, steps: seq<Step>)

  ghost predicate IsRun(r: Run) {
    && |r.states| == |r.steps| + 1
    && r.states[0] == INITIAL
    && forall i :: 0 <= i < |r.steps| ==>
         Enabled(r.states[i], r.steps[i]) && r.states[i + 1] == Next(r.states[i], r.steps[i])
  }

  // The invariant: the table's claims are what the history says, and each worker's memory follows its own claims.

  ghost predicate RowFollows(r: Row, id: RowId, h: History, now: int) {
    match OpenClaim(h, id)
    case None => r.claimedBy.None? && r.claimedUntil.None?
    case Some(i) =>
      && id == FleetRow(id.key)
      && r.claimedBy == Some(h[i].worker) && r.claimedUntil.Some?
      && r.nextRun.Some? && r.nextRun.value <= now
  }

  ghost predicate RowsFollow(s: State) {
    && (forall id :: id in s.rows ==> RowFollows(s.rows[id], id, s.history, s.now))
    && (forall id :: OpenClaim(s.history, id).Some? ==> id in s.rows)
  }

  /** A remembered claim is an answered one of this process. */
  ghost predicate HeldFollows(hd: Held, key: Name, w: Name, since: nat, h: History) {
    && hd.claim.key == key && hd.claim.org == FLEET_ORG
    && since <= hd.token < |h|
    && Claims(h[hd.token], FleetRow(key)) && h[hd.token].worker == w && h[hd.token].answered
  }

  /** While the claim is open, the count it carries is the row's. */
  ghost predicate CountFollows(hd: Held, key: Name, s: State) {
    OpenClaim(s.history, FleetRow(key)) == Some(hd.token) ==>
      FleetRow(key) in s.rows && s.rows[FleetRow(key)].attempts == hd.claim.attempts
  }

  /** The row's open claim is one this process made. */
  ghost predicate OpenInThisLife(wk: Worker, w: Name, id: RowId, h: History) {
    var open := OpenClaim(h, id);
    open.Some? && h[open.value].worker == w && wk.since <= open.value
  }

  ghost predicate Remembers(wk: Worker, id: RowId, token: nat) {
    id.key in wk.held && wk.held[id.key].token == token
  }

  /** An open claim of this process that was answered is in its held map. */
  ghost predicate Covers(wk: Worker, w: Name, id: RowId, h: History) {
    OpenInThisLife(wk, w, id, h) && h[OpenClaim(h, id).value].answered ==> Remembers(wk, id, OpenClaim(h, id).value)
  }

  /** Until its reported end an extended lease is the row's, unless the row was removed. */
  ghost predicate LeaseStands(s: State, id: RowId, token: nat, until: int) {
    || until < s.now
    || RemovedSince(s.history, id, token)
    || (OpenClaim(s.history, id) == Some(token) && id in s.rows && s.rows[id].claimedUntil == Some(until))
  }

  /** A waiting or running claim is the newest its worker made of the row: a worker claims only between its ticks. */
  ghost predicate TaskFollows(s: State, w: Name, wk: Worker, key: Name)
    requires key in wk.tasks
  {
    var t := wk.tasks[key];
    && key in wk.held && wk.held[key] == t.held
    && NewestClaimBy(s.history, w, FleetRow(key)) == Some(t.held.token)
    && (t.stage.Fitting? && t.stage.until.Some? ==> LeaseStands(s, FleetRow(key), t.held.token, t.stage.until.value))
  }

  ghost predicate WorkerFollows(s: State, w: Name, wk: Worker) {
    && wk.since <= |s.history|
    && (forall k :: k in wk.held ==> HeldFollows(wk.held[k], k, w, wk.since, s.history))
    && (forall k :: k in wk.held ==> CountFollows(wk.held[k], k, s))
    && (forall id :: Covers(wk, w, id, s.history))
    && (forall k :: k in wk.tasks ==> TaskFollows(s, w, wk, k))
  }

  ghost predicate Inv(s: State) {
    RowsFollow(s) && forall w :: w in s.workers ==> WorkerFollows(s, w, s.workers[w])
  }

  lemma Appended(h: History, e: Event)
    ensures (h + [e])[..|h|] == h
  {}

  lemma OpenAfter(h: History, e: Event, id: RowId)
    ensures OpenClaim(h + [e], id)
         == if Claims(e, id) then Some(|h|) else if Closes(e, id) then None else OpenClaim(h, id)
  {
    Appended(h, e);
  }

  lemma NewestByAfter(h: History, e: Event, w: Name, id: RowId)
    ensures NewestClaimBy(h + [e], w, id)
         == if Claims(e, id) && e.worker == w then Some(|h|) else NewestClaimBy(h, w, id)
  {
    Appended(h, e);
  }

  lemma RemovedStays(h: History, e: Event, id: RowId, token: nat)
    requires RemovedSince(h, id, token)
    ensures RemovedSince(h + [e], id, token)
  {
    var i :| token < i < |h| && h[i].Removed? && id in h[i].ids;
    assert (h + [e])[i] == h[i];
  }

  /** Who the owner string names: the worker of the row's open claim. */
  lemma OwnerIsOpen(s: State, w: Name, id: RowId)
    requires RowsFollow(s)
    ensures OwnedBy(s.rows, id, w) <==>
            OpenClaim(s.history, id).Some? && s.history[OpenClaim(s.history, id).value].worker == w
    ensures OwnedBy(s.rows, id, w) ==>
              OpenClaim(s.history, id) == NewestClaimBy(s.history, w, id) && id.org == FLEET_ORG
  {
    OpenIsNewest(s.history, id);
    if id in s.rows {
      assert RowFollows(s.rows[id], id, s.history, s.now);
    }
  }

  /**
   * The owner string lets the worker of a waiting or running claim write exactly when that claim is the row's open one.
   * A claim that is only held is let through too when the worker has a newer claim of the row, and this one alone: a
   * claim of this process whose answer was lost.
   */
  lemma GuardIsFence(s: State, w: Name, key: Name)
    requires Inv(s) && w in s.workers && key in s.workers[w].held
    ensures
      var id, token := FleetRow(key), s.workers[w].held[key].token;
      var open := OpenClaim(s.history, id);
      && (OwnedBy(s.rows, id, w) <==>
            open == Some(token) || (open.Some? && s.history[open.value].worker == w && !s.history[open.value].answered))
      && (OwnedBy(s.rows, id, w) && open != Some(token) ==> open.value > token && key !in s.workers[w].tasks)
  {
    var id, wk := FleetRow(key), s.workers[w];
    assert HeldFollows(wk.held[key], key, w, wk.since, s.history);
    OwnerIsOpen(s, w, id);
    NewestIsLast(s.history, w, id, wk.held[key].token);
    assert Covers(wk, w, id, s.history);
    assert key in wk.tasks ==> TaskFollows(s, w, wk, key);
  }

  lemma {:induction false} NewestIsLast(h: History, w: Name, id: RowId, i: nat)
    requires i < |h| && Claims(h[i], id) && h[i].worker == w
    ensures NewestClaimBy(h, w, id).Some? && i <= NewestClaimBy(h, w, id).value
  {
    if i < |h| - 1 {
      NewestIsLast(h[..|h| - 1], w, id, i);
    }
  }
}
