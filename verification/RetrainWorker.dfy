/** publisher.go:324-506: one worker's side of the queue, its held claims, and the release at shutdown. */
module RetrainWorker {
  import opened Basics
  import opened Names
  import opened RetrainTable
  import Backoff

  /** What the training of one claim meets: the answers of its two statements, the scan, the fit and the schedule. */
  datatype Work = Work(extend: Reply, tooShort: Option<string>, fit: Option<string>, next: Result<int>, done: Reply)

  datatype Counts = Counts(claimed: nat, trained: nat, failed: nat)

  type HeldClaims = map<Name, RetrainClaim>

  function HoldAll(held: HeldClaims, claims: seq<RetrainClaim>): HeldClaims {
    if claims == [] then held
    else
      var last := claims[|claims| - 1];
      HoldAll(held, claims[..|claims| - 1])[last.key := last]
  }

  /** Claims are held under their own keys, and are of the fleet's rows. */
  ghost predicate Named(held: HeldClaims) {
    forall k :: k in held ==> held[k].key == k && held[k].org == FLEET_ORG
  }

  /** Every row under the worker's name is held, with its count. */
  ghost predicate Covered(t: Table, self: Name, held: HeldClaims) {
    && Named(held)
    && forall id :: OwnedBy(t, id, self) ==>
                      id.org == FLEET_ORG && id.key in held && held[id.key].attempts == t[id].attempts
  }

  /** The outcome is a success only when the scan, the fit and the schedule all allow it. */
  predicate Trains(w: Work) {
    w.tooShort.None? && w.fit.None? && w.next.Ok?
  }

  function FirstError(w: Work): string {
    if w.tooShort.Some? then w.tooShort.value
    else if w.fit.Some? then w.fit.value
    else if w.next.Err? then w.next.error else ""
  }

  /** The row's next run, status and count after training it. */
  function NextAfter(w: Work, c: RetrainClaim, now: int, base: int, max: int): int {
    if Trains(w) then w.next.value else now + Backoff.Capped(base, max, c.attempts)
  }

  function StatusAfter(w: Work, c: RetrainClaim): Status {
    if Trains(w) then Succeeded else Errored(FirstError(w), c.attempts + 1)
  }

  function AttemptsAfter(w: Work, c: RetrainClaim): nat {
    if Trains(w) then 0 else c.attempts + 1
  }

  /** What a worker brings to a training: its name, its lease and its retry delays. */
  datatype Terms = Terms(self: Name, lease: int, base: int, max: int)

  /** A worker's view of the queue and of its own claims, with the outcomes so far. */
  datatype Shop = Shop(rows: Table, held: HeldClaims, trained: nat, failed: nat)

  /** Training one claim; `clock` is the database's. A claim that moved on is left alone. */
  function TrainOne(s: Shop, me: Terms, c: RetrainClaim, now: int, clock: int, w: Work): Shop {
    var id := RowId(c.org, c.key);
    if w.extend.Acked? && !OwnedBy(s.rows, id, me.self) then s
    else
      var extended := if w.extend.Failed? then s.rows else ExtendRow(s.rows, id, me.self, clock + me.lease);
      Shop(if w.done.Failed? then extended
           else DoneRow(extended, id, me.self, NextAfter(w, c, now, me.base, me.max), clock,
                        StatusAfter(w, c), AttemptsAfter(w, c)),
           if w.done.Acked? then s.held - {c.key} else s.held,
           s.trained + (if Trains(w) then 1 else 0), s.failed + if Trains(w) then 0 else 1)
  }

  function TrainFirst(s: Shop, me: Terms, claims: seq<RetrainClaim>, now: int, clock: int, works: seq<Work>, n: nat)
    : Shop
    requires n <= |claims| && n <= |works|
  {
    if n == 0 then s
    else TrainOne(TrainFirst(s, me, claims, now, clock, works, n - 1), me, claims[n - 1], now, clock, works[n - 1])
  }

  /**
   * A row before and after the outcome of a training was recorded. A claim that could be trained is due when its
   * schedule says, with no failure; one that could not carries its first error and one failure more, and is due after
   * the base delay doubled once per earlier failure, or the longest delay if that is shorter.
   */
  ghost predicate RecordsOutcome(before: Row, after: Row, c: RetrainClaim, w: Work, now: int, clock: int, base: int,
                                 max: int) {
    && after == before.(nextRun := after.nextRun, lastRun := Some(clock), lastStatus := after.lastStatus,
                        attempts := after.attempts, claimedBy := None, claimedUntil := None)
    && (w.tooShort.None? && w.fit.None? && w.next.Ok? ==>
          after.nextRun == Some(w.next.value) && after.lastStatus == Succeeded && after.attempts == 0)
    && (w.tooShort.Some? || w.fit.Some? || w.next.Err? ==>
          && after.attempts == c.attempts + 1 && after.lastStatus.Errored? && after.lastStatus.attempt == c.attempts + 1
          && after.nextRun.Some?
          && (base * Backoff.Pow2(c.attempts) <= max ==> after.nextRun.value == now + base * Backoff.Pow2(c.attempts))
          && (base * Backoff.Pow2(c.attempts) >= max ==> after.nextRun.value == now + max))
    && (w.tooShort.Some? ==> after.lastStatus.message == w.tooShort.value)
    && (w.tooShort.None? && w.fit.Some? ==> after.lastStatus.message == w.fit.value)
    && (w.tooShort.None? && w.fit.None? && w.next.Err? ==> after.lastStatus.message == w.next.error)
  }

  /** Once recorded, a row is due again exactly from its next run, while it is enabled and not superseded. */
  lemma RecordedRowWaits(before: Row, after: Row, c: RetrainClaim, w: Work, now: int, clock: int, base: int, max: int,
                         later: int)
    requires RecordsOutcome(before, after, c, w, now, clock, base, max)
    ensures after.nextRun.Some?
    ensures Due(after, later) <==> after.enabled && !after.superseded && after.nextRun.value <= later
    ensures w.tooShort.None? && w.fit.None? && w.next.Ok? && later < w.next.value ==> !Due(after, later)
    ensures (w.tooShort.Some? || w.fit.Some? || w.next.Err?)
            && later < now + base * Backoff.Pow2(c.attempts) && later < now + max
            ==> !Due(after, later)
  {}

  /** What training one claim leaves, whatever came of its statements. */
  lemma TrainOneIs(s: Shop, me: Terms, c: RetrainClaim, now: int, clock: int, w: Work)
    ensures
      var id, after := RowId(c.org, c.key), TrainOne(s, me, c, now, clock, w);
      && OnlyOwners(s.rows, after.rows, id, me.self)
      && (w.extend.Acked? && !OwnedBy(s.rows, id, me.self) ==> after == s)
      && (!w.extend.Acked? || OwnedBy(s.rows, id, me.self) ==>
            && after.held == (if w.done.Acked? then s.held - {c.key} else s.held)
            && (if w.tooShort.None? && w.fit.None? && w.next.Ok?
                then after.trained == s.trained + 1 && after.failed == s.failed
                else after.trained == s.trained && after.failed == s.failed + 1))
      && (OwnedBy(s.rows, id, me.self) && w.done.Failed? ==>
            after.rows[id] == if w.extend.Failed? then s.rows[id]
                              else s.rows[id].(claimedUntil := Some(clock + me.lease)))
      && (OwnedBy(s.rows, id, me.self) && !w.done.Failed? ==>
            RecordsOutcome(s.rows[id], after.rows[id], c, w, now, clock, me.base, me.max))
  {}

  /** How many slots are granted before the first refusal. */
  function Granted(slots: seq<bool>): (n: nat)
    ensures n <= |slots| && (forall i :: 0 <= i < n ==> slots[i]) && (n < |slots| ==> !slots[n])
  {
    if slots == [] || !slots[0] then 0 else 1 + Granted(slots[1..])
  }

  /** Training a held claim keeps the worker's claims covered. */
  lemma TrainOneCovers(s: Shop, me: Terms, c: RetrainClaim, now: int, clock: int, w: Work)
    requires Covered(s.rows, me.self, s.held) && c.org == FLEET_ORG
    ensures
      var after := TrainOne(s, me, c, now, clock, w);
      Covered(after.rows, me.self, after.held)
  {}

  lemma TrainOneAdds(s: Shop, me: Terms, c: RetrainClaim, now: int, clock: int, w: Work)
    ensures
      var one := TrainOne(Shop(s.rows, s.held, 0, 0), me, c, now, clock, w);
      TrainOne(s, me, c, now, clock, w) == Shop(one.rows, one.held, s.trained + one.trained, s.failed + one.failed)
  {}

  lemma {:induction false} TrainFirstCovers(s: Shop, me: Terms, claims: seq<RetrainClaim>, now: int, clock: int,
                                            works: seq<Work>, n: nat)
    requires n <= |claims| && n <= |works|
    requires Covered(s.rows, me.self, s.held) && forall c :: c in claims ==> c.org == FLEET_ORG
    ensures
      var after := TrainFirst(s, me, claims, now, clock, works, n);
      Covered(after.rows, me.self, after.held)
  {
    if n > 0 {
      TrainFirstCovers(s, me, claims, now, clock, works, n - 1);
      TrainOneCovers(TrainFirst(s, me, claims, now, clock, works, n - 1), me, claims[n - 1], now, clock, works[n - 1]);
    }
  }

  /** The rest of the table, and of the held claims, is left alone; every outcome is counted at most once. */
  lemma {:induction false} TrainFirstFrame(s: Shop, me: Terms, claims: seq<RetrainClaim>, now: int, clock: int,
                                           works: seq<Work>, n: nat, id: RowId)
    requires n <= |claims| && n <= |works|
    requires forall i :: 0 <= i < n ==> claims[i].key != id.key
    ensures
      var after := TrainFirst(s, me, claims, now, clock, works, n);
      && (id in after.rows <==> id in s.rows) && (id in s.rows ==> after.rows[id] == s.rows[id])
      && (id.key in after.held <==> id.key in s.held) && (id.key in s.held ==> after.held[id.key] == s.held[id.key])
      && after.trained + after.failed <= s.trained + s.failed + n
  {
    if n > 0 {
      TrainFirstFrame(s, me, claims, now, clock, works, n - 1, id);
    }
  }

  /**
   * A claim that was trained, with both statements acknowledged, while its row was still under the worker's name: the
   * row is released with the outcome, and the claim forgotten. Other claims do not disturb it.
   */
  lemma {:induction false} TrainedRowIs(s: Shop, me: Terms, claims: seq<RetrainClaim>, now: int, clock: int,
                                        works: seq<Work>, n: nat, i: nat)
    requires i < n <= |claims| && n <= |works|
    requires forall j, k :: 0 <= j < k < |claims| ==> claims[j].key != claims[k].key
    requires OwnedBy(s.rows, RowId(claims[i].org, claims[i].key), me.self)
    requires works[i].extend.Acked? && works[i].done.Acked?
    ensures
      var c, w := claims[i], works[i];
      var id, after := RowId(c.org, c.key), TrainFirst(s, me, claims, now, clock, works, n);
      && id in after.rows && c.key !in after.held
      && RecordsOutcome(s.rows[id], after.rows[id], c, w, now, clock, me.base, me.max)
  {
    if i < n - 1 {
      TrainedRowIs(s, me, claims, now, clock, works, n - 1, i);
    } else {
      TrainFirstFrame(s, me, claims, now, clock, works, i, RowId(claims[i].org, claims[i].key));
    }
  }

  /** A whole tick from the batch it leased: without an answer nothing is held or trained. */
  function RetrainTick(t: Table, held: HeldClaims, me: Terms, limit: nat, clock: int, batch: seq<RowId>, now: int,
                       claimReply: Reply, slots: seq<bool>, works: seq<Work>): Shop
    requires |batch| <= limit == |slots| == |works| && forall i :: 0 <= i < |batch| ==> batch[i] in t
  {
    var rows := if claimReply.Failed? then t else LeaseRows(t, Ids(batch), me.self, clock + me.lease);
    if !claimReply.Acked? then Shop(rows, held, 0, 0)
    else
      var n := |batch|;
      TrainFirst(Shop(rows, HoldAll(held, ClaimsOf(t, batch)), 0, 0), me, ClaimsOf(t, batch), now, clock,
                 works[..n], Granted(slots[..n]))
  }

  lemma ClaimsAreFleets(t: Table, batch: seq<RowId>)
    requires forall i :: 0 <= i < |batch| ==> batch[i] in t && batch[i].org == FLEET_ORG
    ensures forall c :: c in ClaimsOf(t, batch) ==> c.org == FLEET_ORG
  {
    forall c | c in ClaimsOf(t, batch)
      ensures c.org == FLEET_ORG
    {
      var i :| 0 <= i < |batch| && ClaimsOf(t, batch)[i] == c;
    }
  }

  lemma AnswerIsFleets(t: Table, now: int, locked: set<RowId>, limit: nat, batch: seq<RowId>, answer: seq<RowId>)
    requires IsBatch(t, now, locked, limit, batch) && IsOrderOf(answer, batch)
    ensures |answer| <= limit && forall i :: 0 <= i < |answer| ==> answer[i] in t && answer[i].org == FLEET_ORG
  {
    forall i | 0 <= i < |answer|
      ensures answer[i] in t && answer[i].org == FLEET_ORG
    {
      assert answer[i] in Ids(answer);
      var j :| 0 <= j < |batch| && batch[j] == answer[i];
      assert Claimable(t, batch[j], now);
    }
  }

  lemma {:induction false} HoldAllNames(held: HeldClaims, claims: seq<RetrainClaim>)
    requires Named(held) && forall c :: c in claims ==> c.org == FLEET_ORG
    ensures Named(HoldAll(held, claims))
  {
    if claims != [] {
      HoldAllNames(held, claims[..|claims| - 1]);
    }
  }

  lemma {:induction false} TrainFirstNames(s: Shop, me: Terms, claims: seq<RetrainClaim>, now: int, clock: int,
                                           works: seq<Work>, n: nat)
    requires n <= |claims| && n <= |works| && Named(s.held)
    ensures Named(TrainFirst(s, me, claims, now, clock, works, n).held)
  {
    if n > 0 {
      TrainFirstNames(s, me, claims, now, clock, works, n - 1);
    }
  }

  /** Whatever the answers, a tick holds claims of the fleet's rows, under their keys. */
  lemma TickNames(t: Table, held: HeldClaims, me: Terms, batch: seq<RowId>, limit: nat, now: int, clock: int,
                  claimReply: Reply, slots: seq<bool>, works: seq<Work>)
    requires Named(held) && |batch| <= limit == |slots| == |works|
    requires forall i :: 0 <= i < |batch| ==> batch[i] in t && batch[i].org == FLEET_ORG
    ensures Named(RetrainTick(t, held, me, limit, clock, batch, now, claimReply, slots, works).held)
  {
    hide Named, LeaseRows, HoldAll, TrainFirst, Ids;
    if claimReply.Acked? {
      var n := |batch|;
      var start := Shop(LeaseRows(t, Ids(batch), me.self, clock + me.lease), HoldAll(held, ClaimsOf(t, batch)), 0, 0);
      ClaimsAreFleets(t, batch);
      HoldAllNames(held, ClaimsOf(t, batch));
      TrainFirstNames(start, me, ClaimsOf(t, batch), now, clock, works[..n], Granted(slots[..n]));
    }
  }

  /** Claims stay covered over a tick, unless the answer to its Claim was lost. */
  lemma TickCovers(t: Table, held: HeldClaims, me: Terms, batch: seq<RowId>, limit: nat, now: int, clock: int,
                   claimReply: Reply, slots: seq<bool>, works: seq<Work>)
    requires Covered(t, me.self, held) && |batch| <= limit == |slots| == |works| && !claimReply.Lost?
    requires forall i :: 0 <= i < |batch| ==> batch[i] in t && batch[i].org == FLEET_ORG
    ensures
      var after := RetrainTick(t, held, me, limit, clock, batch, now, claimReply, slots, works);
      Covered(after.rows, me.self, after.held)
  {
    hide Covered, LeaseRows, HoldAll, TrainFirst, Ids;
    if claimReply.Acked? {
      HoldAllHolds(held, t, batch, me.self, clock + me.lease);
      var n := |batch|;
      var start := Shop(LeaseRows(t, Ids(batch), me.self, clock + me.lease), HoldAll(held, ClaimsOf(t, batch)), 0, 0);
      ClaimsAreFleets(t, batch);
      TrainFirstCovers(start, me, ClaimsOf(t, batch), now, clock, works[..n], Granted(slots[..n]));
    }
  }

  /** The table after a release of `keys`, as far as the statements took effect. */
  function ReleasedRows(t: Table, self: Name, held: HeldClaims, keys: set<Name>, now: int,
                        clock: Name -> int, reply: Name -> Reply): Table {
    map id | id in t ::
      if && OwnedBy(t, id, self) && id.key in keys && id.key in held && id.org == held[id.key].org
         && !reply(id.key).Failed?
      then FinishedRow(t[id], clock(id.key), now, Errored("interrupted", 0), held[id.key].attempts)
      else t[id]
  }

  function StillHeld(held: HeldClaims, released: set<Name>, reply: Name -> Reply): HeldClaims {
    map k | k in held && !(k in released && reply(k).Acked?) :: held[k]
  }

  lemma {:induction false} HoldAllHolds(held: HeldClaims, t: Table, batch: seq<RowId>, owner: Name, until: int)
    requires forall i :: 0 <= i < |batch| ==> batch[i] in t && batch[i].org == FLEET_ORG
    requires Covered(t, owner, held)
    ensures Covered(LeaseRows(t, Ids(batch), owner, until), owner, HoldAll(held, ClaimsOf(t, batch)))
    ensures forall i :: 0 <= i < |batch| ==> batch[i].key in HoldAll(held, ClaimsOf(t, batch))
  {
    if batch == [] {
      assert LeaseRows(t, Ids(batch), owner, until) == t;
    } else {
      var n := |batch| - 1;
      var init := batch[..n];
      HoldAllHolds(held, t, init, owner, until);
      assert ClaimsOf(t, batch)[..n] == ClaimsOf(t, init);
      assert ClaimsOf(t, batch)[n] == ClaimOf(batch[n], t[batch[n]]);
      assert Ids(batch) == Ids(init) + {batch[n]};
      HoldOne(t, Ids(init), batch[n], owner, until, HoldAll(held, ClaimsOf(t, init)));
    }
  }

  lemma HoldOne(t: Table, ids: set<RowId>, id: RowId, owner: Name, until: int, held: HeldClaims)
    requires id in t && id.org == FLEET_ORG && Covered(LeaseRows(t, ids, owner, until), owner, held)
    ensures Covered(LeaseRows(t, ids + {id}, owner, until), owner, held[id.key := ClaimOf(id, t[id])])
  {
    var before, after := LeaseRows(t, ids, owner, until), LeaseRows(t, ids + {id}, owner, until);
    forall other | OwnedBy(after, other, owner) && other != id
      ensures OwnedBy(before, other, owner) && before[other] == after[other]
    {}
  }

  class RetrainWorker {
    const self: Name
    const store: RetrainStore
    const lease: int
    const retry: Backoff.Duration
    const retryMax: Backoff.Duration
    const concurrency: nat

    var held: HeldClaims

    constructor (self: Name, store: RetrainStore, lease: int, retry: Backoff.Duration, retryMax: Backoff.Duration,
                 concurrency: nat)
      ensures this.self == self && this.store == store && this.lease == lease && this.concurrency == concurrency
      ensures this.retry == retry && this.retryMax == retryMax && held == map[]
    {
      this.self, this.store, this.lease, this.concurrency := self, store, lease, concurrency;
      this.retry, this.retryMax := retry, retryMax;
      held := map[];
    }

    /** The configuration after `normalized`. */
    ghost predicate Configured() {
      0 < retry < retryMax
    }

    ghost function Me(): Terms {
      Terms(self, lease, retry as int, retryMax as int)
    }

    ghost predicate Covers()
      reads this, store
    {
      Covered(store.rows, self, held)
    }

    method Hold(c: RetrainClaim)
      modifies this`held
      ensures held == old(held)[c.key := c]
    {
      held := held[c.key := c];
    }

    method Unhold(key: Name)
      modifies this`held
      ensures held == old(held) - {key}
    {
      held := held - {key};
    }

    /** Forgets the claim only when the store said it took the outcome. */
    method Finish(c: RetrainClaim, next: int, status: Status, attempts: nat, reply: Reply)
      modifies this`held, store`rows
      ensures store.rows == if reply.Failed? then old(store.rows)
                            else DoneRow(old(store.rows), RowId(c.org, c.key), self, next, store.now, status, attempts)
      ensures held == if reply.Acked? then old(held) - {c.key} else old(held)
    {
      var err := store.Done(self, c.org, c.key, next, status, attempts, reply);
      if err {
        return;
      }
      Unhold(c.key);
    }

    /** Extends the lease, trains, and records the outcome; a claim that moved on is left alone. */
    method TrainHash(c: RetrainClaim, now: int, w: Work) returns (trained: bool, failed: bool)
      requires Configured()
      modifies this`held, store`rows
      ensures Shop(store.rows, held, if trained then 1 else 0, if failed then 1 else 0)
           == TrainOne(Shop(old(store.rows), old(held), 0, 0), Me(), c, now, store.now, w)
      ensures OnlyOwners(old(store.rows), store.rows, RowId(c.org, c.key), self)
      ensures w.extend.Acked? && !OwnedBy(old(store.rows), RowId(c.org, c.key), self) ==>
                !trained && !failed && held == old(held)
      ensures !w.extend.Acked? || OwnedBy(old(store.rows), RowId(c.org, c.key), self) ==>
                && trained == (w.tooShort.None? && w.fit.None? && w.next.Ok?) && failed == !trained
                && held == if w.done.Acked? then old(held) - {c.key} else old(held)
      ensures OwnedBy(old(store.rows), RowId(c.org, c.key), self) && w.done.Failed? ==>
                var before, after := old(store.rows)[RowId(c.org, c.key)], store.rows[RowId(c.org, c.key)];
                after == if w.extend.Failed? then before else before.(claimedUntil := Some(store.now + lease))
      ensures OwnedBy(old(store.rows), RowId(c.org, c.key), self) && !w.done.Failed? ==>
                RecordsOutcome(old(store.rows)[RowId(c.org, c.key)], store.rows[RowId(c.org, c.key)], c, w, now,
                               store.now, retry as int, retryMax as int)
    {
      TrainOneIs(Shop(store.rows, held, 0, 0), Me(), c, now, store.now, w);
      hide RecordsOutcome, OnlyOwners;
      var ok, err := store.Extend(self, c.org, c.key, lease, w.extend);
      if !err && !ok {
        return false, false;
      }
      if w.tooShort.None? && w.fit.None? && w.next.Ok? {
        Finish(c, w.next.value, Succeeded, 0, w.done);
        return true, false;
      }
      var attempts := c.attempts + 1;
      var delay := Backoff.RetryDelay(retry, retryMax, attempts);
      Finish(c, now + delay as int, Errored(FirstError(w), attempts), attempts, w.done);
      return false, true;
    }

    method HoldClaims(claims: seq<RetrainClaim>)
      modifies this`held
      ensures held == HoldAll(old(held), claims)
    {
      ghost var was := held;
      for i := 0 to |claims|
        invariant held == HoldAll(was, claims[..i])
      {
        assert claims[..i + 1][..i] == claims[..i];
        Hold(claims[i]);
      }
      assert claims[..|claims|] == claims;
    }

    /** The pool loop: a claim whose slot is refused ends it, and that claim and the later ones stay held. */
    method TrainClaims(claims: seq<RetrainClaim>, now: int, slots: seq<bool>, works: seq<Work>)
      returns (trained: nat, failed: nat)
      requires Configured() && |claims| == |slots| == |works|
      modifies this`held, store`rows
      ensures Shop(store.rows, held, trained, failed)
           == TrainFirst(Shop(old(store.rows), old(held), 0, 0), Me(), claims, now, store.now, works, Granted(slots))
    {
      hide TrainOne, NextAfter, StatusAfter, AttemptsAfter;
      ghost var start := Shop(store.rows, held, 0, 0);
      trained, failed := 0, 0;
      var i := 0;
      while i < |claims|
        invariant 0 <= i <= |claims| && forall j :: 0 <= j < i ==> slots[j]
        invariant Shop(store.rows, held, trained, failed)
               == TrainFirst(start, Me(), claims, now, store.now, works, i)
      {
        if !slots[i] {
          break;
        }
        TrainOneAdds(Shop(store.rows, held, trained, failed), Me(), claims[i], now, store.now, works[i]);
        var ok, bad := TrainHash(claims[i], now, works[i]);
        if ok {
          trained := trained + 1;
        }
        if bad {
          failed := failed + 1;
        }
        i := i + 1;
      }
      assert i == Granted(slots);
    }

    /** A tick: claim, hold everything claimed, then train what gets a slot. */
    method Retrain(now: int, locked: set<RowId>, claimReply: Reply, slots: seq<bool>, works: seq<Work>)
      returns (out: Counts, ghost batch: seq<RowId>, ghost answer: seq<RowId>)
      requires Configured() && |slots| == |works| == concurrency
      modifies this`held, store`rows
      ensures IsBatch(old(store.rows), store.now, locked, concurrency, batch) && IsOrderOf(answer, batch)
      ensures forall i :: 0 <= i < |answer| ==> answer[i] in old(store.rows)
      ensures Shop(store.rows, held, out.trained, out.failed)
           == RetrainTick(old(store.rows), old(held), Me(), concurrency, store.now, answer, now, claimReply, slots,
                          works)
      ensures out.claimed == if claimReply.Acked? then |batch| else 0
      ensures old(Named(held)) ==> Named(held)
      ensures old(Covers()) && !claimReply.Lost? ==> Covers()
    {
      hide LeaseRows, TrainOne, Granted, Due, FinishedRow, Covered, Named, IsBatch;
      ghost var t, was := store.rows, held;
      var claims, err;
      claims, err, batch, answer := store.Claim(self, lease, concurrency, locked, claimReply);
      AnswerIsFleets(t, store.now, locked, concurrency, batch, answer);
      if Covered(t, self, was) && !claimReply.Lost? {
        TickCovers(t, was, Me(), answer, concurrency, now, store.now, claimReply, slots, works);
      }
      if Named(was) {
        TickNames(t, was, Me(), answer, concurrency, now, store.now, claimReply, slots, works);
      }
      if err {
        return Counts(0, 0, 0), batch, answer;
      }
      if |claims| == 0 {
        return Counts(0, 0, 0), batch, answer;
      }
      HoldClaims(claims);
      var trained, failed := TrainClaims(claims, now, slots[..|claims|], works[..|claims|]);
      out := Counts(|claims|, trained, failed);
    }

    /**
     * Hands every held claim back. Each of their rows that is still under this worker's name becomes unclaimed, due at
     * the worker's clock, with the count the claim carries; what could not be handed back stays held. Rows under the
     * name that are not held, from an earlier process or an unanswered claim, are left alone.
     */
    method ReleaseHeld(clock: Name -> int, reply: Name -> Reply)
      requires Named(held)
      modifies this`held, store`rows
      ensures store.rows == ReleasedRows(old(store.rows), self, old(held), old(held).Keys, store.now, clock, reply)
      ensures held == StillHeld(old(held), old(held).Keys, reply) && Named(held)
      ensures forall id :: OwnedBy(store.rows, id, self) <==>
                           && OwnedBy(old(store.rows), id, self)
                           && !(id.org == FLEET_ORG && id.key in old(held) && !reply(id.key).Failed?)
      ensures forall k :: k in held <==> k in old(held) && !reply(k).Acked?
      ensures forall k :: k in held ==> held[k] == old(held)[k]
      ensures store.rows.Keys == old(store.rows).Keys
      ensures forall id :: id in store.rows ==>
                if OwnedBy(old(store.rows), id, self) && id.org == 0 && id.key in old(held) && !reply(id.key).Failed?
                then IsReleased(old(store.rows)[id], store.rows[id], clock(id.key), store.now,
                                old(held)[id.key].attempts)
                else store.rows[id] == old(store.rows)[id]
      ensures old(Covers()) ==> Covers() && forall id :: OwnedBy(store.rows, id, self) ==> reply(id.key).Failed?
    {
      ghost var t, was := store.rows, held;
      NothingReleased(t, self, was, store.now, clock, reply);
      hide ReleasedRows, StillHeld, IsReleased, DoneRow, Covered;
      var claims := held;
      var left := claims.Keys;
      while left != {}
        invariant left <= claims.Keys
        invariant store.rows == ReleasedRows(t, self, was, claims.Keys - left, store.now, clock, reply)
        invariant held == StillHeld(was, claims.Keys - left, reply)
        decreases left
      {
        var k :| k in left;
        var c := claims[k];
        ReleaseOne(t, self, was, claims.Keys - left, k, clock, reply, store.now);
        StillHeldOne(was, claims.Keys - left, k, reply);
        assert claims.Keys - (left - {k}) == (claims.Keys - left) + {k};
        left := left - {k};
        var err := store.Done(self, c.org, c.key, clock(k), Errored("interrupted", 0), c.attempts, reply(k));
        if !err {
          Unhold(c.key);
        }
      }
      assert claims.Keys - left == was.Keys;
      AllReleased(t, self, was, store.now, clock, reply);
      ReleasedAre(t, self, was, store.now, clock, reply);
    }
  }

  lemma AllReleased(t: Table, self: Name, was: HeldClaims, now: int, clock: Name -> int, reply: Name -> Reply)
    requires Named(was)
    ensures
      var after, still := ReleasedRows(t, self, was, was.Keys, now, clock, reply), StillHeld(was, was.Keys, reply);
      && Named(still)
      && (forall id :: OwnedBy(after, id, self) <==>
                       OwnedBy(t, id, self) && !(id.org == FLEET_ORG && id.key in was && !reply(id.key).Failed?))
      && (Covered(t, self, was) ==>
            Covered(after, self, still) && forall id :: OwnedBy(after, id, self) ==> reply(id.key).Failed?)
  {}

  /** A row before and after it was handed back. */
  ghost predicate IsReleased(before: Row, after: Row, due: int, now: int, attempts: nat) {
    after == before.(nextRun := Some(due), lastRun := Some(now), lastStatus := Errored("interrupted", 0),
                     attempts := attempts, claimedBy := None, claimedUntil := None)
  }

  lemma ReleasedAre(t: Table, self: Name, was: HeldClaims, now: int, clock: Name -> int, reply: Name -> Reply)
    requires Named(was)
    ensures
      var after, still := ReleasedRows(t, self, was, was.Keys, now, clock, reply), StillHeld(was, was.Keys, reply);
      && after.Keys == t.Keys
      && (forall id :: id in after ==>
            if OwnedBy(t, id, self) && id.org == 0 && id.key in was && !reply(id.key).Failed?
            then IsReleased(t[id], after[id], clock(id.key), now, was[id.key].attempts)
            else after[id] == t[id])
      && (forall k :: k in still <==> k in was && !reply(k).Acked?) && (forall k :: k in still ==> still[k] == was[k])
  {}

  lemma NothingReleased(t: Table, self: Name, was: HeldClaims, now: int, clock: Name -> int, reply: Name -> Reply)
    ensures ReleasedRows(t, self, was, {}, now, clock, reply) == t && StillHeld(was, {}, reply) == was
  {}

  lemma StillHeldOne(was: HeldClaims, done: set<Name>, k: Name, reply: Name -> Reply)
    ensures
      var before := StillHeld(was, done, reply);
      StillHeld(was, done + {k}, reply) == if reply(k).Acked? then before - {k} else before
  {}

  lemma ReleaseOne(t: Table, self: Name, was: HeldClaims, done: set<Name>, k: Name, clock: Name -> int,
                   reply: Name -> Reply, now: int)
    requires Named(was) && k in was && k !in done
    ensures
      var before := ReleasedRows(t, self, was, done, now, clock, reply);
      ReleasedRows(t, self, was, done + {k}, now, clock, reply)
      == if reply(k).Failed? then before
         else DoneRow(before, RowId(was[k].org, was[k].key), self, clock(k), now, Errored("interrupted", 0),
                      was[k].attempts)
  {}
}
