/** publisher.go:324-380: a worker's tick, as the worker runs it, is a stretch of a run of the fleet's protocol. */
module TickRefinement {
  import opened Basics
  import opened Names
  import opened RetrainTable
  import opened LeaseProtocol
  import opened LeaseRuns
  import W = RetrainWorker

  /** What the worker itself has of its held claims. */
  function Remembered(held: map<Name, Held>): W.HeldClaims {
    map k | k in held :: held[k].claim
  }

  /** The worker's view and the protocol's state agree. */
  ghost predicate Agrees(s: State, self: Name, shop: W.Shop) {
    self in s.workers && s.rows == shop.rows && Remembered(s.workers[self].held) == shop.held
  }

  /** The claim waits for its slot. */
  ghost predicate Waits(s: State, self: Name, c: RetrainClaim) {
    && self in s.workers && c.key in s.workers[self].tasks
    && s.workers[self].tasks[c.key].stage == Queued && s.workers[self].tasks[c.key].held.claim == c
  }

  lemma ExtendAgrees(s: State, me: W.Terms, c: RetrainClaim, shop: W.Shop, w: W.Work)
    requires Agrees(s, me.self, shop) && Waits(s, me.self, c)
    ensures Enabled(s, Extend(me.self, c.key, me.lease, w.extend))
    ensures
      var s' := Next(s, Extend(me.self, c.key, me.lease, w.extend));
      var id := RowId(c.org, c.key);
      && s'.now == s.now
      && if w.extend.Acked? && !OwnedBy(s.rows, id, me.self)
         then Agrees(s', me.self, shop) && s'.workers[me.self].tasks == s.workers[me.self].tasks - {c.key}
         else && s'.workers[me.self].tasks - {c.key} == s.workers[me.self].tasks - {c.key}
              && Agrees(s', me.self, shop.(rows := if w.extend.Failed? then shop.rows
                                                  else ExtendRow(shop.rows, id, me.self, s.now + me.lease)))
              && c.key in s'.workers[me.self].tasks && s'.workers[me.self].tasks[c.key].stage.Fitting?
              && s'.workers[me.self].tasks[c.key].held.claim == c
  {}

  lemma FinishAgrees(s: State, me: W.Terms, c: RetrainClaim, now: int, shop: W.Shop, w: W.Work)
    requires Agrees(s, me.self, shop) && c.key in s.workers[me.self].tasks
    requires s.workers[me.self].tasks[c.key].stage.Fitting? && s.workers[me.self].tasks[c.key].held.claim == c
    ensures Enabled(s, FinishOf(me, c, now, w))
    ensures
      var s' := Next(s, FinishOf(me, c, now, w));
      && s'.now == s.now
      && me.self in s'.workers && s'.workers[me.self].tasks == s.workers[me.self].tasks - {c.key}
      && Agrees(s', me.self,
                shop.(rows := if w.done.Failed? then shop.rows
                              else DoneRow(shop.rows, RowId(c.org, c.key), me.self,
                                           W.NextAfter(w, c, now, me.base, me.max), s.now,
                                           W.StatusAfter(w, c), W.AttemptsAfter(w, c)),
                      held := if w.done.Acked? then shop.held - {c.key} else shop.held))
  {}

  function FinishOf(me: W.Terms, c: RetrainClaim, now: int, w: W.Work): Step {
    Finish(me.self, c.key, if W.Trains(w) then Success else Failure, W.NextAfter(w, c, now, me.base, me.max),
           W.StatusAfter(w, c), w.done)
  }

  /** The steps of training one claim: an extension, and a finish unless the claim moved on. */
  function TrainSteps(s: State, me: W.Terms, c: RetrainClaim, now: int, w: W.Work): seq<Step> {
    [Extend(me.self, c.key, me.lease, w.extend)]
    + if w.extend.Acked? && !OwnedBy(s.rows, RowId(c.org, c.key), me.self) then [] else [FinishOf(me, c, now, w)]
  }

  lemma TrainOneRuns(s: State, me: W.Terms, c: RetrainClaim, now: int, shop: W.Shop, w: W.Work) returns (s': State)
    requires Agrees(s, me.self, shop) && Waits(s, me.self, c)
    ensures Reaches(s, TrainSteps(s, me, c, now, w), s') && s'.now == s.now
    ensures me.self in s'.workers && s'.workers[me.self].tasks == s.workers[me.self].tasks - {c.key}
    ensures Agrees(s', me.self, W.TrainOne(shop, me, c, now, s.now, w))
  {
    var extend := Extend(me.self, c.key, me.lease, w.extend);
    ExtendAgrees(s, me, c, shop, w);
    var mid := Next(s, extend);
    assert [] + [extend] == [extend];
    Reached(s, [], s, extend);
    if w.extend.Acked? && !OwnedBy(s.rows, RowId(c.org, c.key), me.self) {
      s' := mid;
    } else {
      var extended := shop.(rows := if w.extend.Failed? then shop.rows
                                    else ExtendRow(shop.rows, RowId(c.org, c.key), me.self, s.now + me.lease));
      FinishAgrees(mid, me, c, now, extended, w);
      Reached(s, [extend], mid, FinishOf(me, c, now, w));
      s' := Next(mid, FinishOf(me, c, now, w));
    }
  }

  ghost predicate FewerTasks(s: State, s': State, self: Name) {
    && self in s.workers && self in s'.workers
    && forall k :: k in s'.workers[self].tasks ==>
                     k in s.workers[self].tasks && s'.workers[self].tasks[k] == s.workers[self].tasks[k]
  }

  /** Training the first `n` claims of a tick. */
  lemma {:induction false} TrainFirstRuns(s: State, me: W.Terms, claims: seq<RetrainClaim>, now: int, shop: W.Shop,
                                          works: seq<W.Work>, n: nat) returns (steps: seq<Step>, s': State)
    requires n <= |claims| && n <= |works| && Agrees(s, me.self, shop)
    requires forall i, j :: 0 <= i < j < |claims| ==> claims[i].key != claims[j].key
    requires forall i :: 0 <= i < |claims| ==> Waits(s, me.self, claims[i])
    ensures Reaches(s, steps, s') && s'.now == s.now
    ensures Agrees(s', me.self, W.TrainFirst(shop, me, claims, now, s.now, works, n))
    ensures forall i :: n <= i < |claims| ==> Waits(s', me.self, claims[i])
    ensures FewerTasks(s, s', me.self)
  {
    if n == 0 {
      steps, s' := [], s;
    } else {
      hide W.TrainOne, Agrees;
      var before, mid := TrainFirstRuns(s, me, claims, now, shop, works, n - 1);
      var last := claims[n - 1];
      s' := TrainOneRuns(mid, me, last, now, W.TrainFirst(shop, me, claims, now, s.now, works, n - 1), works[n - 1]);
      steps := before + TrainSteps(mid, me, last, now, works[n - 1]);
      Joined(s, before, mid, TrainSteps(mid, me, last, now, works[n - 1]), s');
    }
  }

  lemma {:induction false} HoldAllIs(held: W.HeldClaims, claims: seq<RetrainClaim>, k: Name)
    requires forall i, j :: 0 <= i < j < |claims| ==> claims[i].key != claims[j].key
    ensures k in W.HoldAll(held, claims) <==> k in held || exists i :: 0 <= i < |claims| && claims[i].key == k
    ensures forall i :: 0 <= i < |claims| && claims[i].key == k ==>
              k in W.HoldAll(held, claims) && W.HoldAll(held, claims)[k] == claims[i]
    ensures k in held && (forall i :: 0 <= i < |claims| ==> claims[i].key != k) ==>
              k in W.HoldAll(held, claims) && W.HoldAll(held, claims)[k] == held[k]
  {
    if claims != [] {
      HoldAllIs(held, claims[..|claims| - 1], k);
    }
  }

  lemma AnswerKeys(t: Table, now: int, locked: set<RowId>, limit: nat, batch: seq<RowId>, answer: seq<RowId>)
    requires IsBatch(t, now, locked, limit, batch) && IsOrderOf(answer, batch)
    ensures |answer| <= limit
    ensures forall i :: 0 <= i < |answer| ==> answer[i] in t && answer[i] == FleetRow(answer[i].key)
    ensures forall i, j :: 0 <= i < j < |answer| ==> answer[i].key != answer[j].key
  {
    forall i | 0 <= i < |answer|
      ensures answer[i] in t && answer[i] == FleetRow(answer[i].key)
    {
      assert answer[i] in Ids(answer);
      var j :| 0 <= j < |batch| && batch[j] == answer[i];
      assert Claimable(t, batch[j], now);
    }
  }

  /** The rows taken from a batch, one by one. */
  ghost predicate IsTaken(taken: map<Name, Held>, claims: seq<RetrainClaim>) {
    && (forall i :: 0 <= i < |claims| ==> claims[i].key in taken && taken[claims[i].key].claim == claims[i])
    && (forall k :: k in taken ==> exists i :: 0 <= i < |claims| && claims[i].key == k)
    && forall i, j :: 0 <= i < j < |claims| ==> claims[i].key != claims[j].key
  }

  lemma BatchIsTaken(t: Table, batch: seq<RowId>, token: nat)
    requires forall i :: 0 <= i < |batch| ==> batch[i] in t && batch[i] == FleetRow(batch[i].key)
    requires forall i, j :: 0 <= i < j < |batch| ==> batch[i].key != batch[j].key
    ensures IsTaken(Taken(t, Ids(batch), token), ClaimsOf(t, batch)) && |ClaimsOf(t, batch)| == |batch|
  {
    var taken, claims := Taken(t, Ids(batch), token), ClaimsOf(t, batch);
    assert forall i :: 0 <= i < |batch| ==> claims[i] == ClaimOf(batch[i], t[batch[i]]) && batch[i] in Ids(batch);
    forall k | k in taken
      ensures exists i :: 0 <= i < |claims| && claims[i].key == k
    {
      var i :| 0 <= i < |batch| && batch[i].key == k;
      assert claims[i].key == k;
    }
  }

  /** Holding the claims of a batch is taking its rows, in the worker's terms. */
  lemma TakenIsHeld(held: map<Name, Held>, taken: map<Name, Held>, claims: seq<RetrainClaim>)
    requires IsTaken(taken, claims)
    ensures Remembered(held + taken) == W.HoldAll(Remembered(held), claims)
  {
    hide W.HoldAll;
    var mine, theirs := Remembered(held + taken), W.HoldAll(Remembered(held), claims);
    forall k
      ensures k in mine <==> k in theirs
      ensures k in mine && k in theirs ==> mine[k] == theirs[k]
    {
      HoldAllIs(Remembered(held), claims, k);
      if k in taken {
        var i :| 0 <= i < |claims| && claims[i].key == k;
      }
    }
    assert mine == theirs;
  }

  function HeldBy(s: State, self: Name): W.HeldClaims
    requires self in s.workers
  {
    Remembered(s.workers[self].held)
  }

  /** An answered claim, as the worker starts on it. */
  function Started(s: State, me: W.Terms, batch: seq<RowId>): W.Shop
    requires me.self in s.workers && forall i :: 0 <= i < |batch| ==> batch[i] in s.rows
  {
    W.Shop(LeaseRows(s.rows, Ids(batch), me.self, s.now + me.lease),
           W.HoldAll(HeldBy(s, me.self), ClaimsOf(s.rows, batch)), 0, 0)
  }

  lemma AckedClaimAgrees(s: State, me: W.Terms, step: Step, answer: seq<RowId>)
    requires me.self in s.workers && Enabled(s, step)
    requires step.Claim? && step.w == me.self && step.lease == me.lease && step.reply.Acked?
    requires Ids(answer) == Ids(step.batch)
    requires forall i :: 0 <= i < |answer| ==> answer[i] in s.rows && answer[i] == FleetRow(answer[i].key)
    requires forall i, j :: 0 <= i < j < |answer| ==> answer[i].key != answer[j].key
    ensures |ClaimsOf(s.rows, answer)| == |answer|
    ensures
      var s' := Next(s, step);
      && s'.now == s.now && Agrees(s', me.self, Started(s, me, answer))
      && (forall i :: 0 <= i < |answer| ==> Waits(s', me.self, ClaimsOf(s.rows, answer)[i]))
      && forall k :: k in s'.workers[me.self].tasks ==> s'.workers[me.self].tasks[k].stage.Queued?
  {
    hide LeaseProtocol.Next, Enabled, LeaseRows, W.HoldAll, Taken, Remembered, Ids, OwnedBy, ClaimsOf;
    var taken, claims := Taken(s.rows, Ids(answer), |s.history|), ClaimsOf(s.rows, answer);
    AckedClaimFields(s, step);
    BatchIsTaken(s.rows, answer, |s.history|);
    TakenIsHeld(s.workers[me.self].held, taken, claims);
    var s' := Next(s, step);
    forall i | 0 <= i < |claims|
      ensures Waits(s', me.self, claims[i])
    {
      assert claims[i].key in taken;
    }
  }

  lemma AckedClaimFields(s: State, step: Step)
    requires Enabled(s, step) && step.Claim? && step.reply.Acked?
    ensures
      var taken, s' := Taken(s.rows, Ids(step.batch), |s.history|), Next(s, step);
      && s'.rows == LeaseRows(s.rows, Ids(step.batch), step.w, s.now + step.lease) && s'.now == s.now
      && step.w in s'.workers && s'.workers[step.w].held == s.workers[step.w].held + taken
      && s'.workers[step.w].tasks == map k | k in taken :: Task(taken[k], Queued)
  {}

  /** The end of the pool loop: what got no slot is held but no longer waits. */
  lemma BreakAgrees(s: State, self: Name, shop: W.Shop)
    requires Agrees(s, self, shop)
    requires forall k :: k in s.workers[self].tasks ==> s.workers[self].tasks[k].stage.Queued?
    ensures Agrees(Next(s, Break(self)), self, shop) && Next(s, Break(self)).workers[self].tasks == map[]
  {}

  lemma AckedTickRuns(s: State, me: W.Terms, claim: Step, answer: seq<RowId>, now: int, slots: seq<bool>,
                      works: seq<W.Work>)
    returns (steps: seq<Step>, s': State)
    requires me.self in s.workers && Enabled(s, claim) && claim.Claim? && claim.reply.Acked?
    requires claim.w == me.self && claim.lease == me.lease && Ids(answer) == Ids(claim.batch)
    requires |slots| == |works| == |answer|
    requires forall i :: 0 <= i < |answer| ==>
               answer[i] in s.rows && answer[i] == FleetRow(answer[i].key)
    requires forall i, j :: 0 <= i < j < |answer| ==> answer[i].key != answer[j].key
    ensures Reaches(s, [claim] + steps + [Break(me.self)], s')
    ensures Agrees(s', me.self, W.TrainFirst(Started(s, me, answer), me, ClaimsOf(s.rows, answer), now, s.now,
                                             works, W.Granted(slots)))
    ensures s'.workers[me.self].tasks == map[]
  {
    AckedClaimAgrees(s, me, claim, answer);
    assert [] + [claim] == [claim];
    Reached(s, [], s, claim);
    var claimed := Next(s, claim);
    var claims := ClaimsOf(s.rows, answer);
    hide LeaseProtocol.Next, Agrees, Waits, LeaseRows, W.HoldAll, W.TrainFirst, W.Granted, Reaches;
    var trained;
    steps, trained := TrainFirstRuns(claimed, me, claims, now, Started(s, me, answer), works, W.Granted(slots));
    Joined(s, [claim], claimed, steps, trained);
    var end := W.TrainFirst(Started(s, me, answer), me, claims, now, s.now, works, W.Granted(slots));
    BreakAgrees(trained, me.self, end);
    Reached(s, [claim] + steps, trained, Break(me.self));
    s' := Next(trained, Break(me.self));
  }

  lemma SilentClaimAgrees(s: State, me: W.Terms, step: Step)
    requires me.self in s.workers && s.workers[me.self].tasks == map[] && Enabled(s, step)
    requires step.Claim? && step.w == me.self && step.lease == me.lease && !step.reply.Acked?
    ensures
      var s' := Next(s, step);
      && Agrees(s', me.self,
                W.Shop(if step.reply.Failed? then s.rows
                       else LeaseRows(s.rows, Ids(step.batch), me.self, s.now + me.lease),
                       HeldBy(s, me.self), 0, 0))
      && s'.workers[me.self].tasks == map[]
  {}

  /**
   * A tick is a stretch of a protocol run: from any state in which the worker has no task left, its steps lead to one
   * in which it again has none, whose table and whose held claims are those the tick computes. What holds of every run
   * of the protocol so holds of the worker's code, tick after tick.
   */
  lemma TickIsARun(s: State, me: W.Terms, limit: nat, locked: set<RowId>, batch: seq<RowId>, answer: seq<RowId>,
                   now: int, claimReply: Reply, slots: seq<bool>, works: seq<W.Work>)
    returns (steps: seq<Step>, s': State)
    requires me.self in s.workers && s.workers[me.self].tasks == map[]
    requires IsBatch(s.rows, s.now, locked, limit, batch) && IsOrderOf(answer, batch) && |slots| == |works| == limit
    ensures forall i :: 0 <= i < |answer| ==> answer[i] in s.rows
    ensures Reaches(s, steps, s')
    ensures Agrees(s', me.self, W.RetrainTick(s.rows, HeldBy(s, me.self), me, limit, s.now, answer, now,
                                              claimReply, slots, works))
    ensures s'.workers[me.self].tasks == map[]
  {
    var claim := Claim(me.self, me.lease, limit, locked, batch, claimReply);
    assert Enabled(s, claim);
    AnswerKeys(s.rows, s.now, locked, limit, batch, answer);
    var n := |answer|;
    hide IsBatch, Enabled, LeaseProtocol.Next, LeaseRows, Remembered, W.HoldAll, W.TrainFirst, W.Granted;
    if claimReply.Acked? {
      steps, s' := AckedTickRuns(s, me, claim, answer, now, slots[..n], works[..n]);
      steps := [claim] + steps + [Break(me.self)];
    } else {
      SilentClaimAgrees(s, me, claim);
      assert Ids(answer) == Ids(batch);
      assert [] + [claim] == [claim];
      Reached(s, [], s, claim);
      steps, s' := [claim], Next(s, claim);
    }
  }
}
