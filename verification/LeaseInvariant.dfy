/** Every step of the protocol keeps the invariant, lost answers included. */
module LeaseInvariant {
  import opened Basics
  import opened Names
  import opened RetrainTable
  import opened LeaseProtocol

  ghost predicate TakesRows(e: Event, w: Name) {
    e.Claimed? && e.worker == w && e.ids != {}
  }

  /** The history is the same or one event longer. */
  ghost predicate Grows(h: History, h': History) {
    h' == h || (h' != [] && h' == h + [h'[|h'| - 1]])
  }

  /** Nothing new is a claim that gives `w` rows. */
  ghost predicate TakesNothing(h: History, h': History, w: Name) {
    Grows(h, h') && (h' != h ==> !TakesRows(h'[|h|], w))
  }

  /** A claim of `w` whose lease has not run out keeps its row, unless the row is removed. */
  ghost predicate KeepsLease(s: State, s': State, w: Name, id: RowId) {
    OwnedBy(s.rows, id, w) && s.rows[id].claimedUntil.Some? && s.now <= s.rows[id].claimedUntil.value ==>
      || (|s'.history| == |s.history| + 1 && s'.history[|s.history|].Removed? && id in s'.history[|s.history|].ids)
      || (id in s'.rows && s'.rows[id].claimedUntil == s.rows[id].claimedUntil
          && OpenClaim(s'.history, id) == OpenClaim(s.history, id))
  }

  /** The count of a row stays while a claim of it stays open. */
  ghost predicate KeepsCount(s: State, s': State, id: RowId) {
    OpenClaim(s'.history, id).Some? && OpenClaim(s'.history, id) == OpenClaim(s.history, id) ==>
      id in s.rows && id in s'.rows && s'.rows[id].attempts == s.rows[id].attempts
  }

  ghost predicate KeepsCounts(s: State, s': State) {
    forall id :: KeepsCount(s, s', id)
  }

  lemma OpenStays(h: History, h': History, id: RowId, token: nat)
    requires Grows(h, h') && token < |h| && OpenClaim(h', id) == Some(token)
    ensures OpenClaim(h, id) == Some(token)
  {
    if h' != h {
      OpenAfter(h, h'[|h|], id);
    }
  }

  lemma HeldKept(s: State, s': State, w: Name, wk: Worker, key: Name)
    requires Grows(s.history, s'.history) && KeepsCounts(s, s') && key in wk.held
    requires HeldFollows(wk.held[key], key, w, wk.since, s.history) && CountFollows(wk.held[key], key, s)
    ensures HeldFollows(wk.held[key], key, w, wk.since, s'.history) && CountFollows(wk.held[key], key, s')
  {
    var id, token := FleetRow(key), wk.held[key].token;
    if OpenClaim(s'.history, id) == Some(token) {
      OpenStays(s.history, s'.history, id, token);
      assert KeepsCount(s, s', id);
    }
  }

  lemma CoverKept(s: State, s': State, w: Name, wk: Worker, id: RowId)
    requires TakesNothing(s.history, s'.history, w)
    requires Covers(wk, w, id, s.history)
    ensures Covers(wk, w, id, s'.history)
  {
    if s'.history != s.history {
      OpenAfter(s.history, s'.history[|s.history|], id);
    }
  }

  lemma LeaseKept(s: State, s': State, w: Name, key: Name, token: nat, until: int)
    requires RowsFollow(s) && Grows(s.history, s'.history) && s.now <= s'.now
    requires token < |s.history| && s.history[token].Claimed? && s.history[token].worker == w
    requires KeepsLease(s, s', w, FleetRow(key))
    requires LeaseStands(s, FleetRow(key), token, until)
    ensures LeaseStands(s', FleetRow(key), token, until)
  {
    var id := FleetRow(key);
    if RemovedSince(s.history, id, token) {
      if s'.history != s.history {
        RemovedStays(s.history, s'.history[|s.history|], id, token);
      }
    } else if s.now <= until {
      OwnerIsOpen(s, w, id);
    }
  }

  /** A task that the step leaves as it is. */
  lemma TaskKept(s: State, s': State, w: Name, wk': Worker, key: Name)
    requires Inv(s) && w in s.workers && key in s.workers[w].tasks && key in wk'.tasks
    requires wk'.tasks[key] == s.workers[w].tasks[key]
    requires key in s.workers[w].held ==> key in wk'.held && wk'.held[key] == s.workers[w].held[key]
    requires TakesNothing(s.history, s'.history, w) && s.now <= s'.now && KeepsLease(s, s', w, FleetRow(key))
    ensures TaskFollows(s', w, wk', key)
  {
    var wk := s.workers[w];
    assert TaskFollows(s, w, wk, key);
    assert HeldFollows(wk.held[key], key, w, wk.since, s.history);
    var t := wk.tasks[key];
    if s'.history != s.history {
      NewestByAfter(s.history, s'.history[|s.history|], w, FleetRow(key));
    }
    if t.stage.Fitting? && t.stage.until.Some? {
      LeaseKept(s, s', w, key, t.held.token, t.stage.until.value);
    }
  }

  /** What other workers and the operator do leaves `w`'s memory right. */
  lemma BystanderFollows(s: State, s': State, w: Name)
    requires Inv(s) && w in s.workers && s.now <= s'.now
    requires TakesNothing(s.history, s'.history, w) && KeepsCounts(s, s')
    requires forall key :: key in s.workers[w].tasks ==> KeepsLease(s, s', w, FleetRow(key))
    ensures WorkerFollows(s', w, s.workers[w])
  {
    var wk := s.workers[w];
    assert WorkerFollows(s, w, wk);
    forall k | k in wk.held
      ensures HeldFollows(wk.held[k], k, w, wk.since, s'.history) && CountFollows(wk.held[k], k, s')
    {
      HeldKept(s, s', w, wk, k);
    }
    forall id
      ensures Covers(wk, w, id, s'.history)
    {
      CoverKept(s, s', w, wk, id);
    }
    forall k | k in wk.tasks
      ensures TaskFollows(s', w, wk, k)
    {
      TaskKept(s, s', w, wk, k);
    }
  }

  // Steps that belong to no worker.

  lemma RowsFollowAppended(s: State, s': State, e: Event)
    requires RowsFollow(s) && s'.history == s.history + [e] && s'.now == s.now && !e.Claimed?
    requires forall id :: id in s'.rows ==> if Closes(e, id) then
                                              RowFollows(s'.rows[id], id, s'.history, s.now)
                                            else id in s.rows && s'.rows[id] == s.rows[id]
    requires forall id :: id in s.rows && id !in s'.rows ==> Closes(e, id)
    ensures RowsFollow(s') && KeepsCounts(s, s')
  {
    forall id
      ensures id in s'.rows ==> RowFollows(s'.rows[id], id, s'.history, s'.now)
      ensures OpenClaim(s'.history, id).Some? ==> id in s'.rows
      ensures KeepsCount(s, s', id)
    {
      OpenAfter(s.history, e, id);
      if !Closes(e, id) && id in s.rows {
        assert RowFollows(s.rows[id], id, s.history, s.now);
      }
    }
  }

  /** Nothing happened: no event, and no row changed who claims it or its count. */
  lemma SameHistory(s: State, s': State)
    requires RowsFollow(s) && s'.history == s.history && s.now <= s'.now
    requires s'.rows.Keys == s.rows.Keys
    requires forall id :: id in s.rows ==> && s'.rows[id].claimedBy == s.rows[id].claimedBy
                                           && s'.rows[id].nextRun == s.rows[id].nextRun
                                           && (s'.rows[id].claimedUntil.Some? <==> s.rows[id].claimedUntil.Some?)
                                           && s'.rows[id].attempts == s.rows[id].attempts
    ensures RowsFollow(s') && KeepsCounts(s, s')
  {
    forall id | id in s'.rows
      ensures RowFollows(s'.rows[id], id, s'.history, s'.now)
    {
      assert RowFollows(s.rows[id], id, s.history, s.now);
    }
    forall id
      ensures KeepsCount(s, s', id)
    {}
  }

  lemma AdvanceKeeps(s: State, step: Step)
    requires Inv(s) && Enabled(s, step) && step.Advance?
    ensures Inv(Next(s, step))
  {
    var s' := Next(s, step);
    SameHistory(s, s');
    forall w | w in s'.workers
      ensures WorkerFollows(s', w, s'.workers[w])
    {
      BystanderFollows(s, s', w);
    }
  }

  lemma ScheduleKeeps(s: State, step: Step)
    requires Inv(s) && Enabled(s, step) && step.Schedule? && !step.reply.Failed?
    ensures Inv(Next(s, step))
  {
    var s' := Next(s, step);
    var e := s'.history[|s.history|];
    forall id | id in s'.rows && Closes(e, id)
      ensures RowFollows(s'.rows[id], id, s'.history, s.now)
    {
      OpenAfter(s.history, e, id);
    }
    RowsFollowAppended(s, s', e);
    forall w | w in s'.workers
      ensures WorkerFollows(s', w, s'.workers[w])
    {
      forall key | key in s.workers[w].tasks
        ensures KeepsLease(s, s', w, FleetRow(key))
      {
        OpenAfter(s.history, e, FleetRow(key));
      }
      BystanderFollows(s, s', w);
    }
  }

  lemma RemovalKeeps(s: State, step: Step)
    requires Inv(s) && Enabled(s, step) && ((step.Retire? && !step.reply.Failed?) || step.Delete?)
    ensures Inv(Next(s, step))
  {
    var s' := Next(s, step);
    var e := s'.history[|s.history|];
    RowsFollowAppended(s, s', e);
    forall w | w in s'.workers
      ensures WorkerFollows(s', w, s'.workers[w])
    {
      forall key | key in s.workers[w].tasks
        ensures KeepsLease(s, s', w, FleetRow(key))
      {
        OpenAfter(s.history, e, FleetRow(key));
      }
      BystanderFollows(s, s', w);
    }
  }

  lemma InsertKeeps(s: State, step: Step)
    requires Inv(s) && Enabled(s, step) && step.Insert?
    ensures Inv(Next(s, step))
  {
    var s' := Next(s, step);
    var e := s'.history[|s.history|];
    OpenAfter(s.history, e, step.id);
    RowsFollowAppended(s, s', e);
    forall w | w in s'.workers
      ensures WorkerFollows(s', w, s'.workers[w])
    {
      forall key | key in s.workers[w].tasks
        ensures KeepsLease(s, s', w, FleetRow(key))
      {
        OpenAfter(s.history, e, FleetRow(key));
      }
      BystanderFollows(s, s', w);
    }
  }

  lemma EditKeeps(s: State, step: Step)
    requires Inv(s) && Enabled(s, step) && step.Edit?
    ensures Inv(Next(s, step))
  {
    var s' := Next(s, step);
    SameHistory(s, s');
    forall w | w in s'.workers
      ensures WorkerFollows(s', w, s'.workers[w])
    {
      BystanderFollows(s, s', w);
    }
  }

  // A worker's own steps.

  lemma StartKeeps(s: State, step: Step)
    requires Inv(s) && Enabled(s, step) && (step.Start? || step.Crash?)
    ensures Inv(Next(s, step))
  {
    var s' := Next(s, step);
    SameHistory(s, s');
    forall w | w in s'.workers
      ensures WorkerFollows(s', w, s'.workers[w])
    {
      if w != step.w {
        BystanderFollows(s, s', w);
      } else {
        forall id
          ensures Covers(s'.workers[w], w, id, s'.history)
        {
          var open := OpenClaim(s'.history, id);
          assert open.Some? ==> open.value < |s.history|;
        }
      }
    }
  }

  lemma BreakKeeps(s: State, step: Step)
    requires Inv(s) && Enabled(s, step) && step.Break?
    ensures Inv(Next(s, step))
  {
    var s' := Next(s, step);
    SameHistory(s, s');
    forall w | w in s'.workers
      ensures WorkerFollows(s', w, s'.workers[w])
    {
      BystanderFollows(s, s', w);
      var wk, wk' := s.workers[w], s'.workers[w];
      forall id
        ensures Covers(wk', w, id, s'.history)
      {
        assert Covers(wk, w, id, s.history);
      }
      forall k | k in wk'.tasks
        ensures TaskFollows(s', w, wk', k)
      {
        assert TaskFollows(s', w, wk, k);
      }
    }
  }

  lemma ClaimedRowsFollow(s: State, step: Step)
    requires Inv(s) && Enabled(s, step) && step.Claim? && !step.reply.Failed?
    ensures RowsFollow(Next(s, step)) && KeepsCounts(s, Next(s, step))
  {
    var s' := Next(s, step);
    var e := s'.history[|s.history|];
    forall id
      ensures id in s'.rows ==> RowFollows(s'.rows[id], id, s'.history, s'.now)
      ensures OpenClaim(s'.history, id).Some? ==> id in s'.rows
      ensures KeepsCount(s, s', id)
    {
      OpenAfter(s.history, e, id);
      if id in s.rows {
        assert RowFollows(s.rows[id], id, s.history, s.now);
      }
    }
  }

  lemma EffectOfClaim(s: State, step: Step)
    requires Enabled(s, step) && step.Claim? && step.reply.Acked?
    ensures
      var s', wk := Next(s, step), s.workers[step.w];
      && s'.rows == LeaseRows(s.rows, Ids(step.batch), step.w, s.now + step.lease)
      && s'.history == s.history + [Claimed(step.w, Ids(step.batch), true)]
      && s'.workers[step.w].since == wk.since
      && s'.workers[step.w].held == wk.held + Taken(s.rows, Ids(step.batch), |s.history|)
      && forall k :: k in s'.workers[step.w].tasks ==>
                       && k in Taken(s.rows, Ids(step.batch), |s.history|)
                       && s'.workers[step.w].tasks[k] == Task(Taken(s.rows, Ids(step.batch), |s.history|)[k], Queued)
  {}

  lemma BatchIsOfFleet(s: State, step: Step, id: RowId)
    requires Enabled(s, step) && step.Claim? && id in step.batch
    ensures id == FleetRow(id.key) && id in s.rows
    ensures id.key in Taken(s.rows, Ids(step.batch), |s.history|)
  {
    assert Claimable(s.rows, id, s.now);
    assert FleetRow(id.key) in Ids(step.batch);
  }

  /** The held map after an answered claim: the batch's rows with the new token, the others as they were. */
  lemma HeldAfterClaim(s: State, step: Step, key: Name)
    requires Inv(s) && Enabled(s, step) && step.Claim? && step.reply.Acked?
    requires key in Next(s, step).workers[step.w].held
    ensures
      var s', w := Next(s, step), step.w;
      && HeldFollows(s'.workers[w].held[key], key, w, s'.workers[w].since, s'.history)
      && CountFollows(s'.workers[w].held[key], key, s')
  {
    var s', w, wk := Next(s, step), step.w, s.workers[step.w];
    EffectOfClaim(s, step);
    ClaimedRowsFollow(s, step);
    var taken := Taken(s.rows, Ids(step.batch), |s.history|);
    if key in taken {
      BatchIsOfFleet(s, step, FleetRow(key));
    } else {
      HeldKept(s, s', w, wk, key);
    }
  }

  lemma ClaimerCovers(s: State, step: Step, id: RowId)
    requires Inv(s) && Enabled(s, step) && step.Claim? && step.reply.Acked?
    ensures Covers(Next(s, step).workers[step.w], step.w, id, Next(s, step).history)
  {
    var w, wk, h := step.w, s.workers[step.w], s.history;
    var e := Claimed(w, Ids(step.batch), true);
    EffectOfClaim(s, step);
    OpenAfter(h, e, id);
    assert Covers(wk, w, id, h);
    assert id in s.rows ==> RowFollows(s.rows[id], id, h, s.now);
    if Claims(e, id) {
      BatchIsOfFleet(s, step, id);
    }
  }

  lemma ClaimerQueues(s: State, step: Step, key: Name)
    requires Inv(s) && Enabled(s, step) && step.Claim? && step.reply.Acked?
    requires key in Next(s, step).workers[step.w].tasks
    ensures TaskFollows(Next(s, step), step.w, Next(s, step).workers[step.w], key)
  {
    EffectOfClaim(s, step);
    NewestByAfter(s.history, Claimed(step.w, Ids(step.batch), true), step.w, FleetRow(key));
  }

  lemma ClaimerGoesOn(s: State, step: Step)
    requires Enabled(s, step) && step.Claim? && step.reply.Acked?
    ensures Next(s, step).workers[step.w].since == s.workers[step.w].since
    ensures |Next(s, step).history| == |s.history| + 1
  {}

  /** A claim that is answered puts every row it took into the held map. */
  lemma ClaimerFollows(s: State, step: Step)
    requires Inv(s) && Enabled(s, step) && step.Claim? && step.reply.Acked?
    ensures WorkerFollows(Next(s, step), step.w, Next(s, step).workers[step.w])
  {
    var s', w := Next(s, step), step.w;
    var wk' := s'.workers[w];
    ClaimerGoesOn(s, step);
    assert WorkerFollows(s, w, s.workers[w]);
    hide LeaseProtocol.Next, LeaseProtocol.Taken, HeldFollows, CountFollows, Covers, TaskFollows, Enabled;
    forall k | k in wk'.held
      ensures HeldFollows(wk'.held[k], k, w, wk'.since, s'.history) && CountFollows(wk'.held[k], k, s')
    {
      HeldAfterClaim(s, step, k);
    }
    forall id
      ensures Covers(wk', w, id, s'.history)
    {
      ClaimerCovers(s, step, id);
    }
    forall k | k in wk'.tasks
      ensures TaskFollows(s', w, wk', k)
    {
      ClaimerQueues(s, step, k);
    }
  }

  /** A claim whose answer is lost leaves its worker with what it knew, and with no task. */
  lemma UnansweredFollows(s: State, step: Step)
    requires Inv(s) && Enabled(s, step) && step.Claim? && step.reply.Lost?
    ensures WorkerFollows(Next(s, step), step.w, Next(s, step).workers[step.w])
  {
    var s', w, wk := Next(s, step), step.w, s.workers[step.w];
    ClaimedRowsFollow(s, step);
    assert WorkerFollows(s, w, wk);
    forall k | k in wk.held
      ensures HeldFollows(wk.held[k], k, w, wk.since, s'.history) && CountFollows(wk.held[k], k, s')
    {
      HeldKept(s, s', w, wk, k);
    }
    forall id
      ensures Covers(wk, w, id, s'.history)
    {
      assert Covers(wk, w, id, s.history);
      OpenAfter(s.history, s'.history[|s.history|], id);
    }
  }

  lemma ClaimKeepsLease(s: State, step: Step, v: Name, key: Name)
    requires Inv(s) && Enabled(s, step) && step.Claim? && !step.reply.Failed?
    ensures KeepsLease(s, Next(s, step), v, FleetRow(key))
  {
    var e := Claimed(step.w, Ids(step.batch), step.reply.Acked?);
    OpenAfter(s.history, e, FleetRow(key));
    if Claims(e, FleetRow(key)) {
      assert Claimable(s.rows, FleetRow(key), s.now);
    }
  }

  lemma BystandersOfClaim(s: State, step: Step)
    requires Enabled(s, step) && step.Claim? && !step.reply.Failed?
    ensures
      var s' := Next(s, step);
      && s'.now == s.now
      && forall w :: w in s'.workers && w != step.w ==>
                       w in s.workers && s'.workers[w] == s.workers[w] && TakesNothing(s.history, s'.history, w)
  {}

  lemma ClaimKeeps(s: State, step: Step)
    requires Inv(s) && Enabled(s, step) && step.Claim? && !step.reply.Failed?
    ensures Inv(Next(s, step))
  {
    var s' := Next(s, step);
    ClaimedRowsFollow(s, step);
    if step.reply.Acked? {
      ClaimerFollows(s, step);
    } else {
      UnansweredFollows(s, step);
    }
    BystandersOfClaim(s, step);
    hide LeaseProtocol.Next, RowsFollow, WorkerFollows, KeepsLease, KeepsCounts, Enabled;
    forall w | w in s'.workers && w != step.w
      ensures WorkerFollows(s', w, s'.workers[w])
    {
      forall key | key in s.workers[w].tasks
        ensures KeepsLease(s, s', w, FleetRow(key))
      {
        ClaimKeepsLease(s, step, w, key);
      }
      BystanderFollows(s, s', w);
    }
  }

  lemma EffectOfExtend(s: State, step: Step)
    requires Inv(s) && Enabled(s, step) && step.Extend?
    ensures
      var s', id := Next(s, step), FleetRow(step.key);
      && s'.rows == (if step.reply.Failed? then s.rows else ExtendRow(s.rows, id, step.w, s.now + step.lease))
      && s'.history == s.history && s'.now == s.now
  {
    hide OpenClaim, NewestClaimBy, LeaseStands, RowFollows, Covers, CountFollows;
    var wk := s.workers[step.w];
    assert TaskFollows(s, step.w, wk, step.key);
    assert HeldFollows(wk.held[step.key], step.key, step.w, wk.since, s.history);
  }

  /** What an extension does to a row: at most a lease end that was there moves. */
  lemma ExtendedRow(s: State, owned: RowId, w: Name, until: int, id: RowId)
    requires RowsFollow(s)
    ensures
      var t, t' := s.rows, ExtendRow(s.rows, owned, w, until);
      && (id in t' <==> id in t)
      && (id in t ==>
            && t'[id].claimedBy == t[id].claimedBy && t'[id].nextRun == t[id].nextRun
            && t'[id].attempts == t[id].attempts && (t'[id].claimedUntil.Some? <==> t[id].claimedUntil.Some?))
  {
    if id in s.rows {
      assert RowFollows(s.rows[id], id, s.history, s.now);
    }
  }

  lemma ExtendedRowsFollow(s: State, step: Step)
    requires Inv(s) && Enabled(s, step) && step.Extend?
    ensures RowsFollow(Next(s, step)) && KeepsCounts(s, Next(s, step))
  {
    var s' := Next(s, step);
    EffectOfExtend(s, step);
    hide LeaseProtocol.Next, Enabled, ExtendRow;
    forall id
      ensures id in s'.rows <==> id in s.rows
      ensures id in s.rows ==> && s'.rows[id].claimedBy == s.rows[id].claimedBy
                               && s'.rows[id].nextRun == s.rows[id].nextRun
                               && s'.rows[id].attempts == s.rows[id].attempts
                               && (s'.rows[id].claimedUntil.Some? <==> s.rows[id].claimedUntil.Some?)
    {
      ExtendedRow(s, FleetRow(step.key), step.w, s.now + step.lease, id);
    }
    SameHistory(s, s');
  }

  /** An extension touches no lease but the one it extends. */
  lemma ExtendKeepsOtherLeases(s: State, step: Step, v: Name, key: Name)
    requires Inv(s) && Enabled(s, step) && step.Extend?
    requires v != step.w || key != step.key
    ensures KeepsLease(s, Next(s, step), v, FleetRow(key))
  {
    var wk := s.workers[step.w];
    assert TaskFollows(s, step.w, wk, step.key);
    assert HeldFollows(wk.held[step.key], step.key, step.w, wk.since, s.history);
  }

  lemma ExtenderFollows(s: State, step: Step, key: Name)
    requires Inv(s) && Enabled(s, step) && step.Extend?
    requires key in Next(s, step).workers[step.w].tasks
    ensures TaskFollows(Next(s, step), step.w, Next(s, step).workers[step.w], key)
  {
    var s', w, wk := Next(s, step), step.w, s.workers[step.w];
    assert TaskFollows(s, w, wk, key);
    assert HeldFollows(wk.held[key], key, w, wk.since, s.history);
    if key == step.key {
      GuardIsFence(s, w, key);
    } else {
      ExtendKeepsOtherLeases(s, step, w, key);
      TaskKept(s, s', w, s'.workers[w], key);
    }
  }

  lemma ExtendKeeps(s: State, step: Step)
    requires Inv(s) && Enabled(s, step) && step.Extend?
    ensures Inv(Next(s, step))
  {
    var s', w := Next(s, step), step.w;
    ExtendedRowsFollow(s, step);
    forall v | v in s'.workers && v != w
      ensures WorkerFollows(s', v, s'.workers[v])
    {
      forall key | key in s.workers[v].tasks
        ensures KeepsLease(s, s', v, FleetRow(key))
      {
        ExtendKeepsOtherLeases(s, step, v, key);
      }
      BystanderFollows(s, s', v);
    }
    ExtenderRemembers(s, step);
  }

  lemma ExtenderRemembers(s: State, step: Step)
    requires Inv(s) && Enabled(s, step) && step.Extend?
    ensures WorkerFollows(Next(s, step), step.w, Next(s, step).workers[step.w])
  {
    var s', w, wk := Next(s, step), step.w, s.workers[step.w];
    ExtendedRowsFollow(s, step);
    assert WorkerFollows(s, w, wk);
    forall k | k in wk.held
      ensures HeldFollows(wk.held[k], k, w, wk.since, s'.history) && CountFollows(wk.held[k], k, s')
    {
      HeldKept(s, s', w, wk, k);
    }
    forall id
      ensures Covers(s'.workers[w], w, id, s'.history)
    {
      assert Covers(wk, w, id, s.history);
    }
    forall k | k in s'.workers[w].tasks
      ensures TaskFollows(s', w, s'.workers[w], k)
    {
      ExtenderFollows(s, step, k);
    }
  }

  /** `wk'` is the worker after a finish of `hd`: the claim's task is gone, and the claim too if the answer came. */
  ghost predicate LetsGo(wk: Worker, wk': Worker, hd: Held, reply: Reply) {
    var key := hd.claim.key;
    && key in wk.held && wk.held[key] == hd
    && wk'.since == wk.since && wk'.held == Unhold(wk.held, key, reply)
    && forall k :: k in wk'.tasks ==> k != key && k in wk.tasks && wk'.tasks[k] == wk.tasks[k]
  }

  /** A finish or a release: the row, if it is still owned, gets the outcome and loses the claim. */
  lemma DoneKeeps(s: State, w: Name, hd: Held, outcome: Outcome, next: int, status: Status, reply: Reply, wk': Worker)
    requires Inv(s) && w in s.workers && LetsGo(s.workers[w], wk', hd, reply)
    ensures Inv(DoneState(s, w, hd.claim, outcome, next, status, reply, wk'))
  {
    var s', wk := DoneState(s, w, hd.claim, outcome, next, status, reply, wk'), s.workers[w];
    var id := FleetRow(hd.claim.key);
    assert HeldFollows(hd, hd.claim.key, w, wk.since, s.history);
    DoneRowsFollow(s, w, hd, outcome, next, status, reply, wk');
    forall v | v in s'.workers && v != w
      ensures WorkerFollows(s', v, s'.workers[v])
    {
      forall key | key in s.workers[v].tasks
        ensures KeepsLease(s, s', v, FleetRow(key))
      {
        DoneKeepsOtherLease(s, w, hd, outcome, next, status, reply, wk', v, key);
      }
      BystanderFollows(s, s', v);
    }
    FinisherFollows(s, w, hd, outcome, next, status, reply, wk');
  }

  lemma FinisherFollows(s: State, w: Name, hd: Held, outcome: Outcome, next: int, status: Status, reply: Reply,
                        wk': Worker)
    requires Inv(s) && w in s.workers && LetsGo(s.workers[w], wk', hd, reply)
    ensures WorkerFollows(DoneState(s, w, hd.claim, outcome, next, status, reply, wk'), w, wk')
  {
    var s', wk := DoneState(s, w, hd.claim, outcome, next, status, reply, wk'), s.workers[w];
    assert HeldFollows(hd, hd.claim.key, w, wk.since, s.history);
    DoneRowsFollow(s, w, hd, outcome, next, status, reply, wk');
    forall k | k in wk'.held
      ensures HeldFollows(wk'.held[k], k, w, wk'.since, s'.history) && CountFollows(wk'.held[k], k, s')
    {
      HeldKept(s, s', w, wk, k);
    }
    forall id
      ensures Covers(wk', w, id, s'.history)
    {
      FinisherCovers(s, w, hd, outcome, next, status, reply, wk', id);
    }
    forall k | k in wk'.tasks
      ensures TaskFollows(s', w, wk', k)
    {
      FinisherKeepsTask(s, w, hd, outcome, next, status, reply, wk', k);
    }
  }

  /** Dropping the claim is safe: whichever way an answered finish went, no claim of the worker's is open there. */
  lemma FinisherCovers(s: State, w: Name, hd: Held, outcome: Outcome, next: int, status: Status, reply: Reply,
                       wk': Worker, id: RowId)
    requires Inv(s) && w in s.workers && LetsGo(s.workers[w], wk', hd, reply)
    ensures Covers(wk', w, id, DoneState(s, w, hd.claim, outcome, next, status, reply, wk').history)
  {
    var s', wk := DoneState(s, w, hd.claim, outcome, next, status, reply, wk'), s.workers[w];
    var own := FleetRow(hd.claim.key);
    assert HeldFollows(hd, hd.claim.key, w, wk.since, s.history);
    OpenAfter(s.history, Finished(own, outcome), id);
    OwnerIsOpen(s, w, id);
    assert Covers(wk, w, id, s.history);
  }

  lemma DoneGrows(s: State, w: Name, hd: Held, outcome: Outcome, next: int, status: Status, reply: Reply, wk': Worker)
    ensures
      var s' := DoneState(s, w, hd.claim, outcome, next, status, reply, wk');
      TakesNothing(s.history, s'.history, w) && s'.now == s.now
  {}

  lemma FinisherKeepsTask(s: State, w: Name, hd: Held, outcome: Outcome, next: int, status: Status, reply: Reply,
                          wk': Worker, key: Name)
    requires Inv(s) && w in s.workers && LetsGo(s.workers[w], wk', hd, reply) && key in wk'.tasks
    ensures TaskFollows(DoneState(s, w, hd.claim, outcome, next, status, reply, wk'), w, wk', key)
  {
    var s', wk := DoneState(s, w, hd.claim, outcome, next, status, reply, wk'), s.workers[w];
    assert HeldFollows(hd, hd.claim.key, w, wk.since, s.history);
    DoneGrows(s, w, hd, outcome, next, status, reply, wk');
    assert key in wk.held ==> key in wk'.held && wk'.held[key] == wk.held[key];
    hide OpenClaim, NewestClaimBy, LeaseStands, RowFollows, Covers, CountFollows, KeepsLease, TaskFollows, Inv;
    hide DoneState, TakesNothing, Unhold;
    DoneKeepsOtherLease(s, w, hd, outcome, next, status, reply, wk', w, key);
    TaskKept(s, s', w, wk', key);
  }

  lemma DoneKeepsOtherLease(s: State, w: Name, hd: Held, outcome: Outcome, next: int, status: Status, reply: Reply,
                            wk': Worker, v: Name, key: Name)
    requires hd.claim.org == FLEET_ORG && (key != hd.claim.key || v != w)
    ensures KeepsLease(s, DoneState(s, w, hd.claim, outcome, next, status, reply, wk'), v, FleetRow(key))
  {
    OpenAfter(s.history, Finished(FleetRow(hd.claim.key), outcome), FleetRow(key));
  }

  lemma DoneRowsFollow(s: State, w: Name, hd: Held, outcome: Outcome, next: int, status: Status, reply: Reply,
                       wk': Worker)
    requires Inv(s) && w in s.workers && LetsGo(s.workers[w], wk', hd, reply)
    ensures RowsFollow(DoneState(s, w, hd.claim, outcome, next, status, reply, wk'))
    ensures KeepsCounts(s, DoneState(s, w, hd.claim, outcome, next, status, reply, wk'))
  {
    var s' := DoneState(s, w, hd.claim, outcome, next, status, reply, wk');
    var wk, id := s.workers[w], FleetRow(hd.claim.key);
    assert HeldFollows(hd, hd.claim.key, w, wk.since, s.history);
    if s'.history != s.history {
      var e := Finished(id, outcome);
      OpenAfter(s.history, e, id);
      RowsFollowAppended(s, s', e);
    } else {
      SameHistory(s, s');
    }
  }

  lemma FinishKeeps(s: State, step: Step)
    requires Inv(s) && Enabled(s, step) && step.Finish?
    ensures Inv(Next(s, step))
  {
    var wk := s.workers[step.w];
    assert TaskFollows(s, step.w, wk, step.key);
    assert HeldFollows(wk.held[step.key], step.key, step.w, wk.since, s.history);
    DoneKeeps(s, step.w, wk.held[step.key], step.outcome, step.next, step.status, step.reply,
              Next(s, step).workers[step.w]);
  }

  lemma ReleaseKeeps(s: State, step: Step)
    requires Inv(s) && Enabled(s, step) && step.Release?
    ensures Inv(Next(s, step))
  {
    var wk := s.workers[step.w];
    assert HeldFollows(wk.held[step.key], step.key, step.w, wk.since, s.history);
    DoneKeeps(s, step.w, wk.held[step.key], Interrupted, step.next, Errored("interrupted", 0), step.reply,
              Next(s, step).workers[step.w]);
  }

  /** Every step keeps the invariant. */
  lemma StepKeeps(s: State, step: Step)
    requires Inv(s) && Enabled(s, step)
    ensures Inv(Next(s, step))
  {
    match step
    case Start(_) => StartKeeps(s, step);
    case Crash(_) => StartKeeps(s, step);
    case Advance(_) => AdvanceKeeps(s, step);
    case Schedule(_, _, _, reply) => if !reply.Failed? { ScheduleKeeps(s, step); }
    case Claim(_, _, _, _, _, reply) => if !reply.Failed? { ClaimKeeps(s, step); }
    case Break(_) => BreakKeeps(s, step);
    case Extend(_, _, _, _) => ExtendKeeps(s, step);
    case Finish(_, _, _, _, _, _) => FinishKeeps(s, step);
    case Release(_, _, _, _) => ReleaseKeeps(s, step);
    case Retire(_, reply) => if !reply.Failed? { RemovalKeeps(s, step); }
    case Insert(_, _, _, _, _) => InsertKeeps(s, step);
    case Edit(_, _, _, _, _) => EditKeeps(s, step);
    case Delete(_) => RemovalKeeps(s, step);
  }

  lemma {:induction false} RunKeeps(r: Run, n: nat)
    requires IsRun(r) && n < |r.states|
    ensures Inv(r.states[n])
  {
    if n > 0 {
      RunKeeps(r, n - 1);
      StepKeeps(r.states[n - 1], r.steps[n - 1]);
    }
  }
}
