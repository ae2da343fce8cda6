/** What holds of every run of the claim protocol. */
module LeaseTheorems {
  import opened Basics
  import opened Names
  import opened RetrainTable
  import opened LeaseProtocol
  import opened LeaseInvariant

  // Fencing.

  /** The open claim without recursion: a claim of the row that nothing has closed or replaced since. */
  lemma {:induction false} OpenClaimIff(h: History, id: RowId, i: nat)
    ensures OpenClaim(h, id) == Some(i) <==>
            i < |h| && Claims(h[i], id) && forall j :: i < j < |h| ==> !Claims(h[j], id) && !Closes(h[j], id)
  {
    if h != [] {
      var last := |h| - 1;
      OpenClaimIff(h[..last], id, i);
      if i < last {
        assert forall j :: 0 <= j < last ==> h[..last][j] == h[j];
      }
    }
  }

  /** A statement that finishes or extends a remembered claim. */
  predicate UsesClaim(step: Step) {
    step.Extend? || step.Finish? || step.Release?
  }

  ghost function ClaimUsed(s: State, step: Step): Held
    requires UsesClaim(step) && Enabled(s, step)
  {
    if step.Release? then s.workers[step.w].held[step.key] else s.workers[step.w].tasks[step.key].held
  }

  lemma UsedIsHeld(s: State, step: Step)
    requires Inv(s) && UsesClaim(step) && Enabled(s, step)
    ensures step.key in s.workers[step.w].held && s.workers[step.w].held[step.key] == ClaimUsed(s, step)
    ensures ClaimUsed(s, step).claim.key == step.key && ClaimUsed(s, step).claim.org == FLEET_ORG
    ensures !step.Release? ==> step.key in s.workers[step.w].tasks
  {
    var wk := s.workers[step.w];
    if !step.Release? {
      assert TaskFollows(s, step.w, wk, step.key);
    }
    assert HeldFollows(wk.held[step.key], step.key, step.w, wk.since, s.history);
  }

  function OutcomeOf(step: Step): Outcome
    requires step.Finish? || step.Release?
  {
    if step.Finish? then step.outcome else Interrupted
  }

  function StatusOf(step: Step): Status
    requires step.Finish? || step.Release?
  {
    if step.Finish? then step.status else Errored("interrupted", 0)
  }

  // What such a statement does to the table and the history, in terms of the row it addresses.

  lemma EffectOfDone(s: State, step: Step)
    requires Inv(s) && (step.Finish? || step.Release?) && Enabled(s, step)
    ensures
      var s', id := Next(s, step), FleetRow(step.key);
      && s'.rows == (if step.reply.Failed? then s.rows
                     else DoneRow(s.rows, id, step.w, step.next, s.now, StatusOf(step),
                                  AttemptsAfter(ClaimUsed(s, step).claim, OutcomeOf(step))))
      && s'.history == Log(s.history, !step.reply.Failed? && OwnedBy(s.rows, id, step.w), Finished(id, OutcomeOf(step)))
      && s'.now == s.now
  {
    UsedIsHeld(s, step);
  }

  lemma EffectOfUse(s: State, step: Step)
    requires Inv(s) && UsesClaim(step) && Enabled(s, step)
    ensures
      var s', id := Next(s, step), FleetRow(step.key);
      && s'.now == s.now
      && (step.reply.Failed? || !OwnedBy(s.rows, id, step.w) ==> s'.rows == s.rows && s'.history == s.history)
      && (forall other :: other != id ==> (other in s'.rows <==> other in s.rows)
                                          && (other in s.rows ==> s'.rows[other] == s.rows[other]))
  {
    if step.Extend? {
      EffectOfExtend(s, step);
    } else {
      EffectOfDone(s, step);
    }
  }

  /**
   * The guard of everything below: the row's open claim is the releasing worker's own, and the answer of that claim was
   * lost. What the worker releases is then an older claim of the row, which it still holds.
   */
  predicate ReleasesUnanswered(s: State, step: Step) {
    step.Release? && !step.reply.Failed? &&
    var open := OpenClaim(s.history, FleetRow(step.key));
    open.Some? && s.history[open.value].worker == step.w && !s.history[open.value].answered
  }

  ghost predicate Changes(s: State, s': State) {
    s'.rows != s.rows || s'.history != s.history
  }

  lemma UseIsFenced(s: State, step: Step)
    requires Inv(s) && UsesClaim(step) && Enabled(s, step)
    ensures
      var id, token, open := FleetRow(step.key), ClaimUsed(s, step).token, OpenClaim(s.history, FleetRow(step.key));
      && (Changes(s, Next(s, step)) ==> !step.reply.Failed? && OwnedBy(s.rows, id, step.w))
      && (OwnedBy(s.rows, id, step.w) && !step.reply.Failed? ==>
            (open == Some(token) <==> !ReleasesUnanswered(s, step)))
      && (ReleasesUnanswered(s, step) ==>
            Changes(s, Next(s, step)) && open.value > token && NewestClaim(s.history, id) == open)
      && (open == Some(token) ==>
            NewestClaim(s.history, id) == open && OwnedBy(s.rows, id, step.w) && s.history[token].worker == step.w)
  {
    var id := FleetRow(step.key);
    UsedIsHeld(s, step);
    EffectOfUse(s, step);
    GuardIsFence(s, step.w, step.key);
    OpenIsNewest(s.history, id);
    OwnerIsOpen(s, step.w, id);
    HeldIsAnswered(s, step.w, step.key);
    if step.Release? {
      EffectOfDone(s, step);
    }
  }

  lemma HeldIsAnswered(s: State, w: Name, key: Name)
    requires Inv(s) && w in s.workers && key in s.workers[w].held
    ensures
      var token := s.workers[w].held[key].token;
      && s.workers[w].since <= token < |s.history|
      && Claims(s.history[token], FleetRow(key)) && s.history[token].worker == w && s.history[token].answered
  {
    assert HeldFollows(s.workers[w].held[key], key, w, s.workers[w].since, s.history);
  }

  /**
   * A finish or extension changes the table only as the holder of the row's newest claim; a release does so exactly
   * unless that claim is the worker's own and its answer was lost. Nothing but the one row is touched.
   */
  lemma WritesAreFenced(r: Run, n: nat)
    requires IsRun(r) && n < |r.steps| && UsesClaim(r.steps[n])
    ensures
      var s, s', step := r.states[n], r.states[n + 1], r.steps[n];
      var id, token := FleetRow(step.key), ClaimUsed(s, step).token;
      && ((Changes(s, s') ==> NewestClaim(s.history, id) == Some(token) && s.history[token].worker == step.w)
          <==> !ReleasesUnanswered(s, step))
      && (ReleasesUnanswered(s, step) ==> NewestClaim(s.history, id).Some? && NewestClaim(s.history, id).value > token)
      && (Changes(s, s') ==> !step.reply.Failed?)
      && (forall other :: other != id ==> (other in s'.rows <==> other in s.rows)
                                          && (other in s.rows ==> s'.rows[other] == s.rows[other]))
  {
    RunKeeps(r, n);
    UseIsFenced(r.states[n], r.steps[n]);
    EffectOfUse(r.states[n], r.steps[n]);
  }

  /**
   * Once the claim was finished, replaced, or its row removed or re-created, using it does nothing, exactly unless it
   * is released while a newer claim of the same worker went unanswered.
   */
  lemma StaleIsNoOp(r: Run, n: nat, i: nat)
    requires IsRun(r) && n < |r.steps| && UsesClaim(r.steps[n])
    requires ClaimUsed(r.states[n], r.steps[n]).token < i < |r.states[n].history|
    requires
      var e, id := r.states[n].history[i], FleetRow(r.steps[n].key);
      Claims(e, id) || Closes(e, id)
    ensures !Changes(r.states[n], r.states[n + 1]) <==> !ReleasesUnanswered(r.states[n], r.steps[n])
  {
    var s, step := r.states[n], r.steps[n];
    RunKeeps(r, n);
    UseIsFenced(s, step);
    OpenClaimIff(s.history, FleetRow(step.key), ClaimUsed(s, step).token);
  }

  /** An unanswered claim in the history is a claim step of the run whose answer was lost. */
  lemma {:induction false} UnansweredWasLost(r: Run, n: nat, i: nat) returns (j: nat)
    requires IsRun(r) && n < |r.states| && i < |r.states[n].history|
    requires r.states[n].history[i].Claimed? && !r.states[n].history[i].answered
    ensures j < n && r.steps[j].Claim? && r.steps[j].reply.Lost? && r.steps[j].w == r.states[n].history[i].worker
    ensures Ids(r.steps[j].batch) == r.states[n].history[i].ids
  {
    var before := r.states[n - 1];
    if i < |before.history| {
      HistoryGrows(before, r.steps[n - 1]);
      j := UnansweredWasLost(r, n - 1, i);
    } else {
      j := n - 1;
    }
  }

  lemma HistoryGrows(s: State, step: Step)
    requires Enabled(s, step)
    ensures Grows(s.history, Next(s, step).history)
  {}

  /** Only a run that lost the answer of a claim of the row can come to the exception above. */
  lemma ExceptionNeedsLostClaim(r: Run, n: nat) returns (j: nat)
    requires IsRun(r) && n < |r.steps| && ReleasesUnanswered(r.states[n], r.steps[n])
    ensures j < n && r.steps[j].Claim? && r.steps[j].reply.Lost? && r.steps[j].w == r.steps[n].w
    ensures FleetRow(r.steps[n].key) in r.steps[j].batch
  {
    var h := r.states[n].history;
    var open := OpenClaim(h, FleetRow(r.steps[n].key)).value;
    j := UnansweredWasLost(r, n, open);
    assert FleetRow(r.steps[n].key) in Ids(r.steps[j].batch);
  }

  /** The whole row after a finish or release of its current claim. */
  ghost predicate Settled(row: Row, row': Row, step: Step, now: int)
    requires step.Finish? || step.Release?
  {
    row' == row.(claimedBy := None, claimedUntil := None, nextRun := Some(step.next), lastRun := Some(now),
                 lastStatus := if step.Finish? then step.status else Errored("interrupted", 0),
                 attempts := if step.Release? || step.outcome.Interrupted? then row.attempts
                             else if step.outcome.Success? then 0
                             else row.attempts + 1)
  }

  /** The holder of the newest claim, while nothing has closed it, owns the row and knows its count. */
  lemma CurrentOwns(s: State, w: Name, key: Name)
    requires Inv(s) && w in s.workers && key in s.workers[w].held
    requires
      var hd := s.workers[w].held[key];
      NewestClaim(s.history, FleetRow(key)) == Some(hd.token)
      && forall i :: hd.token < i < |s.history| ==> !Closes(s.history[i], FleetRow(key))
    ensures OwnedBy(s.rows, FleetRow(key), w)
    ensures s.workers[w].held[key].claim.attempts == s.rows[FleetRow(key)].attempts
  {
    var id, hd := FleetRow(key), s.workers[w].held[key];
    GuardIsFence(s, w, key);
    HeldIsAnswered(s, w, key);
    assert forall j :: hd.token < j < |s.history| ==> !Claims(s.history[j], id);
    OpenClaimIff(s.history, id, hd.token);
    assert CountFollows(hd, key, s);
  }

  /** The statement uses the row's newest claim, and nothing has closed it. */
  ghost predicate UsesCurrentClaim(s: State, step: Step)
    requires UsesClaim(step) && Enabled(s, step)
  {
    && NewestClaim(s.history, FleetRow(step.key)) == Some(ClaimUsed(s, step).token)
    && forall i :: ClaimUsed(s, step).token < i < |s.history| ==> !Closes(s.history[i], FleetRow(step.key))
  }

  lemma CurrentTakesEffect(s: State, step: Step)
    requires Inv(s) && UsesClaim(step) && Enabled(s, step) && !step.reply.Failed? && UsesCurrentClaim(s, step)
    ensures
      var s', id := Next(s, step), FleetRow(step.key);
      && id in s.rows && id in s'.rows
      && if step.Extend? then s'.rows[id] == s.rows[id].(claimedUntil := Some(s.now + step.lease))
         else Settled(s.rows[id], s'.rows[id], step, s.now)
  {
    UsedIsHeld(s, step);
    CurrentOwns(s, step.w, step.key);
    if step.Extend? {
      EffectOfExtend(s, step);
    } else {
      EffectOfDone(s, step);
    }
  }

  /** A current claim is not turned away: what the statement asks for happens unless the statement fails. */
  lemma CurrentIsHonoured(r: Run, n: nat)
    requires IsRun(r) && n < |r.steps| && UsesClaim(r.steps[n]) && !r.steps[n].reply.Failed?
    requires UsesCurrentClaim(r.states[n], r.steps[n])
    ensures
      var s, s', step, id := r.states[n], r.states[n + 1], r.steps[n], FleetRow(r.steps[n].key);
      && id in s.rows && id in s'.rows
      && if step.Extend? then s'.rows[id] == s.rows[id].(claimedUntil := Some(s.now + step.lease))
         else Settled(s.rows[id], s'.rows[id], step, s.now)
  {
    RunKeeps(r, n);
    hide Inv, LeaseProtocol.Next, Enabled, UsesCurrentClaim, Settled;
    CurrentTakesEffect(r.states[n], r.steps[n]);
  }

  // Coverage of the held map.

  /**
   * A row under a live worker's name is in its held map, with that very claim, exactly if this process made the claim
   * and the answer arrived; the count it carries is then the row's.
   */
  lemma HeldCoverage(r: Run, n: nat, w: Name, id: RowId)
    requires IsRun(r) && n < |r.states|
    requires w in r.states[n].workers && OwnedBy(r.states[n].rows, id, w)
    ensures
      var s := r.states[n];
      var wk, newest := s.workers[w], NewestClaim(s.history, id);
      && newest.Some? && s.history[newest.value].worker == w && id == FleetRow(id.key)
      && (Remembers(wk, id, newest.value) <==> wk.since <= newest.value && s.history[newest.value].answered)
      && (Remembers(wk, id, newest.value) ==>
            && wk.held[id.key].claim.key == id.key
            && wk.held[id.key].claim.attempts == s.rows[id].attempts)
  {
    var s := r.states[n];
    RunKeeps(r, n);
    OwnerIsOpen(s, w, id);
    OpenIsNewest(s.history, id);
    assert Covers(s.workers[w], w, id, s.history);
    if id.key in s.workers[w].held {
      HeldIsAnswered(s, w, id.key);
      assert HeldFollows(s.workers[w].held[id.key], id.key, w, s.workers[w].since, s.history);
      assert CountFollows(s.workers[w].held[id.key], id.key, s);
    }
  }

  /** When a worker remembers nothing, a row under its name is from an earlier life, or its claim went unanswered. */
  lemma NothingHeldNothingClaimed(r: Run, n: nat, w: Name, id: RowId)
    requires IsRun(r) && n < |r.states|
    requires w in r.states[n].workers && r.states[n].workers[w].held == map[]
    requires OwnedBy(r.states[n].rows, id, w)
    ensures
      var s, newest := r.states[n], NewestClaim(r.states[n].history, id);
      newest.Some? && (newest.value < s.workers[w].since || !s.history[newest.value].answered)
  {
    HeldCoverage(r, n, w, id);
  }

  /**
   * A released row is unclaimed, with its count unchanged unless the release is the exception, and it is due at once
   * exactly when it is enabled, not superseded, and the releasing worker's clock is not ahead of the database's.
   */
  lemma ReleasedRowIsDue(r: Run, n: nat)
    requires IsRun(r) && n < |r.steps| && r.steps[n].Release? && !r.steps[n].reply.Failed?
    requires OwnedBy(r.states[n].rows, FleetRow(r.steps[n].key), r.steps[n].w)
    ensures
      var s, s', step, id := r.states[n], r.states[n + 1], r.steps[n], FleetRow(r.steps[n].key);
      && id in s'.rows && s'.rows[id].claimedBy.None? && s'.rows[id].attempts == ClaimUsed(s, step).claim.attempts
      && (!ReleasesUnanswered(s, step) ==> s'.rows[id].attempts == s.rows[id].attempts)
      && (Due(s'.rows[id], s'.now) <==> s.rows[id].enabled && !s.rows[id].superseded && step.next <= s.now)
  {
    var s, step := r.states[n], r.steps[n];
    RunKeeps(r, n);
    UsedIsHeld(s, step);
    UseIsFenced(s, step);
    EffectOfDone(s, step);
    assert CountFollows(ClaimUsed(s, step), step.key, s);
  }

  /** The worker knows every open claim it made in this life. */
  ghost predicate KnowsAll(s: State, w: Name, except: set<RowId>)
    requires w in s.workers
  {
    forall id :: id !in except && OpenInThisLife(s.workers[w], w, id, s.history) ==>
                   Remembers(s.workers[w], id, OpenClaim(s.history, id).value)
  }

  /**
   * After a claim statement its worker knows every open claim of its own, exactly if the statement did not take rows
   * and lose the answer, and the worker knew those of the rows the statement left alone.
   */
  lemma ClaimCoverageExactly(s: State, step: Step)
    requires Inv(s) && Enabled(s, step) && step.Claim?
    ensures
      var taken := if step.reply.Failed? then {} else Ids(step.batch);
      KnowsAll(Next(s, step), step.w, {}) <==>
      !(step.reply.Lost? && step.batch != []) && KnowsAll(s, step.w, taken)
  {
    if !step.reply.Failed? {
      var s', w := Next(s, step), step.w;
      if step.reply.Lost? && step.batch != [] {
        LostClaimIsUnknown(s, step);
      } else {
        forall id
          ensures id in Ids(step.batch) ==> OpenInThisLife(s'.workers[w], w, id, s'.history) ==>
                    Remembers(s'.workers[w], id, OpenClaim(s'.history, id).value)
          ensures id !in Ids(step.batch) ==>
                    ((OpenInThisLife(s'.workers[w], w, id, s'.history) ==>
                        Remembers(s'.workers[w], id, OpenClaim(s'.history, id).value)) <==>
                     (OpenInThisLife(s.workers[w], w, id, s.history) ==>
                        Remembers(s.workers[w], id, OpenClaim(s.history, id).value)))
        {
          KnowledgeAfterClaim(s, step, id);
        }
      }
    }
  }

  lemma LostClaimIsUnknown(s: State, step: Step)
    requires Inv(s) && Enabled(s, step) && step.Claim? && step.reply.Lost? && step.batch != []
    ensures !KnowsAll(Next(s, step), step.w, {})
  {
    var s', w, id := Next(s, step), step.w, step.batch[0];
    OpenAfter(s.history, Claimed(w, Ids(step.batch), false), id);
    assert WorkerFollows(s, w, s.workers[w]);
    assert OpenInThisLife(s'.workers[w], w, id, s'.history);
    if id.key in s.workers[w].held {
      assert HeldFollows(s.workers[w].held[id.key], id.key, w, s.workers[w].since, s.history);
    }
  }

  lemma KnowledgeAfterClaim(s: State, step: Step, id: RowId)
    requires Inv(s) && Enabled(s, step) && step.Claim? && !step.reply.Failed?
    requires step.reply.Lost? ==> step.batch == []
    ensures
      var s', w := Next(s, step), step.w;
      && (id in Ids(step.batch) ==>
            Remembers(s'.workers[w], id, |s.history|) && OpenClaim(s'.history, id) == Some(|s.history|))
      && (id !in Ids(step.batch) ==>
            && OpenClaim(s'.history, id) == OpenClaim(s.history, id)
            && (OpenInThisLife(s'.workers[w], w, id, s'.history) <==> OpenInThisLife(s.workers[w], w, id, s.history))
            && (OpenClaim(s.history, id).Some? ==>
                  (Remembers(s'.workers[w], id, OpenClaim(s.history, id).value) <==>
                   Remembers(s.workers[w], id, OpenClaim(s.history, id).value))))
  {
    var s', w := Next(s, step), step.w;
    OpenAfter(s.history, Claimed(w, Ids(step.batch), step.reply.Acked?), id);
    if step.reply.Acked? {
      EffectOfClaim(s, step);
      if id in step.batch {
        BatchIsOfFleet(s, step, id);
      } else if OpenClaim(s.history, id).Some? {
        assert RowFollows(s.rows[id], id, s.history, s.now);
      }
    }
  }

  // The attempt counter.

  /** Where the row's count last started from zero: just after its last success or creation. */
  function ResetAt(h: History, id: RowId): nat {
    if h == [] then 0
    else
      var e := h[|h| - 1];
      if (e.Created? && id in e.ids) || e == Finished(id, Success) then |h| else ResetAt(h[..|h| - 1], id)
  }

  function FailedFinishes(h: History, id: RowId, from: nat): set<nat> {
    set i: nat | from <= i < |h| && h[i] == Finished(id, Failure)
  }

  lemma {:induction false} FailuresAreCounted(h: History, id: RowId)
    ensures Failures(h, id) == |FailedFinishes(h, id, ResetAt(h, id))| && ResetAt(h, id) <= |h|
  {
    if h != [] {
      var last := |h| - 1;
      var before := h[..last];
      FailuresAreCounted(before, id);
      var was, from := FailedFinishes(before, id, ResetAt(before, id)), ResetAt(h, id);
      if from == |h| {
        assert FailedFinishes(h, id, from) == {};
      } else if h[last] == Finished(id, Failure) {
        assert FailedFinishes(h, id, from) == was + {last};
      } else {
        assert FailedFinishes(h, id, from) == was;
      }
    }
  }

  ghost predicate CountIsRight(s: State, id: RowId) {
    id in s.rows ==> s.rows[id].attempts == Failures(s.history, id)
  }

  /** The exception writes an older count than the row's. */
  ghost predicate Miscounts(s: State, step: Step)
    requires Enabled(s, step)
  {
    ReleasesUnanswered(s, step) && FleetRow(step.key) in s.rows
    && ClaimUsed(s, step).claim.attempts != s.rows[FleetRow(step.key)].attempts
  }

  lemma FailuresAfter(h: History, e: Event, id: RowId)
    ensures Failures(h + [e], id) == Counted(Failures(h, id), e, id)
  {
    Appended(h, e);
  }

  lemma HeldCounts(s: State, w: Name, key: Name)
    requires Inv(s) && w in s.workers && key in s.workers[w].held
    ensures CountFollows(s.workers[w].held[key], key, s)
  {}

  lemma CountAfterUse(s: State, step: Step)
    requires Inv(s) && Enabled(s, step) && (step.Finish? || step.Release?)
    requires FleetRow(step.key) in s.rows && CountIsRight(s, FleetRow(step.key))
    ensures CountIsRight(Next(s, step), FleetRow(step.key)) <==> !Miscounts(s, step)
  {
    hide LeaseProtocol.Next, Failures, OpenClaim, NewestClaim, ClaimUsed, WorkerFollows, RowFollows;
    var id := FleetRow(step.key);
    UsedIsHeld(s, step);
    UseIsFenced(s, step);
    EffectOfDone(s, step);
    OwnerIsOpen(s, step.w, id);
    HeldCounts(s, step.w, step.key);
    assert CountFollows(ClaimUsed(s, step), step.key, s);
    FailuresAfter(s.history, Finished(id, OutcomeOf(step)), id);
  }

  lemma CountAfterPlain(s: State, step: Step, id: RowId)
    requires Enabled(s, step) && CountIsRight(s, id) && !UsesClaim(step)
    ensures CountIsRight(Next(s, step), id)
  {
    hide IsBatch, Taken;
    var s' := Next(s, step);
    if s'.history != s.history {
      FailuresAfter(s.history, s'.history[|s.history|], id);
    }
  }

  lemma CountAfterOthers(s: State, step: Step, id: RowId)
    requires Inv(s) && Enabled(s, step) && CountIsRight(s, id) && UsesClaim(step)
    requires !step.Extend? && id == FleetRow(step.key) ==> id !in s.rows
    ensures CountIsRight(Next(s, step), id)
  {
    hide OpenClaim, NewestClaimBy, WorkerFollows, RowFollows, LeaseProtocol.Next, Failures, ClaimUsed;
    if step.Extend? {
      EffectOfExtend(s, step);
    } else {
      EffectOfDone(s, step);
      FailuresAfter(s.history, Finished(FleetRow(step.key), OutcomeOf(step)), id);
    }
  }

  /** Every step keeps a right count right, but for a release that miscounts. */
  lemma CountKept(s: State, step: Step, id: RowId)
    requires Inv(s) && Enabled(s, step) && CountIsRight(s, id)
    ensures CountIsRight(Next(s, step), id) <==> !(Miscounts(s, step) && id == FleetRow(step.key))
  {
    if (step.Finish? || step.Release?) && id == FleetRow(step.key) && id in s.rows {
      CountAfterUse(s, step);
    } else if UsesClaim(step) {
      CountAfterOthers(s, step, id);
    } else {
      CountAfterPlain(s, step, id);
    }
  }

  ghost predicate MiscountedBefore(r: Run, n: nat, id: RowId)
    requires IsRun(r) && n < |r.states|
  {
    exists i :: 0 <= i < n && Miscounts(r.states[i], r.steps[i]) && id == FleetRow(r.steps[i].key)
  }

  /** A count has been right all along exactly if no release miscounted it. */
  lemma {:induction false} CountsExactly(r: Run, n: nat, id: RowId)
    requires IsRun(r) && n < |r.states|
    ensures (forall i :: 0 <= i <= n ==> CountIsRight(r.states[i], id)) <==> !MiscountedBefore(r, n, id)
  {
    if n > 0 {
      CountsExactly(r, n - 1, id);
      var s, step := r.states[n - 1], r.steps[n - 1];
      RunKeeps(r, n - 1);
      MiscountedNext(r, n - 1, id);
      if CountIsRight(s, id) {
        CountKept(s, step, id);
      }
      assert r.states[n] == Next(s, step);
      hide Inv, CountIsRight, Miscounts, MiscountedBefore, LeaseProtocol.Next, Enabled;
      if forall i :: 0 <= i <= n - 1 ==> CountIsRight(r.states[i], id) {
        assert CountIsRight(r.states[n - 1], id);
      }
    }
  }

  lemma MiscountedNext(r: Run, n: nat, id: RowId)
    requires IsRun(r) && n < |r.steps|
    ensures MiscountedBefore(r, n + 1, id) <==>
            MiscountedBefore(r, n, id) || (Miscounts(r.states[n], r.steps[n]) && id == FleetRow(r.steps[n].key))
  {
    hide Miscounts, Enabled, LeaseProtocol.Next;
  }

  ghost predicate CountsFailedFinishes(s: State, id: RowId)
    requires id in s.rows
  {
    s.rows[id].attempts == |FailedFinishes(s.history, id, ResetAt(s.history, id))|
  }

  /**
   * Up to any moment of any run a row's count was always the number of failed finishes applied since its last applied
   * success or creation, exactly if no release so far miscounted it.
   */
  lemma AttemptsAreFailures(r: Run, n: nat, id: RowId)
    requires IsRun(r) && n < |r.states|
    ensures
      (forall i :: 0 <= i <= n && id in r.states[i].rows ==> CountsFailedFinishes(r.states[i], id))
      <==> !MiscountedBefore(r, n, id)
  {
    CountsExactly(r, n, id);
    forall i | 0 <= i <= n
      ensures Failures(r.states[i].history, id)
           == |FailedFinishes(r.states[i].history, id, ResetAt(r.states[i].history, id))|
    {
      FailuresAreCounted(r.states[i].history, id);
    }
  }

  // No row is stranded.

  /** The step claims, extends, finishes, releases or removes this row. */
  predicate ActsOn(step: Step, id: RowId) {
    match step
    case Claim(_, _, _, _, batch, _) => id in batch
    case Extend(_, key, _, _) => id == FleetRow(key)
    case Finish(_, key, _, _, _, _) => id == FleetRow(key)
    case Release(_, key, _, _) => id == FleetRow(key)
    case Retire(keys, _) => id.org == FLEET_ORG && id.key in keys
    case Delete(i) => i == id
    case _ => false
  }

  ghost predicate LeftAlone(r: Run, m: nat, n: nat, id: RowId)
    requires n <= |r.steps|
  {
    forall i :: m <= i < n ==> !ActsOn(r.steps[i], id)
  }

  /** The row is there, and due and claimed as it was; the operator may have edited the rest. */
  ghost predicate Kept(t: Table, t': Table, id: RowId) {
    && id in t && id in t'
    && t'[id].nextRun == t[id].nextRun && t'[id].claimedBy == t[id].claimedBy
    && t'[id].claimedUntil == t[id].claimedUntil
  }

  lemma StepLeavesRow(s: State, step: Step, id: RowId)
    requires Inv(s) && Enabled(s, step) && !ActsOn(step, id) && id in s.rows
    ensures Kept(s.rows, Next(s, step).rows, id) && s.now <= Next(s, step).now
  {
    if UsesClaim(step) {
      EffectOfUse(s, step);
    }
  }

  lemma {:induction false} RowStays(r: Run, m: nat, n: nat, id: RowId)
    requires IsRun(r) && m <= n < |r.states| && id in r.states[m].rows && LeftAlone(r, m, n, id)
    ensures r.states[m].now <= r.states[n].now && Kept(r.states[m].rows, r.states[n].rows, id)
  {
    if m < n {
      RowStays(r, m, n - 1, id);
      RunKeeps(r, n - 1);
      StepLeavesRow(r.states[n - 1], r.steps[n - 1], id);
    }
  }

  /** A claimed row was due when it was claimed, and stays so but for the lease. */
  lemma ClaimedRowIsPastDue(r: Run, n: nat, id: RowId)
    requires IsRun(r) && n < |r.states|
    requires id in r.states[n].rows && r.states[n].rows[id].claimedBy.Some?
    ensures
      var row := r.states[n].rows[id];
      row.nextRun.Some? && row.nextRun.value <= r.states[n].now && row.claimedUntil.Some? && id.org == FLEET_ORG
  {
    RunKeeps(r, n);
    assert RowFollows(r.states[n].rows[id], id, r.states[n].history, r.states[n].now);
  }

  /** Whoever crashed: a claimed row that nobody acts on is claimable again as soon as its lease has run out. */
  lemma NeverStranded(r: Run, m: nat, n: nat, id: RowId)
    requires IsRun(r) && m <= n < |r.states|
    requires id in r.states[m].rows && r.states[m].rows[id].claimedBy.Some? && LeftAlone(r, m, n, id)
    ensures id in r.states[n].rows && r.states[m].rows[id].claimedUntil.Some?
    ensures
      var s, row := r.states[n], r.states[n].rows[id];
      Claimable(s.rows, id, s.now) <==>
      row.enabled && !row.superseded && r.states[m].rows[id].claimedUntil.value < s.now
  {
    ClaimedRowIsPastDue(r, m, id);
    RowStays(r, m, n, id);
  }

  /** The same for an unclaimed row of the fleet: claimable as soon as it is due. */
  lemma UnclaimedBecomesClaimable(r: Run, m: nat, n: nat, id: RowId)
    requires IsRun(r) && m <= n < |r.states|
    requires id in r.states[m].rows && r.states[m].rows[id].claimedBy.None? && LeftAlone(r, m, n, id)
    ensures id in r.states[n].rows
    ensures
      var s, row := r.states[n], r.states[n].rows[id];
      Claimable(s.rows, id, s.now) <==>
      && id.org == FLEET_ORG && row.enabled && !row.superseded
      && r.states[m].rows[id].nextRun.Some? && r.states[m].rows[id].nextRun.value <= s.now
  {
    RunKeeps(r, m);
    assert RowFollows(r.states[m].rows[id], id, r.states[m].history, r.states[m].now);
    RowStays(r, m, n, id);
  }

  /** The rows another statement has not locked that a claim could take before this one. */
  function Ahead(t: Table, now: int, locked: set<RowId>, id: RowId): set<RowId> {
    set other | other in t && other != id && other !in locked && Claimable(t, other, now) && Earlier(t, other, id)
  }

  lemma {:induction false} Fewer(a: set<RowId>, b: set<RowId>)
    requires a <= b
    ensures |a| <= |b|
    decreases |a|
  {
    if x :| x in a {
      Fewer(a - {x}, b - {x});
    }
  }

  /** A claimable row that is not locked is taken whenever fewer such rows than the limit are due no later. */
  lemma ClaimReachesRow(s: State, step: Step, id: RowId)
    requires Enabled(s, step) && step.Claim? && Claimable(s.rows, id, s.now) && id !in step.locked
    requires |Ahead(s.rows, s.now, step.locked, id)| < step.limit
    ensures id in step.batch
  {
    if id !in step.batch {
      forall other | other in Ids(step.batch)
        ensures other in Ahead(s.rows, s.now, step.locked, id)
      {
        var i :| 0 <= i < |step.batch| && step.batch[i] == other;
        assert Claimable(s.rows, step.batch[i], s.now);
      }
      DistinctIds(step.batch);
      Fewer(Ids(step.batch), Ahead(s.rows, s.now, step.locked, id));
    }
  }

  /**
   * A row whose worker crashed is not starved: once its lease has run out, a claim statement of any worker takes it
   * unless it is locked or as many other rows as the statement's limit are claimable and due no later.
   */
  lemma CrashedRowIsReached(r: Run, m: nat, n: nat, id: RowId)
    requires IsRun(r) && m <= n < |r.steps|
    requires id in r.states[m].rows && r.states[m].rows[id].claimedBy.Some? && LeftAlone(r, m, n, id)
    requires id in r.states[n].rows && r.states[n].rows[id].enabled && !r.states[n].rows[id].superseded
    requires r.states[m].rows[id].claimedUntil.Some? && r.states[m].rows[id].claimedUntil.value < r.states[n].now
    requires r.steps[n].Claim? && id !in r.steps[n].locked && !r.steps[n].reply.Failed?
    requires |Ahead(r.states[n].rows, r.states[n].now, r.steps[n].locked, id)| < r.steps[n].limit
    ensures OwnedBy(r.states[n + 1].rows, id, r.steps[n].w)
  {
    NeverStranded(r, m, n, id);
    ClaimReachesRow(r.states[n], r.steps[n], id);
    assert id in Ids(r.steps[n].batch);
  }

  // Exclusive training.

  /** The worker is past a successful extension of this claim and the extended lease has not run out. */
  ghost predicate TrainsUnderLease(s: State, w: Name, key: Name) {
    && w in s.workers && key in s.workers[w].tasks
    && s.workers[w].tasks[key].stage.Fitting? && s.workers[w].tasks[key].stage.until.Some?
    && s.now <= s.workers[w].tasks[key].stage.until.value
  }

  /**
   * While a fit runs under its extended lease, which is when its snapshot is put, the row is still under that very
   * claim exactly if it was not retired or deleted in between; then nobody else holds it.
   */
  lemma ExclusiveTraining(r: Run, n: nat, w: Name, key: Name)
    requires IsRun(r) && n < |r.states| && TrainsUnderLease(r.states[n], w, key)
    ensures
      var s, id := r.states[n], FleetRow(key);
      var t := s.workers[w].tasks[key];
      && (OwnedBy(s.rows, id, w) <==> !RemovedSince(s.history, id, t.held.token))
      && (OwnedBy(s.rows, id, w) ==>
            s.rows[id].claimedUntil == t.stage.until && NewestClaim(s.history, id) == Some(t.held.token))
  {
    var s, id := r.states[n], FleetRow(key);
    RunKeeps(r, n);
    var wk := s.workers[w];
    assert TaskFollows(s, w, wk, key);
    GuardIsFence(s, w, key);
    OpenIsNewest(s.history, id);
    OpenClaimIff(s.history, id, wk.held[key].token);
    if RemovedSince(s.history, id, wk.held[key].token) {
      var i :| wk.held[key].token < i < |s.history| && s.history[i].Removed? && id in s.history[i].ids;
      assert Closes(s.history[i], id);
    }
  }

  /** Two workers never train one hash under unexpired leases, unless the row was removed under one of them. */
  lemma AtMostOneTrainer(r: Run, n: nat, v: Name, w: Name, key: Name)
    requires IsRun(r) && n < |r.states|
    requires TrainsUnderLease(r.states[n], v, key) && TrainsUnderLease(r.states[n], w, key)
    requires
      var s := r.states[n];
      && !RemovedSince(s.history, FleetRow(key), s.workers[v].tasks[key].held.token)
      && !RemovedSince(s.history, FleetRow(key), s.workers[w].tasks[key].held.token)
    ensures v == w
  {
    ExclusiveTraining(r, n, v, key);
    ExclusiveTraining(r, n, w, key);
  }
}
