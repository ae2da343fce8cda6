/** publisher.go:447-475: the release at shutdown is a stretch of a protocol run; what it leaves behind. */
module ReleaseRefinement {
  import opened Basics
  import opened Names
  import opened RetrainTable
  import opened LeaseProtocol
  import opened LeaseInvariant
  import opened LeaseTheorems
  import opened LeaseRuns
  import opened TickRefinement
  import W = RetrainWorker

  /** Part of the held claims handed back. */
  function Handing(t: Table, self: Name, was: W.HeldClaims, done: set<Name>, now: int, clock: Name -> int,
                   reply: Name -> Reply): W.Shop {
    W.Shop(W.ReleasedRows(t, self, was, done, now, clock, reply), W.StillHeld(was, done, reply), 0, 0)
  }

  lemma HeldAfterRelease(held: map<Name, Held>, was: W.HeldClaims, done: set<Name>, k: Name, reply: Name -> Reply)
    requires Remembered(held) == W.StillHeld(was, done, reply)
    ensures Remembered(Unhold(held, k, reply(k))) == W.StillHeld(was, done + {k}, reply)
  {
    var mine, theirs := Remembered(Unhold(held, k, reply(k))), W.StillHeld(was, done + {k}, reply);
    forall other
      ensures other in mine <==> other in theirs
      ensures other in mine && other in theirs ==> mine[other] == theirs[other]
    {
      assert other in held <==> other in Remembered(held);
    }
    assert mine == theirs;
  }

  lemma ReleaseAgrees(s: State, self: Name, t: Table, was: W.HeldClaims, done: set<Name>, k: Name, clock: Name -> int,
                      reply: Name -> Reply)
    requires W.Named(was) && k in was && k !in done
    requires Agrees(s, self, Handing(t, self, was, done, s.now, clock, reply)) && s.workers[self].tasks == map[]
    ensures Enabled(s, Release(self, k, clock(k), reply(k)))
    ensures
      var s' := Next(s, Release(self, k, clock(k), reply(k)));
      && s'.now == s.now && self in s'.workers && s'.workers[self].tasks == map[]
      && s'.workers[self].since == s.workers[self].since
      && Agrees(s', self, Handing(t, self, was, done + {k}, s.now, clock, reply))
  {
    assert k in W.StillHeld(was, done, reply);
    W.ReleaseOne(t, self, was, done, k, clock, reply, s.now);
    HeldAfterRelease(s.workers[self].held, was, done, k, reply);
    assert s.workers[self].held[k].claim == Remembered(s.workers[self].held)[k];
    hide W.ReleasedRows, W.StillHeld, Remembered;
    var s' := Next(s, Release(self, k, clock(k), reply(k)));
    assert s'.rows == W.ReleasedRows(t, self, was, done + {k}, s.now, clock, reply);
  }

  lemma NothingHanded(t: Table, self: Name, was: W.HeldClaims, now: int, clock: Name -> int, reply: Name -> Reply)
    ensures Handing(t, self, was, {}, now, clock, reply) == W.Shop(t, was, 0, 0)
  {}

  /**
   * Handing back the claims of `left`, in any order, after those of `done`: from a state in which the worker has no
   * task left, its steps lead to the table and the held claims that the release computes.
   */
  lemma {:induction false} ReleaseIsARun(s: State, self: Name, t: Table, was: W.HeldClaims, done: set<Name>,
                                         left: set<Name>, clock: Name -> int, reply: Name -> Reply)
    returns (steps: seq<Step>, s': State)
    requires W.Named(was) && done !! left && done + left == was.Keys
    requires Agrees(s, self, Handing(t, self, was, done, s.now, clock, reply)) && s.workers[self].tasks == map[]
    ensures Reaches(s, steps, s') && s'.now == s.now
    ensures Agrees(s', self, Handing(t, self, was, was.Keys, s.now, clock, reply))
    ensures s'.workers[self].tasks == map[] && s'.workers[self].since == s.workers[self].since
    decreases |left|
  {
    hide LeaseProtocol.Next, Enabled, Handing;
    if left == {} {
      assert done == was.Keys;
      steps, s' := [], s;
    } else {
      var k :| k in left;
      var step := Release(self, k, clock(k), reply(k));
      ReleaseAgrees(s, self, t, was, done, k, clock, reply);
      Reached(s, [], s, step);
      assert [] + [step] == [step];
      hide Reaches;
      var rest;
      rest, s' := ReleaseIsARun(Next(s, step), self, t, was, done + {k}, left - {k}, clock, reply);
      Joined(s, [step], Next(s, step), rest, s');
      steps := [step] + rest;
    }
  }

  lemma HeldIsNamed(s: State, w: Name)
    requires Inv(s) && w in s.workers
    ensures W.Named(HeldBy(s, w))
  {
    forall k | k in HeldBy(s, w)
      ensures HeldBy(s, w)[k].key == k && HeldBy(s, w)[k].org == FLEET_ORG
    {
      assert HeldFollows(s.workers[w].held[k], k, w, s.workers[w].since, s.history);
    }
  }

  /** A claim the worker holds of a row under its name is of this process, whatever became of the answers. */
  lemma HeldRowIsOfThisLife(r: Run, n: nat, w: Name, id: RowId)
    requires IsRun(r) && n < |r.states| && w in r.states[n].workers
    requires OwnedBy(r.states[n].rows, id, w) && id.key in r.states[n].workers[w].held
    ensures id.org == FLEET_ORG && NewestClaim(r.states[n].history, id).Some?
    ensures r.states[n].workers[w].since <= NewestClaim(r.states[n].history, id).value
  {
    var s := r.states[n];
    RunKeeps(r, n);
    OwnerIsOpen(s, w, id);
    OpenIsNewest(s.history, id);
    HeldIsAnswered(s, w, id.key);
    NewestIsLast(s.history, w, id, s.workers[w].held[id.key].token);
  }

  /**
   * The shutdown of a worker in any run: each row under its name that it holds a claim of is handed back, due by the
   * worker's clock, and with its own count unless its newest claim went unanswered. When every answer arrives nothing
   * is held, and a row still under the name is from before the process started, or its claim went unanswered.
   */
  lemma ShutdownHandsBack(r: Run, w: Name, clock: Name -> int, reply: Name -> Reply) returns (r': Run, steps: seq<Step>)
    requires IsRun(r)
    requires
      var s := r.states[|r.states| - 1];
      w in s.workers && s.workers[w].tasks == map[]
    ensures IsRun(r') && r'.steps == r.steps + steps
    ensures
      var s, s' := r.states[|r.states| - 1], r'.states[|r'.states| - 1];
      && w in s'.workers
      && s'.rows == W.ReleasedRows(s.rows, w, HeldBy(s, w), HeldBy(s, w).Keys, s.now, clock, reply)
      && HeldBy(s', w) == W.StillHeld(HeldBy(s, w), HeldBy(s, w).Keys, reply)
      && (forall k :: k in s'.workers[w].held <==> k in s.workers[w].held && !reply(k).Acked?)
      && (forall id :: OwnedBy(s.rows, id, w) && id.key in s.workers[w].held && !reply(id.key).Failed? ==>
            HandedBack(s, s', w, id, clock(id.key)))
      && ((forall k :: k in s.workers[w].held ==> reply(k).Acked?) ==>
            && s'.workers[w].held == map[]
            && forall id :: OwnedBy(s'.rows, id, w) ==> LeftBehind(s', w, id))
  {
    var n := |r.states| - 1;
    var s := r.states[n];
    RunKeeps(r, n);
    HeldIsNamed(s, w);
    var was := HeldBy(s, w);
    NothingHanded(s.rows, w, was, s.now, clock, reply);
    var s';
    steps, s' := ReleaseIsARun(s, w, s.rows, was, {}, was.Keys, clock, reply);
    r' := Extends(r, steps);
    assert s' == r'.states[|r'.states| - 1];
    assert was.Keys == s.workers[w].held.Keys;
    hide LeaseProtocol.Next, Enabled, Inv, IsRun, Reaches, W.ReleasedRows, W.StillHeld, Remembered;
    hide HandedBack, LeftBehind;
    forall id | OwnedBy(s.rows, id, w) && id.key in s.workers[w].held && !reply(id.key).Failed?
      ensures HandedBack(s, s', w, id, clock(id.key))
    {
      RowIsHandedBack(r, w, id, s', clock, reply);
    }
    SomeStillHeld(s'.workers[w].held, was, reply);
    if forall k :: k in s.workers[w].held ==> reply(k).Acked? {
      AllHandedBack(was, reply);
      NoneRemembered(s'.workers[w].held);
      forall id | OwnedBy(s'.rows, id, w)
        ensures LeftBehind(s', w, id)
      {
        WhatIsLeft(r', w, id);
      }
    }
  }

  lemma SomeStillHeld(held: map<Name, Held>, was: W.HeldClaims, reply: Name -> Reply)
    requires Remembered(held) == W.StillHeld(was, was.Keys, reply)
    ensures forall k :: k in held <==> k in was && !reply(k).Acked?
  {
    assert held.Keys == Remembered(held).Keys;
  }

  lemma AllHandedBack(was: W.HeldClaims, reply: Name -> Reply)
    requires forall k :: k in was ==> reply(k).Acked?
    ensures W.StillHeld(was, was.Keys, reply) == map[]
  {}

  lemma WhatIsLeft(r: Run, w: Name, id: RowId)
    requires IsRun(r)
    requires
      var s := r.states[|r.states| - 1];
      w in s.workers && s.workers[w].held == map[] && OwnedBy(s.rows, id, w)
    ensures LeftBehind(r.states[|r.states| - 1], w, id)
  {
    NothingHeldNothingClaimed(r, |r.states| - 1, w, id);
  }

  lemma RowIsHandedBack(r: Run, w: Name, id: RowId, s': State, clock: Name -> int, reply: Name -> Reply)
    requires IsRun(r)
    requires
      var s := r.states[|r.states| - 1];
      && w in s.workers && OwnedBy(s.rows, id, w) && id.key in s.workers[w].held && !reply(id.key).Failed?
      && s'.rows == W.ReleasedRows(s.rows, w, HeldBy(s, w), HeldBy(s, w).Keys, s.now, clock, reply)
    ensures HandedBack(r.states[|r.states| - 1], s', w, id, clock(id.key))
  {
    var n := |r.states| - 1;
    var s := r.states[n];
    HeldRowIsOfThisLife(r, n, w, id);
    HeldCoverage(r, n, w, id);
    RunKeeps(r, n);
    HeldIsNamed(s, w);
    assert HeldBy(s, w)[id.key] == s.workers[w].held[id.key].claim;
  }

  lemma NoneRemembered(held: map<Name, Held>)
    requires Remembered(held) == map[]
    ensures held == map[]
  {
    assert held.Keys == Remembered(held).Keys;
  }

  ghost predicate HandedBack(s: State, s': State, w: Name, id: RowId, due: int)
    requires id in s.rows && w in s.workers && id.key in s.workers[w].held
  {
    && id in s'.rows
    && s'.rows[id] == s.rows[id].(nextRun := Some(due), lastRun := Some(s.now), lastStatus := Errored("interrupted", 0),
                                  attempts := s.workers[w].held[id.key].claim.attempts,
                                  claimedBy := None, claimedUntil := None)
    && NewestClaim(s.history, id).Some?
    && (s.history[NewestClaim(s.history, id).value].answered ==> s'.rows[id].attempts == s.rows[id].attempts)
  }

  ghost predicate LeftBehind(s: State, w: Name, id: RowId)
    requires w in s.workers
  {
    var newest := NewestClaim(s.history, id);
    newest.Some? && (newest.value < s.workers[w].since || !s.history[newest.value].answered)
  }
}
