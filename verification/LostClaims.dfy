/**
 * store_postgres.go:416-483 and publisher.go:453-475: what a lost answer of a claim can lead to. A worker claims a row
 * and keeps the claim; another worker's failure is counted; the first claims the row again, the answer is lost, and its
 * shutdown releases the claim it knows: the old one, with the old count.
 */
module LostClaims {
  import opened Basics
  import opened Names
  import opened RetrainTable
  import opened LeaseProtocol
  import opened LeaseTheorems
  import opened LeaseRuns

  const CRON := "0 0 * * *"
  const ZONE := "UTC"

  /** A table of one row, and two workers. */
  function One(k: Name, row: Row, now: int, w: Name, mine: Worker, v: Name, theirs: Worker, h: History): State {
    State(map[FleetRow(k) := row], now, map[w := mine, v := theirs], h)
  }

  function Fresh(): Row {
    NewRow(CRON, ZONE, true, Some(0))
  }

  function Leased(r: Row, w: Name, now: int): Row {
    r.(claimedBy := Some(w), claimedUntil := Some(now + 1))
  }

  const IDLE := Worker(0, map[], map[])

  function Created1(k: Name): History {
    [Created({FleetRow(k)})]
  }

  /** A claim of the only row, while it is due. */
  lemma ClaimOnly(s: State, k: Name, row: Row, claimer: Name, reply: Reply)
    requires s.rows == map[FleetRow(k) := row] && Due(row, s.now) && !reply.Failed?
    requires claimer in s.workers && s.workers[claimer].tasks == map[]
    ensures
      var step := Claim(claimer, 1, 1, {}, [FleetRow(k)], reply);
      var hd, before := Held(ClaimOf(FleetRow(k), row), |s.history|), s.workers[claimer];
      var after := if reply.Lost? then before
                   else Worker(before.since, before.held[k := hd], map[k := Task(hd, Queued)]);
      && Enabled(s, step)
      && Next(s, step) == State(map[FleetRow(k) := Leased(row, claimer, s.now)], s.now, s.workers[claimer := after],
                                s.history + [Claimed(claimer, {FleetRow(k)}, reply.Acked?)])
  {
    var id, before := FleetRow(k), s.workers[claimer];
    OnlyBatch(k, row, s.now);
    OnlyLease(k, row, claimer, s.now, |s.history|);
    hide IsBatch, LeaseRows, Taken, Ids, Due;
    var taken := map[k := Held(ClaimOf(id, row), |s.history|)];
    assert before.held + taken == before.held[k := taken[k]];
    assert (map j | j in taken :: Task(taken[j], Queued)) == map[k := Task(taken[k], Queued)];
  }

  lemma OnlyBatch(k: Name, row: Row, now: int)
    requires Due(row, now)
    ensures IsBatch(map[FleetRow(k) := row], now, {}, 1, [FleetRow(k)])
  {
    assert Claimable(map[FleetRow(k) := row], FleetRow(k), now);
  }

  lemma OnlyLease(k: Name, row: Row, claimer: Name, now: int, token: nat)
    ensures
      var t, id := map[FleetRow(k) := row], FleetRow(k);
      && Ids([id]) == {id}
      && LeaseRows(t, {id}, claimer, now + 1) == map[id := Leased(row, claimer, now)]
      && Taken(t, {id}, token) == map[k := Held(ClaimOf(id, row), token)]
  {
    var t, id := map[FleetRow(k) := row], FleetRow(k);
    assert LeaseRows(t, {id}, claimer, now + 1).Keys == {id};
    assert Taken(t, {id}, token).Keys == {k};
  }

  function FirstClaim(k: Name): Held {
    Held(ClaimOf(FleetRow(k), Fresh()), 1)
  }

  /** What the first worker remembers from then on. */
  function Keeper(k: Name): Worker {
    Worker(0, map[k := FirstClaim(k)], map[])
  }

  function SecondHistory(w: Name, v: Name, k: Name): History {
    [Created({FleetRow(k)}), Claimed(w, {FleetRow(k)}, true), Claimed(v, {FleetRow(k)}, true)]
  }

  /** Two workers start, and the row is scheduled. */
  lemma Begun(w: Name, v: Name, k: Name) returns (steps: seq<Step>, s: State)
    requires v != w
    ensures Reaches(INITIAL, steps, s) && s == One(k, Fresh(), 0, w, IDLE, v, IDLE, Created1(k))
  {
    var id := FleetRow(k);
    var a := Next(INITIAL, Start(w));
    assert a == State(map[], 0, map[w := IDLE], []);
    Reached(INITIAL, [], INITIAL, Start(w));
    assert [] + [Start(w)] == [Start(w)];
    var b := Next(a, Start(v));
    assert b == State(map[], 0, map[w := IDLE, v := IDLE], []);
    Reached(INITIAL, [Start(w)], a, Start(v));
    var schedule := Schedule({k}, CRON, ZONE, Acked);
    assert NewRows(b.rows, {k}) == {id};
    assert ScheduleRows(b.rows, {k}, CRON, ZONE, 0) == map[id := Fresh()];
    assert b.history + [Created({id})] == Created1(k);
    Reached(INITIAL, [Start(w)] + [Start(v)], b, schedule);
    s := Next(b, schedule);
    assert s.rows == map[id := Fresh()];
    assert s.history == Created1(k);
    assert s.workers == map[w := IDLE, v := IDLE];
    steps := [Start(w)] + [Start(v)] + [schedule];
  }

  /** Claimed by `w` and kept without a finish. */
  lemma ClaimedAndKept(w: Name, v: Name, k: Name, s: State) returns (steps: seq<Step>, s': State)
    requires v != w && s == One(k, Fresh(), 0, w, IDLE, v, IDLE, Created1(k))
    ensures Reaches(s, steps, s')
    ensures s' == One(k, Leased(Fresh(), w, 0), 2, w, Keeper(k), v, IDLE,
                      [Created({FleetRow(k)}), Claimed(w, {FleetRow(k)}, true)])
  {
    var claim := Claim(w, 1, 1, {}, [FleetRow(k)], Acked);
    assert Due(Fresh(), 0);
    hide IsBatch, Due, LeaseRows, Taken, Ids;
    ClaimOnly(s, k, Fresh(), w, Acked);
    Reached(s, [], s, claim);
    assert [] + [claim] == [claim];
    var a := Next(s, claim);
    Reached(s, [claim], a, Break(w));
    var b := Next(a, Break(w));
    assert b.workers == map[w := Keeper(k), v := IDLE];
    Reached(s, [claim] + [Break(w)], b, Advance(2));
    s' := Next(b, Advance(2));
    steps := [claim] + [Break(w)] + [Advance(2)];
  }

  const FAILED := Errored("no data", 1)

  function Failed1(): Row {
    FinishedRow(Fresh(), 2, 2, FAILED, 1)
  }

  /** Claimed by `v` once the lease ran out, and recorded as a failure. */
  lemma Failed2(w: Name, v: Name, k: Name, s: State) returns (steps: seq<Step>, s': State)
    requires v != w
    requires s == One(k, Leased(Fresh(), w, 0), 2, w, Keeper(k), v, IDLE,
                      [Created({FleetRow(k)}), Claimed(w, {FleetRow(k)}, true)])
    ensures Reaches(s, steps, s')
    ensures s'.rows == map[FleetRow(k) := Failed1()] && s'.now == 2 && s'.workers.Keys == {w, v}
    ensures s'.workers[w] == Keeper(k)
    ensures s'.history == SecondHistory(w, v, k) + [Finished(FleetRow(k), Failure)]
  {
    var id := FleetRow(k);
    var row := Leased(Fresh(), w, 0);
    ClaimOnly(s, k, row, v, Acked);
    var claim := Claim(v, 1, 1, {}, [id], Acked);
    var a := Next(s, claim);
    assert a.history == SecondHistory(w, v, k);
    var extend := Extend(v, k, 1, Acked);
    var b := Next(a, extend);
    assert OwnedBy(a.rows, id, v);
    assert b.rows == map[id := Leased(row, v, 2)];
    var finish := Finish(v, k, Failure, 2, FAILED, Acked);
    s' := Next(b, finish);
    assert b.workers[v].tasks[k].held.claim == ClaimOf(id, row);
    assert FinishedRow(Leased(row, v, 2), 2, 2, FAILED, 1) == Failed1();
    steps := [claim];
    Reached(s, [], s, claim);
    assert [] + [claim] == steps;
    Reached(s, steps, a, extend);
    steps := steps + [extend];
    Reached(s, steps, b, finish);
    steps := steps + [finish];
  }

  /** Claimed again by `w`, unanswered, and released with what `w` knows. */
  lemma Forgotten(w: Name, v: Name, k: Name, s: State) returns (claim: Step, release: Step, mid: State, s': State)
    requires v != w
    requires s.rows == map[FleetRow(k) := Failed1()] && s.now == 2 && s.workers.Keys == {w, v}
    requires s.workers[w] == Keeper(k)
    requires s.history == SecondHistory(w, v, k) + [Finished(FleetRow(k), Failure)]
    ensures claim.Claim? && claim.reply.Lost? && release == Release(w, k, 2, Acked)
    ensures Enabled(s, claim) && mid == Next(s, claim) && Enabled(mid, release) && s' == Next(mid, release)
    ensures mid.rows == map[FleetRow(k) := Leased(Failed1(), w, 2)]
    ensures mid.workers[w] == Keeper(k)
    ensures mid.history == s.history + [Claimed(w, {FleetRow(k)}, false)]
    ensures s'.rows.Keys == {FleetRow(k)} && s'.rows[FleetRow(k)].attempts == 0
    ensures s'.history == mid.history + [Finished(FleetRow(k), Interrupted)]
  {
    var id := FleetRow(k);
    ClaimOnly(s, k, Failed1(), w, Lost);
    claim := Claim(w, 1, 1, {}, [id], Lost);
    mid := Next(s, claim);
    release := Release(w, k, 2, Acked);
    s' := Next(mid, release);
    assert OwnedBy(mid.rows, id, w);
  }

  lemma CountAtTheEnd(w: Name, v: Name, k: Name, h: History)
    requires h == SecondHistory(w, v, k) + [Finished(FleetRow(k), Failure)] + [Claimed(w, {FleetRow(k)}, false)]
    ensures OpenClaim(h, FleetRow(k)) == Some(4) && h[4] == Claimed(w, {FleetRow(k)}, false)
    ensures Failures(h + [Finished(FleetRow(k), Interrupted)], FleetRow(k)) == 1
  {
    var id := FleetRow(k);
    var a: History := [];
    var b := a + [Created({id})];
    var c := b + [Claimed(w, {id}, true)];
    var d := c + [Claimed(v, {id}, true)];
    var e := d + [Finished(id, Failure)];
    FailuresAfter(a, Created({id}), id);
    FailuresAfter(b, Claimed(w, {id}, true), id);
    FailuresAfter(c, Claimed(v, {id}, true), id);
    FailuresAfter(d, Finished(id, Failure), id);
    assert d == SecondHistory(w, v, k);
    assert h == e + [Claimed(w, {id}, false)];
    FailuresAfter(e, Claimed(w, {id}, false), id);
    FailuresAfter(h, Finished(id, Interrupted), id);
    OpenAfter(e, Claimed(w, {id}, false), id);
  }

  /** The release is the exception: it writes under a claim that was replaced, and miscounts. */
  ghost predicate Miswrites(s: State, step: Step, s': State, w: Name, k: Name) {
    && step == Release(w, k, 2, Acked) && Enabled(s, step)
    && ReleasesUnanswered(s, step) && Miscounts(s, step)
    && |s.history| > 3 && Claims(s.history[2], FleetRow(k)) && Closes(s.history[3], FleetRow(k))
    && ClaimUsed(s, step).token == 1
    && s'.rows != s.rows && FleetRow(k) in s'.rows
    && s'.rows[FleetRow(k)].attempts == 0 && Failures(s'.history, FleetRow(k)) == 1
  }

  lemma Ending(w: Name, v: Name, k: Name, failed: State) returns (claim: Step, release: Step, mid: State, last: State)
    requires v != w
    requires failed.rows == map[FleetRow(k) := Failed1()] && failed.now == 2 && failed.workers.Keys == {w, v}
    requires failed.workers[w] == Keeper(k)
    requires failed.history == SecondHistory(w, v, k) + [Finished(FleetRow(k), Failure)]
    ensures Enabled(failed, claim) && mid == Next(failed, claim) && Enabled(mid, release) && last == Next(mid, release)
    ensures Miswrites(mid, release, last, w, k)
  {
    claim, release, mid, last := Forgotten(w, v, k, failed);
    CountAtTheEnd(w, v, k, mid.history);
    hide OpenClaim, Failures, IsBatch;
    assert ReleasesUnanswered(mid, release);
  }

  /**
   * A run from the start, for any two workers and any row: its last step is the exception, it writes under a claim that
   * has been replaced, and the row's count is 0 with one failure standing.
   */
  lemma StaleReleaseMiscounts(w: Name, v: Name, k: Name) returns (r: Run)
    requires v != w
    ensures IsRun(r) && r.steps != []
    ensures Miswrites(r.states[|r.steps| - 1], r.steps[|r.steps| - 1], r.states[|r.steps|], w, k)
  {
    var begin, begun := Begun(w, v, k);
    var keep, kept := ClaimedAndKept(w, v, k, begun);
    var fail, failed := Failed2(w, v, k, kept);
    var claim, release, mid, last := Ending(w, v, k, failed);
    hide LeaseProtocol.Next, Enabled, Miswrites, One, Reaches, IsRun;
    Joined(INITIAL, begin, begun, keep, kept);
    Joined(INITIAL, begin + keep, kept, fail, failed);
    Reached(INITIAL, begin + keep + fail, failed, claim);
    var before := FromTheStart(begin + keep + fail + [claim], mid);
    r := OneMore(before, release);
  }
}
