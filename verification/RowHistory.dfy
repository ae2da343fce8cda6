/** store_postgres.go:292-383: which rows the queue has after any run, and whose its fields are. */
module RowHistory {
  import opened Basics
  import opened Names
  import opened RetrainTable
  import opened LeaseProtocol

  /** A retirement that takes effect removes the fleet's rows of its keys, and nothing else. */
  lemma RetireRemoves(s: State, step: Step)
    requires Enabled(s, step) && step.Retire? && !step.reply.Failed?
    ensures forall k :: k in step.keys ==> RowId(0, k) !in Next(s, step).rows
    ensures forall id :: id in Next(s, step).rows ==> id in s.rows && Next(s, step).rows[id] == s.rows[id]
    ensures forall id :: id in s.rows && !(id.org == 0 && id.key in step.keys) ==> id in Next(s, step).rows
  {
    assert forall k :: k in step.keys ==> RowId(0, k).key in step.keys;
  }

  /** An insert adds a due row for each key that has none, and leaves every row there is, schedule and all, alone. */
  lemma ScheduleAdds(s: State, step: Step)
    requires Enabled(s, step) && step.Schedule? && !step.reply.Failed?
    ensures forall id :: id in s.rows ==> id in Next(s, step).rows && Next(s, step).rows[id] == s.rows[id]
    ensures forall k :: k in step.keys ==> RowId(0, k) in Next(s, step).rows
    ensures forall id :: id in Next(s, step).rows && id !in s.rows ==>
                           && id.org == 0 && id.key in step.keys
                           && Next(s, step).rows[id]
                              == Row(step.cron, step.timezone, true, false, Some(s.now), None, None, 0, None, Unrun)
  {
    forall k | k in step.keys
      ensures RowId(0, k) in Next(s, step).rows
    {
      assert FleetRow(k) == RowId(0, k);
    }
  }

  ghost predicate Mentions(e: Event, id: RowId) {
    (e.Created? && id in e.ids) || (e.Removed? && id in e.ids)
  }

  /** The last event that created or removed the row created it. */
  ghost predicate LastCreated(h: History, id: RowId) {
    exists i :: CreatedAndKept(h, id, i)
  }

  ghost predicate CreatedAndKept(h: History, id: RowId, i: int) {
    0 <= i < |h| && h[i].Created? && id in h[i].ids && forall j :: i < j < |h| ==> !Mentions(h[j], id)
  }

  lemma LastCreatedAfter(h: History, e: Event, id: RowId)
    ensures LastCreated(h + [e], id) <==> if Mentions(e, id) then e.Created? else LastCreated(h, id)
  {
    var h' := h + [e];
    if Mentions(e, id) {
      if e.Created? {
        assert CreatedAndKept(h', id, |h|);
      } else {
        forall i
          ensures !CreatedAndKept(h', id, i)
        {
          assert 0 <= i < |h| ==> Mentions(h'[|h|], id);
        }
      }
    } else {
      forall i
        ensures CreatedAndKept(h', id, i) <==> CreatedAndKept(h, id, i)
      {
        assert forall j :: 0 <= j < |h| ==> h'[j] == h[j];
      }
    }
  }

  lemma PresenceKept(s: State, step: Step, id: RowId)
    requires Enabled(s, step) && (id in s.rows <==> LastCreated(s.history, id))
    ensures id in Next(s, step).rows <==> LastCreated(Next(s, step).history, id)
  {
    hide IsBatch, Taken, LastCreated;
    var s' := Next(s, step);
    if s'.history != s.history {
      LastCreatedAfter(s.history, s'.history[|s.history|], id);
    }
    if step.Schedule? && !step.reply.Failed? {
      assert id in NewRows(s.rows, step.keys) <==> id == FleetRow(id.key) && id.key in step.keys && id !in s.rows;
    }
    if step.Retire? && !step.reply.Failed? {
      var gone := s'.history[|s.history|].ids;
      assert id in gone <==> id == FleetRow(id.key) && id.key in step.keys;
    }
  }

  /** In every run a row is in the table exactly if the last event that created or removed it created it. */
  lemma {:induction false} PresentExactly(r: Run, n: nat, id: RowId)
    requires IsRun(r) && n < |r.states|
    ensures id in r.states[n].rows <==> LastCreated(r.states[n].history, id)
  {
    if n > 0 {
      PresentExactly(r, n - 1, id);
      PresenceKept(r.states[n - 1], r.steps[n - 1], id);
    }
  }

  /** What belongs to the operator of a row. */
  ghost predicate SameSchedule(row: Row, row': Row) {
    && row'.cron == row.cron && row'.timezone == row.timezone
    && row'.enabled == row.enabled && row'.superseded == row.superseded
  }

  lemma ScheduleIsOperators(s: State, step: Step, id: RowId)
    requires Enabled(s, step) && id in s.rows && id in Next(s, step).rows && !(step.Edit? && step.id == id)
    ensures SameSchedule(s.rows[id], Next(s, step).rows[id])
  {
    hide IsBatch, Taken;
  }

  /** In every run a row that stays keeps its schedule, its time zone and its switches until its operator edits them. */
  lemma {:induction false} OperatorOwnsSchedule(r: Run, m: nat, n: nat, id: RowId)
    requires IsRun(r) && m <= n < |r.states|
    requires forall i :: m <= i <= n ==> id in r.states[i].rows
    requires forall i :: m <= i < n ==> !(r.steps[i].Edit? && r.steps[i].id == id)
    ensures SameSchedule(r.states[m].rows[id], r.states[n].rows[id])
  {
    if m < n {
      hide LeaseProtocol.Next, Enabled;
      OperatorOwnsSchedule(r, m, n - 1, id);
      assert id in r.states[n - 1].rows && id in r.states[n].rows;
      ScheduleIsOperators(r.states[n - 1], r.steps[n - 1], id);
    }
  }
}
