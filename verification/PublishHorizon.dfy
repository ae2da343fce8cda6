/** publisher.go:547-629 and 676-688: which point of a cached fit a tick publishes, and the publish marks. */
module PublishHorizon {
  import opened Basics
  import opened Names
  import opened SnapshotCache
  import DruidWindows

  const MINUTE := 60_000_000_000

  datatype Sample = Sample(at: int, value: Option<real>)

  /** A usable model's grid starts at or before its last point. */
  predicate OnGrid(s: Snapshot, k: int) {
    s.first <= k
  }

  function LastOf(s: Snapshot): int {
    s.last * DruidWindows.MILLISECOND
  }

  /** The last point in nanoseconds is the stored millisecond, and nothing less is lost. */
  lemma LastOfIs(s: Snapshot)
    ensures DruidWindows.UnixMilli(LastOf(s)) == s.last && DruidWindows.UnixMilli(LastOf(s) - 1) == s.last - 1
  {}

  function StepTime(s: Snapshot, k: int): int {
    LastOf(s) + k * MINUTE
  }

  function StepSample(s: Snapshot, k: int): Sample {
    Sample(StepTime(s, k), if k in s.values then Some(s.values[k]) else None)
  }

  /** Go's Time.Truncate to the minute. */
  function TruncateMinute(t: int): int {
    t / MINUTE * MINUTE
  }

  function Horizon(now: int, aheadMinutes: int): int {
    TruncateMinute(now) + aheadMinutes * MINUTE
  }

  /** The steps up to `k`, back to the first one whose time is not before `lo`. */
  function StepsDown(s: Snapshot, lo: int, k: int): seq<Sample>
    decreases k - s.first
  {
    if k < s.first || StepTime(s, k) < lo then []
    else StepsDown(s, lo, k - 1) + [StepSample(s, k)]
  }

  /** The last step not after `t`. */
  function StepAt(s: Snapshot, t: int): int {
    (t - LastOf(s)) / MINUTE
  }

  /** The library's signed forecast over a closed range: the grid points in it, in order, or an empty-range error. */
  function ForecastRange(s: Snapshot, lo: int, hi: int): Result<seq<Sample>> {
    var points := StepsDown(s, lo, StepAt(s, hi));
    if points == [] then Err("empty range") else Ok(points)
  }

  lemma StepAtIs(s: Snapshot, t: int)
    ensures StepTime(s, StepAt(s, t)) <= t < StepTime(s, StepAt(s, t) + 1)
  {
    var d := t - LastOf(s);
    assert d == d / MINUTE * MINUTE + d % MINUTE;
  }

  lemma StepsApart(s: Snapshot, j: int, k: int)
    requires j < k
    ensures StepTime(s, j) + MINUTE <= StepTime(s, k)
  {
    assert (k - j) * MINUTE >= MINUTE;
  }

  /** The range answers exactly the grid points inside it. */
  lemma {:induction false} RangeIsGrid(s: Snapshot, lo: int, hi: int, p: Sample)
    ensures
      var out := ForecastRange(s, lo, hi);
      out.Ok? && p in out.value <==>
      exists k :: OnGrid(s, k) && p == StepSample(s, k) && lo <= StepTime(s, k) <= hi && out.Ok?
  {
    StepAtIs(s, hi);
    StepsDownAre(s, lo, StepAt(s, hi), p);
    forall k | OnGrid(s, k)
      ensures StepTime(s, k) <= hi <==> k <= StepAt(s, hi)
    {
      if k > StepAt(s, hi) + 1 {
        StepsApart(s, StepAt(s, hi) + 1, k);
      } else if k < StepAt(s, hi) {
        StepsApart(s, k, StepAt(s, hi));
      }
    }
  }

  lemma {:induction false} StepsDownAre(s: Snapshot, lo: int, top: int, p: Sample)
    ensures p in StepsDown(s, lo, top) <==>
            exists k :: OnGrid(s, k) && k <= top && p == StepSample(s, k) && lo <= StepTime(s, k)
    decreases top - s.first
  {
    if top < s.first {
    } else if StepTime(s, top) < lo {
      forall k | OnGrid(s, k) && k <= top
        ensures StepTime(s, k) < lo
      {
        if k < top {
          StepsApart(s, k, top);
        }
      }
    } else {
      StepsDownAre(s, lo, top - 1, p);
      assert OnGrid(s, top);
    }
  }

  datatype Choice = NoPoint | Behind | NotANumber | Publish(at: int, value: real)

  /** What a tick does with a cached fit at a horizon. */
  function Choose(s: Snapshot, ts: int): Choice {
    var out := ForecastRange(s, ts - MINUTE, ts);
    if out.Err? then NoPoint
    else
      var point := out.value[|out.value| - 1];
      if point.at <= LastOf(s) then Behind
      else if point.value.None? then NotANumber
      else Publish(point.at, point.value.value)
  }

  /** The newest grid point in the last minute before the horizon is the last step not after the horizon. */
  lemma NewestPoint(s: Snapshot, ts: int)
    requires s.first <= StepAt(s, ts)
    ensures
      var out := ForecastRange(s, ts - MINUTE, ts);
      out.Ok? && out.value[|out.value| - 1] == StepSample(s, StepAt(s, ts))
  {
    StepAtIs(s, ts);
    assert StepTime(s, StepAt(s, ts) + 1) == StepTime(s, StepAt(s, ts)) + MINUTE;
  }

  /** A point of the grid is the newest not after the horizon. */
  ghost predicate Greatest(s: Snapshot, ts: int, at: int) {
    && at <= ts && (exists k :: OnGrid(s, k) && at == StepTime(s, k))
    && forall k :: OnGrid(s, k) && StepTime(s, k) <= ts ==> StepTime(s, k) <= at
  }

  /**
   * A tick publishes exactly when the horizon is at least one step past the snapshot's last point and the newest grid
   * point not after the horizon has a value; that point is the one published, at most a minute short of the horizon.
   */
  lemma PublishesExactly(s: Snapshot, ts: int)
    requires s.first <= 0
    ensures Choose(s, ts).Publish? <==> ts >= LastOf(s) + MINUTE && StepAt(s, ts) in s.values
    ensures Choose(s, ts).Publish? ==>
              && Greatest(s, ts, Choose(s, ts).at)
              && ts - MINUTE < Choose(s, ts).at && LastOf(s) < Choose(s, ts).at
              && Choose(s, ts).value == s.values[StepAt(s, ts)]
    ensures Choose(s, ts).Publish? && (ts - LastOf(s)) % MINUTE == 0 ==> Choose(s, ts).at == ts
  {
    var k := StepAt(s, ts);
    StepAtIs(s, ts);
    if k < s.first {
      assert k * MINUTE < 0;
      assert StepsDown(s, ts - MINUTE, k) == [];
    } else {
      NewestPoint(s, ts);
      assert OnGrid(s, k);
      forall j | OnGrid(s, j) && StepTime(s, j) <= ts
        ensures StepTime(s, j) <= StepTime(s, k)
      {
        if j > k + 1 {
          StepsApart(s, k + 1, j);
        } else if j < k {
          StepsApart(s, j, k);
        }
      }
      PastLast(s, ts);
    }
  }

  lemma PastLast(s: Snapshot, ts: int)
    ensures StepTime(s, StepAt(s, ts)) > LastOf(s) <==> ts >= LastOf(s) + MINUTE
    ensures StepTime(s, StepAt(s, ts)) > LastOf(s) <==> StepAt(s, ts) >= 1
    ensures (ts - LastOf(s)) % MINUTE == 0 ==> StepTime(s, StepAt(s, ts)) == ts
  {
    var k := StepAt(s, ts);
    StepAtIs(s, ts);
    if k >= 1 {
      assert k * MINUTE >= MINUTE;
    } else {
      assert k * MINUTE <= 0;
      assert (k + 1) * MINUTE <= MINUTE;
    }
  }

  /** Ticks a minute apart on one snapshot publish points a minute apart, and their marks 60000 ms apart. */
  lemma MinuteByMinute(s: Snapshot, now: int, aheadMinutes: int)
    ensures Horizon(now + MINUTE, aheadMinutes) == Horizon(now, aheadMinutes) + MINUTE
    ensures
      var a, b := Choose(s, Horizon(now, aheadMinutes)), Choose(s, Horizon(now + MINUTE, aheadMinutes));
      s.first <= 0 && a.Publish? && b.Publish? ==>
        && b.at == a.at + MINUTE
        && DruidWindows.UnixMilli(b.at) == DruidWindows.UnixMilli(a.at) + 60_000
  {
    hide Choose, Horizon, StepAt, StepTime, DruidWindows.UnixMilli;
    HorizonMoves(now, aheadMinutes);
    var ts := Horizon(now, aheadMinutes);
    var a, b := Choose(s, ts), Choose(s, ts + MINUTE);
    if s.first <= 0 && a.Publish? && b.Publish? {
      PointIsStep(s, ts);
      PointIsStep(s, ts + MINUTE);
      NextStep(s, ts);
      MinuteInMillis(a.at);
    }
  }

  /** The horizon is the minute the clock is in, and so many minutes on. */
  lemma HorizonIs(now: int, aheadMinutes: int)
    ensures
      var ts := Horizon(now, aheadMinutes);
      ts % MINUTE == 0 && ts - aheadMinutes * MINUTE <= now < ts - aheadMinutes * MINUTE + MINUTE
  {
    var minute := now / MINUTE;
    assert (minute + aheadMinutes) * MINUTE == minute * MINUTE + aheadMinutes * MINUTE;
    MultipleOfMinute(minute + aheadMinutes);
  }

  lemma MultipleOfMinute(n: int)
    ensures n * MINUTE % MINUTE == 0
  {}

  lemma HorizonMoves(now: int, aheadMinutes: int)
    ensures Horizon(now + MINUTE, aheadMinutes) == Horizon(now, aheadMinutes) + MINUTE
  {}

  lemma NextStep(s: Snapshot, ts: int)
    ensures StepAt(s, ts + MINUTE) == StepAt(s, ts) + 1
    ensures StepTime(s, StepAt(s, ts + MINUTE)) == StepTime(s, StepAt(s, ts)) + MINUTE
  {}

  lemma PointIsStep(s: Snapshot, ts: int)
    requires s.first <= 0 && Choose(s, ts).Publish?
    ensures Choose(s, ts).at == StepTime(s, StepAt(s, ts))
  {
    PublishesExactly(s, ts);
    PastLast(s, ts);
    NewestPoint(s, ts);
  }

  lemma MinuteInMillis(t: int)
    ensures DruidWindows.UnixMilli(t + MINUTE) == DruidWindows.UnixMilli(t) + 60_000
  {}

  // The publish marks.

  /**
   * What happens to the marks: a tick keeps those of its ready hashes, or tries to publish a point (milliseconds),
   * and the sink would take it or not.
   */
  datatype Event = Kept(keys: set<Name>) | Tried(key: Name, ms: int, sink: bool)

  type Marks = map<Name, int>

  predicate Accepted(marks: Marks, e: Event) {
    e.Tried? && !(e.key in marks && e.ms <= marks[e.key]) && e.sink
  }

  function Marked(marks: Marks, e: Event): Marks {
    if e.Kept? then map k | k in marks && k in e.keys :: marks[k]
    else if Accepted(marks, e) then marks[e.key := e.ms]
    else marks
  }

  function MarksAfter(events: seq<Event>): Marks {
    if events == [] then map[] else Marked(MarksAfter(events[..|events| - 1]), events[|events| - 1])
  }

  ghost predicate AcceptedAt(events: seq<Event>, i: nat)
    requires i < |events|
  {
    Accepted(MarksAfter(events[..i]), events[i])
  }

  /** From `i` on, no tick had the hash outside its ready set. */
  ghost predicate StaysReady(events: seq<Event>, i: nat, key: Name) {
    forall k :: i <= k < |events| && events[k].Kept? ==> key in events[k].keys
  }

  /** A point of the hash, at least as new, was accepted, and since then no tick dropped the hash. */
  ghost predicate Outdated(events: seq<Event>, key: Name, ms: int) {
    exists i :: 0 <= i < |events| && StillCounts(events, i, key) && events[i].ms >= ms
  }

  ghost predicate StillCounts(events: seq<Event>, i: nat, key: Name)
    requires i < |events|
  {
    AcceptedAt(events, i) && events[i].key == key && StaysReady(events, i, key)
  }

  lemma StillCountsNext(events: seq<Event>, i: nat, key: Name)
    requires i < |events| - 1
    ensures
      var before, e := events[..|events| - 1], events[|events| - 1];
      StillCounts(events, i, key) <==> StillCounts(before, i, key) && !(e.Kept? && key !in e.keys)
  {
    var before := events[..|events| - 1];
    assert before[..i] == events[..i];
    assert forall k :: 0 <= k < |before| ==> before[k] == events[k];
  }

  /**
   * Over every history: a point is turned away for its mark if and only if a point of that hash at least as new was
   * accepted and no tick has dropped the hash since.
   */
  lemma {:induction false} MarkedExactly(events: seq<Event>, key: Name, ms: int)
    ensures (key in MarksAfter(events) && ms <= MarksAfter(events)[key]) <==> Outdated(events, key, ms)
  {
    if events != [] {
      var n := |events| - 1;
      var before, e := events[..n], events[n];
      MarkedExactly(before, key, ms);
      forall i | 0 <= i < n
        ensures StillCounts(events, i, key) <==> StillCounts(before, i, key) && !(e.Kept? && key !in e.keys)
        ensures before[i] == events[i]
      {
        StillCountsNext(events, i, key);
      }
      if Accepted(MarksAfter(before), e) && e.key == key {
        assert AcceptedAt(events, n) && StillCounts(events, n, key);
        AcceptedIsNewest(before, key, e);
      } else {
        assert !StillCounts(events, n, key);
        OutdatedNext(events, key, ms);
      }
    }
  }

  lemma OutdatedNext(events: seq<Event>, key: Name, ms: int)
    requires events != []
    requires
      var n := |events| - 1;
      var before, e := events[..n], events[n];
      && !StillCounts(events, n, key)
      && forall i :: 0 <= i < n ==>
           && before[i] == events[i]
           && (StillCounts(events, i, key) <==> StillCounts(before, i, key) && !(e.Kept? && key !in e.keys))
    ensures
      var before, e := events[..|events| - 1], events[|events| - 1];
      Outdated(events, key, ms) <==> Outdated(before, key, ms) && !(e.Kept? && key !in e.keys)
  {
    var n := |events| - 1;
    var before := events[..n];
    if Outdated(events, key, ms) {
      var i :| 0 <= i < |events| && StillCounts(events, i, key) && events[i].ms >= ms;
      assert StillCounts(before, i, key) && before[i].ms >= ms;
    }
    if i :| 0 <= i < |before| && StillCounts(before, i, key) && before[i].ms >= ms {
      assert events[i].ms >= ms;
    }
  }

  /** An accepted point is newer than the mark, so than every accepted point that still counts. */
  lemma AcceptedIsNewest(events: seq<Event>, key: Name, e: Event)
    requires Accepted(MarksAfter(events), e) && e.key == key
    ensures Marked(MarksAfter(events), e)[key] == e.ms
    ensures key in MarksAfter(events) ==> MarksAfter(events)[key] < e.ms
  {}

  /** Accepted points of a hash strictly increase while it stays ready, whichever snapshots they come from. */
  lemma AcceptedIncrease(events: seq<Event>, i: nat, j: nat)
    requires i < j < |events| && AcceptedAt(events, i) && AcceptedAt(events, j)
    requires events[i].key == events[j].key && StaysReady(events[..j], i, events[i].key)
    ensures events[i].ms < events[j].ms
  {
    var before, key := events[..j], events[i].key;
    assert before[..i] == events[..i];
    assert StillCounts(before, i, key);
    if events[i].ms >= events[j].ms {
      assert Outdated(before, key, events[j].ms);
      MarkedExactly(before, key, events[j].ms);
    }
  }

  /** A point the sink refused leaves no trace: the same point can be published at the next attempt. */
  lemma RefusedCanRetry(events: seq<Event>, key: Name, ms: int)
    requires !(key in MarksAfter(events) && ms <= MarksAfter(events)[key])
    ensures Accepted(MarksAfter(events + [Tried(key, ms, false)]), Tried(key, ms, true))
  {
    assert (events + [Tried(key, ms, false)])[..|events|] == events;
  }

  /**
   * The order is lost with the mark: whatever went out before, a tick that drops the hash lets every point of it go out
   * again.
   */
  lemma PrunedCanRepeat(events: seq<Event>, keys: set<Name>, key: Name, ms: int)
    requires key !in keys
    ensures AcceptedAt(events + [Kept(keys), Tried(key, ms, true)], |events| + 1)
  {
    var dropped := events + [Kept(keys)];
    assert dropped[|events|] == Kept(keys);
    MarkedExactly(dropped, key, ms);
    assert (events + [Kept(keys), Tried(key, ms, true)])[..|events| + 1] == dropped;
  }
}
