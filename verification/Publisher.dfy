/** publisher.go:547-629 and 676-771: a tick's publishing, from the ready hashes to the sink. */
module Publisher {
  import opened Basics
  import opened Names
  import opened DruidWindows
  import opened SnapshotCache
  import opened PublishHorizon
  import Liveness

  /** What the tick's publishing rests on besides the fits: a span the worker owns and that is alive, with a fit. */
  predicate MayPublish(span: MetricSpan, owned: bool, fitted: Fits, c: Liveness.Config, now: int, ts: int) {
    && owned && Liveness.Alive(span, c.lookback, c.staleAfter, now)
    && span.hash in fitted && Choose(fitted[span.hash].snap, ts).Publish?
  }

  function PointOf(span: MetricSpan, fitted: Fits, ts: int): int
    requires span.hash in fitted && Choose(fitted[span.hash].snap, ts).Publish?
  {
    UnixMilli(Choose(fitted[span.hash].snap, ts).at)
  }

  /** The attempt to publish a hash from its fit: none without a fit or a point. */
  function Attempt(key: Name, fitted: Fits, ts: int, sink: bool): seq<Event> {
    if key in fitted && Choose(fitted[key].snap, ts).Publish?
    then [Tried(key, UnixMilli(Choose(fitted[key].snap, ts).at), sink)] else []
  }

  function Turn(span: MetricSpan, owned: bool, fitted: Fits, c: Liveness.Config, now: int, ts: int, sink: bool)
    : seq<Event>
  {
    if owned && Liveness.Alive(span, c.lookback, c.staleAfter, now) then Attempt(span.hash, fitted, ts, sink) else []
  }

  /** The attempts of the first `n` turns of the publish loop; `sink(i)` is whether the sink would take the i-th. */
  function Tries(spans: seq<MetricSpan>, owned: seq<bool>, fitted: Fits, c: Liveness.Config, now: int, ts: int,
                 sink: nat -> bool, n: nat): seq<Event>
    requires |owned| == |spans| && n <= |spans|
  {
    if n == 0 then []
    else
      Tries(spans, owned, fitted, c, now, ts, sink, n - 1)
      + Turn(spans[n - 1], owned[n - 1], fitted, c, now, ts, sink(n - 1))
  }

  /** How many of the events after the first `n` the sink accepted. */
  function AcceptedSince(events: seq<Event>, n: nat): nat {
    if |events| <= n then 0
    else
      var last := |events| - 1;
      AcceptedSince(events[..last], n) + if Accepted(MarksAfter(events[..last]), events[last]) then 1 else 0
  }

  lemma AcceptedNext(events: seq<Event>, n: nat, e: Event)
    requires n <= |events|
    ensures AcceptedSince(events + [e], n)
         == AcceptedSince(events, n) + if Accepted(MarksAfter(events), e) then 1 else 0
    ensures MarksAfter(events + [e]) == Marked(MarksAfter(events), e)
  {
    assert (events + [e])[..|events|] == events;
  }

  /** The places of the accepted attempts after the first `n` events. */
  ghost function AcceptedPlaces(events: seq<Event>, n: nat): set<nat> {
    set i: nat | n <= i < |events| && AcceptedAt(events, i)
  }

  lemma PlacesNext(events: seq<Event>, n: nat)
    requires n < |events|
    ensures
      var last := |events| - 1;
      && last !in AcceptedPlaces(events[..last], n)
      && AcceptedPlaces(events, n)
         == AcceptedPlaces(events[..last], n) + if AcceptedAt(events, last) then {last} else {}
  {
    var last := |events| - 1;
    hide MarksAfter, Accepted;
    forall i: nat | i < last
      ensures AcceptedAt(events[..last], i) <==> AcceptedAt(events, i)
    {
      assert events[..last][..i] == events[..i];
    }
  }

  /** The count is of the accepted attempts. */
  lemma {:induction false} AcceptedSinceIs(events: seq<Event>, n: nat)
    ensures AcceptedSince(events, n) == |AcceptedPlaces(events, n)|
  {
    if |events| <= n {
      assert AcceptedPlaces(events, n) == {};
    } else {
      AcceptedSinceIs(events[..|events| - 1], n);
      PlacesNext(events, n);
      hide AcceptedPlaces, MarksAfter, Accepted;
    }
  }

  lemma AttemptCounts(events: seq<Event>, n: nat, attempt: seq<Event>)
    requires n <= |events| && |attempt| <= 1
    ensures AcceptedSince(events + attempt, n)
         == AcceptedSince(events, n) + if attempt != [] && Accepted(MarksAfter(events), attempt[0]) then 1 else 0
  {
    if attempt == [] {
      assert events + attempt == events;
    } else {
      assert attempt == [attempt[0]];
      AcceptedNext(events, n, attempt[0]);
    }
  }

  lemma NoTurnYet(events: seq<Event>, spans: seq<MetricSpan>, owned: seq<bool>, fitted: Fits, c: Liveness.Config,
                  now: int, ts: int, sink: nat -> bool)
    requires |owned| == |spans|
    ensures events + Tries(spans, owned, fitted, c, now, ts, sink, 0) == events && AcceptedSince(events, |events|) == 0
  {}

  lemma TurnCounts(events: seq<Event>, spans: seq<MetricSpan>, owned: seq<bool>, fitted: Fits, c: Liveness.Config,
                   now: int, ts: int, sink: nat -> bool, n: nat)
    requires |owned| == |spans| && n < |spans|
    ensures
      var before := events + Tries(spans, owned, fitted, c, now, ts, sink, n);
      var turn := Turn(spans[n], owned[n], fitted, c, now, ts, sink(n));
      var after := events + Tries(spans, owned, fitted, c, now, ts, sink, n + 1);
      && after == before + turn
      && AcceptedSince(after, |events|) == AcceptedSince(before, |events|)
         + if turn != [] && Accepted(MarksAfter(before), turn[0]) then 1 else 0
  {
    var before := events + Tries(spans, owned, fitted, c, now, ts, sink, n);
    var turn := Turn(spans[n], owned[n], fitted, c, now, ts, sink(n));
    assert events + Tries(spans, owned, fitted, c, now, ts, sink, n + 1) == before + turn;
    AttemptCounts(before, |events|, turn);
  }

  class Publisher {
    const cfg: Liveness.Config
    const cacheTTL: int
    const aheadMinutes: int
    var freshAt: Option<int>
    var fitted: Fits
    var published: Marks
    ghost var events: seq<Event>

    ghost predicate Valid()
      reads this
    {
      published == MarksAfter(events)
    }

    ghost function State(): Cache
      reads this
    {
      Cache(freshAt, fitted)
    }

    constructor (cfg: Liveness.Config, cacheTTL: int, aheadMinutes: int)
      ensures Valid() && State() == Cache(None, map[]) && events == []
      ensures this.cfg == cfg && this.cacheTTL == cacheTTL && this.aheadMinutes == aheadMinutes
    {
      this.cfg, this.cacheTTL, this.aheadMinutes := cfg, cacheTTL, aheadMinutes;
      freshAt, fitted, published, events := None, map[], map[], [];
    }

    method PruneFits(keys: seq<Name>)
      requires Valid()
      modifies this`fitted, this`published, this`events
      ensures Valid() && events == old(events) + [Kept(Elements(keys))]
      ensures fitted == Pruned(old(fitted), keys)
      ensures forall k :: k in fitted <==> k in old(fitted) && k in keys
      ensures forall k :: k in fitted ==> fitted[k] == old(fitted)[k]
      ensures forall k :: k in published <==> k in old(published) && k in keys
      ensures forall k :: k in published ==> published[k] == old(published)[k]
    {
      fitted := map k | k in fitted && k in keys :: fitted[k];
      published := map k | k in published && k in keys :: published[k];
      AcceptedNext(events, 0, Kept(Elements(keys)));
      events := events + [Kept(Elements(keys))];
    }

    /** One freshness query at most per refresh period, and a read for each key whose stored fit moved. */
    method RefreshSnapshots(t: Tick, log: Timeline, ghost begin: nat, ghost end: nat)
      requires TickReads(t, begin, end) && end <= |log|
      modifies this`fitted, this`freshAt
      ensures State() == Refreshed(old(State()), cacheTTL, t, log, begin, end)
      ensures t.keys == [] || !PeriodOver(old(freshAt), cacheTTL, t.now) || t.asked.Unanswered? ==>
                freshAt == old(freshAt) && fitted == old(fitted)
      ensures t.keys != [] && PeriodOver(old(freshAt), cacheTTL, t.now) && t.asked.At? ==> freshAt == Some(t.now)
    {
      if |t.keys| == 0 {
        return;
      }
      if freshAt.Some? && t.now - freshAt.value < cacheTTL {
        return;
      }
      if t.asked.Unanswered? {
        return;
      }
      freshAt := Some(t.now);
      for i := 0 to |t.keys|
        invariant freshAt == Some(t.now)
        invariant fitted == RefreshKeys(old(fitted), t.keys[..i], log, t.asked.pos, t.gets[..i])
      {
        var key := t.keys[i];
        assert t.keys[..i + 1][..i] == t.keys[..i] && t.gets[..i + 1][..i] == t.gets[..i];
        var updated := Current(log[..t.asked.pos], key);
        if updated.None? {
          fitted := fitted - {key};
          continue;
        }
        if key in fitted && fitted[key].updatedAt == updated.value.at {
          continue;
        }
        if t.gets[i].Unanswered? {
          continue;
        }
        var got := Current(log[..t.gets[i].pos], key);
        if got.None? {
          fitted := fitted - {key};
          continue;
        }
        if !got.value.snap.readable {
          continue;
        }
        fitted := fitted[key := Fit(updated.value.at, got.value.snap)];
      }
      assert t.keys[..|t.keys|] == t.keys && t.gets[..|t.keys|] == t.gets;
    }

    method Publish(key: Name, at: int, sink: bool) returns (ok: bool)
      requires Valid()
      modifies this`published, this`events
      ensures Valid() && events == old(events) + [Tried(key, UnixMilli(at), sink)]
      ensures ok == Accepted(MarksAfter(old(events)), Tried(key, UnixMilli(at), sink))
      ensures ok <==> sink && (key in old(published) ==> old(published)[key] < UnixMilli(at))
      ensures published == if ok then old(published)[key := UnixMilli(at)] else old(published)
    {
      var ms := UnixMilli(at);
      AcceptedNext(events, 0, Tried(key, ms, sink));
      events := events + [Tried(key, ms, sink)];
      if key in published && ms <= published[key] {
        return false;
      }
      if !sink {
        return false;
      }
      published := published[key := ms];
      return true;
    }

    method EmitSnapshot(key: Name, ts: int, sink: bool) returns (ok: bool)
      requires Valid()
      modifies this`published, this`events
      ensures Valid() && events == old(events) + Attempt(key, fitted, ts, sink)
      ensures
        var attempt := Attempt(key, fitted, ts, sink);
        ok == (attempt != [] && Accepted(MarksAfter(old(events)), attempt[0]))
    {
      if key !in fitted {
        return false;
      }
      var out := ForecastRange(fitted[key].snap, ts - MINUTE, ts);
      if out.Err? {
        return false;
      }
      var point := out.value[|out.value| - 1];
      if point.at <= LastOf(fitted[key].snap) {
        return false;
      }
      if point.value.None? {
        return false;
      }
      ok := Publish(key, point.at, sink);
    }

    /**
     * A tick's publishing over a scan, with the tick's ownership decisions. `cancelled(i)` is whether the tick was
     * told to stop before turn i; `seen` is the number of turns taken.
     */
    method Emit(spans: seq<MetricSpan>, owned: seq<bool>, t: Tick, log: Timeline, sink: nat -> bool,
                cancelled: nat -> bool, ghost begin: nat, ghost end: nat) returns (count: nat, ghost seen: nat)
      requires Valid() && |owned| == |spans| && TickReads(t, begin, end) && end <= |log|
      modifies this
      ensures Valid() && State() == Ticked(old(State()), cacheTTL, t, log, begin, end)
      ensures seen <= |spans| && (seen < |spans| ==> cancelled(seen)) && forall i: nat :: i < seen ==> !cancelled(i)
      ensures events == old(events) + [Kept(Elements(t.keys))]
                        + Tries(spans, owned, fitted, cfg, t.now, Horizon(t.now, aheadMinutes), sink, seen)
      ensures count == AcceptedSince(events, |old(events)| + 1)
    {
      PruneFits(t.keys);
      RefreshSnapshots(t, log, begin, end);
      count, seen := PublishReady(spans, owned, t.now, Horizon(t.now, aheadMinutes), sink, cancelled);
    }

    /** The publish loop. */
    method PublishReady(spans: seq<MetricSpan>, owned: seq<bool>, now: int, ts: int, sink: nat -> bool,
                        cancelled: nat -> bool) returns (count: nat, ghost seen: nat)
      requires Valid() && |owned| == |spans|
      modifies this`published, this`events
      ensures Valid()
      ensures seen <= |spans| && (seen < |spans| ==> cancelled(seen)) && forall i: nat :: i < seen ==> !cancelled(i)
      ensures events == old(events) + Tries(spans, owned, fitted, cfg, now, ts, sink, seen)
      ensures count == AcceptedSince(events, |old(events)|)
    {
      hide Choose, MarksAfter, Accepted, AcceptedSince, Liveness.Alive, Tries;
      NoTurnYet(old(events), spans, owned, fitted, cfg, now, ts, sink);
      count, seen := 0, 0;
      for i := 0 to |spans|
        invariant Valid() && seen == i
        invariant forall j: nat :: j < i ==> !cancelled(j)
        invariant events == old(events) + Tries(spans, owned, fitted, cfg, now, ts, sink, i)
        invariant count == AcceptedSince(events, |old(events)|)
      {
        if cancelled(i) {
          return;
        }
        seen := i + 1;
        TurnCounts(old(events), spans, owned, fitted, cfg, now, ts, sink, i);
        if !owned[i] {
          continue;
        }
        if !Liveness.Alive(spans[i], cfg.lookback, cfg.staleAfter, now) {
          continue;
        }
        var ok := EmitSnapshot(spans[i].hash, ts, sink(i));
        if ok {
          count := count + 1;
        }
      }
    }
  }

  /** A tick tries only hashes it owns and that are alive, each at the newest grid point not after the horizon. */
  lemma {:induction false} TriesAreReady(spans: seq<MetricSpan>, owned: seq<bool>, fitted: Fits, c: Liveness.Config,
                                         now: int, ts: int, sink: nat -> bool, n: nat, k: nat)
    requires |owned| == |spans| && n <= |spans| && k < |Tries(spans, owned, fitted, c, now, ts, sink, n)|
    requires forall key :: key in fitted ==> fitted[key].snap.first <= 0
    ensures
      var e := Tries(spans, owned, fitted, c, now, ts, sink, n)[k];
      e.Tried? && exists i :: 0 <= i < n && spans[i].hash == e.key && owned[i]
                              && Liveness.Alive(spans[i], c.lookback, c.staleAfter, now)
                              && e.key in fitted && PublishesAt(fitted[e.key].snap, ts, e.ms)
  {
    var before := Tries(spans, owned, fitted, c, now, ts, sink, n - 1);
    if k < |before| {
      TriesAreReady(spans, owned, fitted, c, now, ts, sink, n - 1, k);
    } else {
      PublishesExactly(fitted[spans[n - 1].hash].snap, ts);
      var at := Choose(fitted[spans[n - 1].hash].snap, ts).at;
      assert Greatest(fitted[spans[n - 1].hash].snap, ts, at);
    }
  }

  ghost predicate PublishesAt(s: Snapshot, ts: int, ms: int) {
    ts >= LastOf(s) + MINUTE && exists at :: Greatest(s, ts, at) && UnixMilli(at) == ms
  }

  /** A turn lowers no mark, and when it may publish to a working sink leaves its own at least at its point. */
  lemma TurnMarks(events: seq<Event>, span: MetricSpan, owned: bool, fitted: Fits, c: Liveness.Config, now: int,
                  ts: int, sink: bool, key: Name)
    ensures
      var before, after := MarksAfter(events), MarksAfter(events + Turn(span, owned, fitted, c, now, ts, sink));
      && (key in before ==> key in after && after[key] >= before[key])
      && (MayPublish(span, owned, fitted, c, now, ts) && sink ==>
            span.hash in after && after[span.hash] >= PointOf(span, fitted, ts))
  {
    var turn := Turn(span, owned, fitted, c, now, ts, sink);
    if turn == [] {
      assert events + turn == events;
    } else {
      assert turn == [turn[0]];
      AcceptedNext(events, 0, turn[0]);
    }
  }

  /** After its turn a hash that may publish, with a working sink, is marked at its point or a newer one. */
  lemma {:induction false} ReadyIsMarked(events: seq<Event>, spans: seq<MetricSpan>, owned: seq<bool>, fitted: Fits,
                                         c: Liveness.Config, now: int, ts: int, sink: nat -> bool, n: nat, i: nat)
    requires |owned| == |spans| && i < n <= |spans|
    requires MayPublish(spans[i], owned[i], fitted, c, now, ts) && sink(i)
    ensures
      var marks := MarksAfter(events + Tries(spans, owned, fitted, c, now, ts, sink, n));
      spans[i].hash in marks && marks[spans[i].hash] >= PointOf(spans[i], fitted, ts)
  {
    hide MarksAfter, Turn, Choose, Liveness.Alive;
    var before := Tries(spans, owned, fitted, c, now, ts, sink, n - 1);
    var turn := Turn(spans[n - 1], owned[n - 1], fitted, c, now, ts, sink(n - 1));
    assert events + (before + turn) == (events + before) + turn;
    TurnMarks(events + before, spans[n - 1], owned[n - 1], fitted, c, now, ts, sink(n - 1), spans[i].hash);
    if i < n - 1 {
      ReadyIsMarked(events, spans, owned, fitted, c, now, ts, sink, n - 1, i);
    }
  }
}
