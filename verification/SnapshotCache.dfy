/**
 * publisher.go:688-771 and store_postgres.go:109-210: the fits a worker keeps in memory beside a store others write.
 *
 * The shared table is a timeline of the changes committed to it; a read is answered at a position of the timeline.
 */
module SnapshotCache {
  import opened Basics
  import opened Names

  /**
   * A stored model: its last point (milliseconds), the first step of its grid (0 is the last point), and the value at
   * each step (absent: not a number). `readable` is whether it can be restored into a fit.
   */
  datatype Snapshot = Snapshot(last: int, first: int, values: map<int, real>, readable: bool)

  datatype Change = Put(key: Name, at: int, snap: Snapshot) | Delete(key: Name)

  type Timeline = seq<Change>

  datatype Version = Version(at: int, snap: Snapshot)

  /** The row of a key after all changes of the timeline. */
  function Current(log: Timeline, key: Name): Option<Version> {
    if log == [] then None
    else
      var c := log[|log| - 1];
      if c.key == key then (if c.Put? then Some(Version(c.at, c.snap)) else None)
      else Current(log[..|log| - 1], key)
  }

  /** `updated_at` strictly increases over the writes of a key, also across a deletion. */
  ghost predicate ClockAdvances(log: Timeline) {
    forall i, j :: 0 <= i < j < |log| && log[i].Put? && log[j].Put? && log[i].key == log[j].key ==>
                     log[i].at < log[j].at
  }

  /** A cached fit. `updatedAt` is what the freshness query said, `snap` what the later read returned. */
  datatype Fit = Fit(updatedAt: int, snap: Snapshot)

  type Fits = map<Name, Fit>

  /** A read: answered at a position, or failed. */
  datatype Read = Unanswered | At(pos: nat)

  /** One turn of the refresh loop. */
  function RefreshKey(fitted: Fits, key: Name, log: Timeline, asked: nat, get: Read): Fits
    requires asked <= |log| && (get.At? ==> get.pos <= |log|)
  {
    var updated := Current(log[..asked], key);
    if updated.None? then fitted - {key}
    else if key in fitted && fitted[key].updatedAt == updated.value.at then fitted
    else if get.Unanswered? then fitted
    else
      var got := Current(log[..get.pos], key);
      if got.None? then fitted - {key}
      else if !got.value.snap.readable then fitted
      else fitted[key := Fit(updated.value.at, got.value.snap)]
  }

  function RefreshKeys(fitted: Fits, keys: seq<Name>, log: Timeline, asked: nat, gets: seq<Read>): Fits
    requires |gets| == |keys| && asked <= |log|
    requires forall i :: 0 <= i < |gets| && gets[i].At? ==> gets[i].pos <= |log|
  {
    if keys == [] then fitted
    else
      var n := |keys| - 1;
      RefreshKey(RefreshKeys(fitted, keys[..n], log, asked, gets[..n]), keys[n], log, asked, gets[n])
  }

  /** One tick's use of the store: the ready keys, the clock, the freshness query, a read per key. */
  datatype Tick = Tick(keys: seq<Name>, now: int, asked: Read, gets: seq<Read>)

  /** The reads follow the freshness query, inside the stretch of the timeline the tick takes. */
  ghost predicate TickReads(t: Tick, begin: nat, end: nat) {
    && begin <= end && |t.gets| == |t.keys|
    && (t.asked.At? ==> begin <= t.asked.pos <= end)
    && forall i :: 0 <= i < |t.gets| && t.asked.At? && t.gets[i].At? ==> t.asked.pos <= t.gets[i].pos <= end
  }

  datatype Cache = Cache(freshAt: Option<int>, fitted: Fits)

  function Pruned<V>(m: map<Name, V>, keys: seq<Name>): (r: map<Name, V>) {
    map k | k in m && k in keys :: m[k]
  }

  /** Nothing is asked inside the refresh period, nor for no key. */
  predicate Asks(c: Cache, ttl: int, t: Tick) {
    |t.keys| > 0 && (c.freshAt.Some? ==> t.now - c.freshAt.value >= ttl)
  }

  function Refreshed(c: Cache, ttl: int, t: Tick, log: Timeline, begin: nat, end: nat): Cache
    requires TickReads(t, begin, end) && end <= |log|
  {
    if !Asks(c, ttl, t) || t.asked.Unanswered? then c
    else Cache(Some(t.now), RefreshKeys(c.fitted, t.keys, log, t.asked.pos, t.gets))
  }

  function Ticked(c: Cache, ttl: int, t: Tick, log: Timeline, begin: nat, end: nat): Cache
    requires TickReads(t, begin, end) && end <= |log|
  {
    Refreshed(c.(fitted := Pruned(c.fitted, t.keys)), ttl, t, log, begin, end)
  }

  /** No freshness query was answered within the refresh period. */
  ghost predicate PeriodOver(freshAt: Option<int>, ttl: int, now: int) {
    freshAt.None? || freshAt.value + ttl <= now
  }

  ghost predicate SameEntry(a: Fits, b: Fits, key: Name) {
    (key in a <==> key in b) && (key in a && key in b ==> a[key] == b[key])
  }

  /** Every read of the key fails, or finds a model that cannot be restored. */
  ghost predicate NoReadWorks(log: Timeline, keys: seq<Name>, gets: seq<Read>, key: Name)
    requires |gets| == |keys|
  {
    forall i :: 0 <= i < |keys| && keys[i] == key && gets[i].At? ==>
                  && gets[i].pos <= |log|
                  && Current(log[..gets[i].pos], key).Some? && !Current(log[..gets[i].pos], key).value.snap.readable
  }

  /**
   * What an answered freshness query leaves of an entry: gone if the store has no row; as it was if its label is the
   * row's, if every read of it fails, or if it was not asked for.
   */
  lemma {:induction false} RefreshKeysLeave(fitted: Fits, keys: seq<Name>, log: Timeline, asked: nat, gets: seq<Read>,
                                            key: Name)
    requires |gets| == |keys| && asked <= |log|
    requires forall i :: 0 <= i < |gets| && gets[i].At? ==> gets[i].pos <= |log|
    ensures
      var after, row := RefreshKeys(fitted, keys, log, asked, gets), Current(log[..asked], key);
      && (key !in keys ==> SameEntry(after, fitted, key))
      && (key in keys && row.None? ==> key !in after)
      && (key in fitted && row.Some? && fitted[key].updatedAt == row.value.at ==> SameEntry(after, fitted, key))
      && (row.Some? && NoReadWorks(log, keys, gets, key) ==> SameEntry(after, fitted, key))
  {
    if keys != [] {
      var n := |keys| - 1;
      hide Current;
      RefreshKeysLeave(fitted, keys[..n], log, asked, gets[..n], key);
      assert keys == keys[..n] + [keys[n]];
      if NoReadWorks(log, keys, gets, key) {
        assert NoReadWorks(log, keys[..n], gets[..n], key);
      }
    }
  }

  /**
   * A tick's refresh: nothing changes when no key is ready, inside the refresh period, or when the freshness query
   * fails; otherwise the period starts anew at the tick's clock, and a key whose reads fail keeps its fit.
   */
  lemma RefreshLeaves(c: Cache, ttl: int, t: Tick, log: Timeline, begin: nat, end: nat)
    requires TickReads(t, begin, end) && end <= |log|
    ensures t.keys == [] || !PeriodOver(c.freshAt, ttl, t.now) || t.asked.Unanswered? ==>
              Refreshed(c, ttl, t, log, begin, end) == c
    ensures t.keys != [] && PeriodOver(c.freshAt, ttl, t.now) && t.asked.At? ==>
              var after := Refreshed(c, ttl, t, log, begin, end);
              && after.freshAt == Some(t.now)
              && forall key :: Current(log[..t.asked.pos], key).Some? && NoReadWorks(log, t.keys, t.gets, key) ==>
                   SameEntry(after.fitted, c.fitted, key)
  {
    if t.asked.At? {
      forall key
        ensures Current(log[..t.asked.pos], key).Some? && NoReadWorks(log, t.keys, t.gets, key) ==>
                  SameEntry(RefreshKeys(c.fitted, t.keys, log, t.asked.pos, t.gets), c.fitted, key)
      {
        RefreshKeysLeave(c.fitted, t.keys, log, t.asked.pos, t.gets, key);
      }
    }
  }

  // Coherence.

  /** The content is some write of the key, and no older than the label. */
  ghost predicate NotOlder(log: Timeline, key: Name, fit: Fit) {
    exists i :: 0 <= i < |log| && log[i].Put? && log[i].key == key && log[i].snap == fit.snap
                && log[i].at >= fit.updatedAt
  }

  ghost predicate Coherent(log: Timeline, fitted: Fits) {
    forall key :: key in fitted ==> NotOlder(log, key, fitted[key])
  }

  lemma {:induction false} CurrentIsLastPut(log: Timeline, key: Name) returns (i: nat)
    requires Current(log, key).Some?
    ensures i < |log| && log[i].Put? && log[i].key == key && Current(log, key) == Some(Version(log[i].at, log[i].snap))
    ensures forall j :: i < j < |log| ==> log[j].key != key
  {
    var n := |log| - 1;
    if log[n].key == key {
      i := n;
    } else {
      i := CurrentIsLastPut(log[..n], key);
    }
  }

  /** The row of a key is the last write of it that no later write or deletion followed. */
  lemma {:induction false} CurrentExactly(log: Timeline, key: Name, v: Version)
    ensures Current(log, key) == Some(v) <==>
            exists i :: LastChange(log, key, i) && log[i].Put? && Version(log[i].at, log[i].snap) == v
  {
    if log != [] {
      var n := |log| - 1;
      CurrentExactly(log[..n], key, v);
      if log[n].key == key {
        assert forall i :: LastChange(log, key, i) ==> i == n;
        assert LastChange(log, key, n);
      } else {
        assert forall i :: LastChange(log, key, i) <==> LastChange(log[..n], key, i);
      }
    }
  }

  ghost predicate LastChange(log: Timeline, key: Name, i: int) {
    0 <= i < |log| && log[i].key == key && forall j :: i < j < |log| ==> log[j].key != key
  }

  lemma NotOlderExtends(log: Timeline, p: nat, q: nat, key: Name, fit: Fit)
    requires p <= q <= |log| && NotOlder(log[..p], key, fit)
    ensures NotOlder(log[..q], key, fit)
  {
    var i :| 0 <= i < p && log[..p][i].Put? && log[..p][i].key == key && log[..p][i].snap == fit.snap
             && log[..p][i].at >= fit.updatedAt;
    assert log[..q][i] == log[..p][i];
  }

  /** What a read returns is no older than what any earlier freshness query said. */
  lemma ReadNotOlder(log: Timeline, asked: nat, pos: nat, key: Name)
    requires ClockAdvances(log) && asked <= pos <= |log|
    requires Current(log[..asked], key).Some? && Current(log[..pos], key).Some?
    ensures NotOlder(log[..pos], key, Fit(Current(log[..asked], key).value.at, Current(log[..pos], key).value.snap))
  {
    var i := CurrentIsLastPut(log[..asked], key);
    var j := CurrentIsLastPut(log[..pos], key);
    assert log[..pos][i] == log[i] && log[..asked][i] == log[i];
  }

  /** A key is skipped only when its cached content is the store's at the freshness query. */
  lemma SkipIsExact(log: Timeline, asked: nat, key: Name, fit: Fit)
    requires ClockAdvances(log) && asked <= |log| && NotOlder(log[..asked], key, fit)
    requires Current(log[..asked], key).Some? && Current(log[..asked], key).value.at == fit.updatedAt
    ensures Current(log[..asked], key).value.snap == fit.snap
  {
    var past := log[..asked];
    var i :| 0 <= i < |past| && past[i].Put? && past[i].key == key && past[i].snap == fit.snap
             && past[i].at >= fit.updatedAt;
    var j := CurrentIsLastPut(past, key);
    assert past[i] == log[i] && past[j] == log[j];
  }

  /** What the cache holds for a key is what the store held at one moment from `asked` to `end`, absence included. */
  ghost predicate HeldDuring(log: Timeline, asked: nat, end: nat, key: Name, fitted: Fits)
    requires asked <= end <= |log|
  {
    exists p :: asked <= p <= end && StoreHas(log, p, key, fitted)
  }

  ghost predicate StoreHas(log: Timeline, p: nat, key: Name, fitted: Fits)
    requires p <= |log|
  {
    if key in fitted then Current(log[..p], key).Some? && Current(log[..p], key).value.snap == fitted[key].snap
    else Current(log[..p], key).None?
  }

  /** The cache is settled on a key: current as of the refresh, under the label the freshness query gave. */
  ghost predicate Settled(log: Timeline, asked: nat, end: nat, key: Name, fitted: Fits)
    requires asked <= end <= |log|
  {
    && HeldDuring(log, asked, end, key, fitted)
    && (key in fitted ==> Current(log[..asked], key).Some?
                          && fitted[key].updatedAt == Current(log[..asked], key).value.at)
  }

  /** The read of a key did not fail: answered, with a row that is gone or can be restored. */
  ghost predicate ReadWorks(log: Timeline, key: Name, get: Read) {
    && get.At? && get.pos <= |log|
    && (Current(log[..get.pos], key).Some? ==> Current(log[..get.pos], key).value.snap.readable)
  }

  lemma RefreshKeyKeeps(fitted: Fits, key: Name, log: Timeline, asked: nat, get: Read, end: nat)
    requires ClockAdvances(log) && asked <= end <= |log|
    requires get.At? ==> asked <= get.pos <= end
    requires Coherent(log[..end], fitted)
    ensures Coherent(log[..end], RefreshKey(fitted, key, log, asked, get))
  {
    var after := RefreshKey(fitted, key, log, asked, get);
    if key in after && (key !in fitted || after[key] != fitted[key]) {
      ReadNotOlder(log, asked, get.pos, key);
      NotOlderExtends(log, get.pos, end, key, after[key]);
    }
  }

  /** One turn settles its key unless its read fails, and keeps settled keys settled. */
  lemma RefreshKeySettles(fitted: Fits, key: Name, log: Timeline, asked: nat, get: Read, end: nat, other: Name)
    requires ClockAdvances(log) && asked <= end <= |log|
    requires get.At? ==> asked <= get.pos <= end
    requires key in fitted ==> NotOlder(log[..asked], key, fitted[key]) || Settled(log, asked, end, key, fitted)
    ensures
      var after := RefreshKey(fitted, key, log, asked, get);
      && (ReadWorks(log, key, get) ==> Settled(log, asked, end, key, after))
      && (Settled(log, asked, end, other, fitted) ==> Settled(log, asked, end, other, after))
  {
    var after := RefreshKey(fitted, key, log, asked, get);
    var updated := Current(log[..asked], key);
    if updated.None? {
      assert StoreHas(log, asked, key, after);
    } else if key in fitted && fitted[key].updatedAt == updated.value.at {
      if NotOlder(log[..asked], key, fitted[key]) {
        SkipIsExact(log, asked, key, fitted[key]);
        assert StoreHas(log, asked, key, after);
      }
    } else if get.At? {
      assert ReadWorks(log, key, get) ==> StoreHas(log, get.pos, key, after);
      assert !ReadWorks(log, key, get) ==> after == fitted;
    }
    if other != key && Settled(log, asked, end, other, fitted) {
      var p :| asked <= p <= end && StoreHas(log, p, other, fitted);
      assert StoreHas(log, p, other, after);
    }
  }

  /** A key not yet visited keeps its entry. */
  lemma {:induction false} Untouched(fitted: Fits, keys: seq<Name>, log: Timeline, asked: nat, gets: seq<Read>,
                                     key: Name)
    requires |gets| == |keys| && asked <= |log|
    requires forall i :: 0 <= i < |gets| && gets[i].At? ==> gets[i].pos <= |log|
    requires key !in keys
    ensures
      var after := RefreshKeys(fitted, keys, log, asked, gets);
      (key in after <==> key in fitted) && (key in after ==> after[key] == fitted[key])
  {
    if keys != [] {
      var n := |keys| - 1;
      Untouched(fitted, keys[..n], log, asked, gets[..n], key);
    }
  }

  /** Coherence at the freshness query, for every key, is all the loop needs. */
  lemma {:induction false} RefreshKeysKeep(fitted: Fits, keys: seq<Name>, log: Timeline, asked: nat, gets: seq<Read>,
                                           end: nat)
    requires ClockAdvances(log) && asked <= end <= |log| && |gets| == |keys|
    requires forall i :: 0 <= i < |gets| && gets[i].At? ==> asked <= gets[i].pos <= end
    requires Coherent(log[..asked], fitted)
    ensures Coherent(log[..end], RefreshKeys(fitted, keys, log, asked, gets))
  {
    if keys == [] {
      forall key | key in fitted
        ensures NotOlder(log[..end], key, fitted[key])
      {
        NotOlderExtends(log, asked, end, key, fitted[key]);
      }
    } else {
      var n := |keys| - 1;
      RefreshKeysKeep(fitted, keys[..n], log, asked, gets[..n], end);
      RefreshKeyKeeps(RefreshKeys(fitted, keys[..n], log, asked, gets[..n]), keys[n], log, asked, gets[n], end);
    }
  }

  /** At each moment of the loop an entry is as it was at the freshness query, or settled. */
  lemma {:induction false} OldOrSettled(fitted: Fits, keys: seq<Name>, log: Timeline, asked: nat, gets: seq<Read>,
                                        end: nat, key: Name)
    requires ClockAdvances(log) && asked <= end <= |log| && |gets| == |keys|
    requires forall i :: 0 <= i < |gets| && gets[i].At? ==> asked <= gets[i].pos <= end
    requires Coherent(log[..asked], fitted)
    ensures
      var after := RefreshKeys(fitted, keys, log, asked, gets);
      key in after ==> NotOlder(log[..asked], key, after[key]) || Settled(log, asked, end, key, after)
  {
    if keys != [] {
      var n := |keys| - 1;
      var before := RefreshKeys(fitted, keys[..n], log, asked, gets[..n]);
      OldOrSettled(fitted, keys[..n], log, asked, gets[..n], end, key);
      OldOrSettled(fitted, keys[..n], log, asked, gets[..n], end, keys[n]);
      RefreshKeySettles(before, keys[n], log, asked, gets[n], end, key);
    }
  }

  /** A refresh settles every key whose read does not fail. */
  lemma {:induction false} RefreshSettles(fitted: Fits, keys: seq<Name>, log: Timeline, asked: nat, gets: seq<Read>,
                                          end: nat, i: nat)
    requires ClockAdvances(log) && asked <= end <= |log| && |gets| == |keys| && i < |keys|
    requires forall i :: 0 <= i < |gets| && gets[i].At? ==> asked <= gets[i].pos <= end
    requires Coherent(log[..asked], fitted) && ReadWorks(log, keys[i], gets[i])
    ensures Settled(log, asked, end, keys[i], RefreshKeys(fitted, keys, log, asked, gets))
  {
    var n := |keys| - 1;
    var before := RefreshKeys(fitted, keys[..n], log, asked, gets[..n]);
    OldOrSettled(fitted, keys[..n], log, asked, gets[..n], end, keys[n]);
    if i < n {
      RefreshSettles(fitted, keys[..n], log, asked, gets[..n], end, i);
    }
    RefreshKeySettles(before, keys[n], log, asked, gets[n], end, keys[i]);
  }

  // Runs.

  /** A worker's ticks since it started, each with the position of the timeline it ended at. */
  datatype Past = Past(tick: Tick, end: nat)

  function EndOf(run: seq<Past>): nat {
    if run == [] then 0 else run[|run| - 1].end
  }

  ghost predicate IsRun(run: seq<Past>, log: Timeline) {
    run != [] ==>
      var n := |run| - 1;
      IsRun(run[..n], log) && TickReads(run[n].tick, EndOf(run[..n]), run[n].end) && run[n].end <= |log|
  }

  function CacheAfter(run: seq<Past>, ttl: int, log: Timeline): Cache
    requires IsRun(run, log)
  {
    if run == [] then Cache(None, map[])
    else
      var n := |run| - 1;
      Ticked(CacheAfter(run[..n], ttl, log), ttl, run[n].tick, log, EndOf(run[..n]), run[n].end)
  }

  /**
   * Whatever other workers wrote or deleted between the two reads, and whichever of the reads failed, a cached fit is
   * never older than its label.
   */
  lemma {:induction false} NeverOlderThanLabel(run: seq<Past>, ttl: int, log: Timeline)
    requires IsRun(run, log) && ClockAdvances(log)
    ensures EndOf(run) <= |log| && Coherent(log[..EndOf(run)], CacheAfter(run, ttl, log).fitted)
  {
    if run != [] {
      var n := |run| - 1;
      NeverOlderThanLabel(run[..n], ttl, log);
      var begin, end := EndOf(run[..n]), run[n].end;
      var before := CacheAfter(run[..n], ttl, log);
      var t := run[n].tick;
      var kept := before.(fitted := Pruned(before.fitted, t.keys));
      var start := if t.asked.At? then t.asked.pos else end;
      CoherentExtends(log, begin, start, kept.fitted);
      CoherentExtends(log, start, end, kept.fitted);
      if Asks(kept, ttl, t) && t.asked.At? {
        RefreshKeysKeep(kept.fitted, t.keys, log, t.asked.pos, t.gets, end);
      }
    }
  }

  lemma CoherentExtends(log: Timeline, p: nat, q: nat, fitted: Fits)
    requires p <= q <= |log| && Coherent(log[..p], fitted)
    ensures Coherent(log[..q], fitted)
  {
    forall key | key in fitted
      ensures NotOlder(log[..q], key, fitted[key])
    {
      NotOlderExtends(log, p, q, key, fitted[key]);
    }
  }

  /**
   * After a refresh every ready key whose read did not fail is, in the cache, what the store held at one moment of
   * the refresh: no entry from before it survives unless the store still had it, and no deleted one.
   */
  lemma RefreshIsCurrent(run: seq<Past>, ttl: int, log: Timeline, i: nat)
    requires IsRun(run, log) && ClockAdvances(log) && run != []
    requires
      var n := |run| - 1;
      var t := run[n].tick;
      && t.asked.At? && |t.keys| > 0 && PeriodOver(CacheAfter(run[..n], ttl, log).freshAt, ttl, t.now)
      && i < |t.keys| && ReadWorks(log, t.keys[i], t.gets[i])
    ensures
      var last := run[|run| - 1];
      last.end <= |log|
      && Settled(log, last.tick.asked.pos, last.end, last.tick.keys[i], CacheAfter(run, ttl, log).fitted)
  {
    var n := |run| - 1;
    NeverOlderThanLabel(run[..n], ttl, log);
    var before := CacheAfter(run[..n], ttl, log);
    var t := run[n].tick;
    var kept := Pruned(before.fitted, t.keys);
    CoherentExtends(log, EndOf(run[..n]), t.asked.pos, kept);
    RefreshSettles(kept, t.keys, log, t.asked.pos, t.gets, run[n].end, i);
  }

  lemma {:induction false} CurrentSame(log: Timeline, p: nat, q: nat, key: Name)
    requires p <= q <= |log| && forall j :: p <= j < q ==> log[j].key != key
    ensures Current(log[..q], key) == Current(log[..p], key)
  {
    if p < q {
      CurrentSame(log, p, q - 1, key);
      assert log[..q][..q - 1] == log[..q - 1];
    }
  }

  /** With no write to a key during the refresh, the cache holds exactly the store's row: its content and its time. */
  lemma QuietRefreshIsExact(run: seq<Past>, ttl: int, log: Timeline, i: nat)
    requires IsRun(run, log) && ClockAdvances(log) && run != []
    requires
      var n := |run| - 1;
      var t := run[n].tick;
      && t.asked.At? && |t.keys| > 0 && PeriodOver(CacheAfter(run[..n], ttl, log).freshAt, ttl, t.now)
      && i < |t.keys| && ReadWorks(log, t.keys[i], t.gets[i])
      && run[n].end <= |log| && forall j :: t.asked.pos <= j < run[n].end ==> log[j].key != t.keys[i]
    ensures
      var last := run[|run| - 1];
      var key := last.tick.keys[i];
      var fitted := CacheAfter(run, ttl, log).fitted;
      Current(log[..last.end], key)
      == if key in fitted then Some(Version(fitted[key].updatedAt, fitted[key].snap)) else None
  {
    RefreshIsCurrent(run, ttl, log, i);
    var last := run[|run| - 1];
    var key := last.tick.keys[i];
    var fitted := CacheAfter(run, ttl, log).fitted;
    var p :| last.tick.asked.pos <= p <= last.end && StoreHas(log, p, key, fitted);
    CurrentSame(log, last.tick.asked.pos, p, key);
    CurrentSame(log, p, last.end, key);
  }

  /** A fit of a hash that stays ready survives any number of failed freshness queries, and so does the period. */
  lemma {:induction false} FitSurvivesOutage(run: seq<Past>, n: nat, ttl: int, log: Timeline, key: Name)
    requires IsRun(run, log) && n <= |run|
    requires forall i :: n <= i < |run| ==> run[i].tick.asked.Unanswered? && key in run[i].tick.keys
    ensures IsRun(run[..n], log)
    ensures CacheAfter(run, ttl, log).freshAt == CacheAfter(run[..n], ttl, log).freshAt
    ensures SameEntry(CacheAfter(run, ttl, log).fitted, CacheAfter(run[..n], ttl, log).fitted, key)
  {
    if n < |run| {
      var last := |run| - 1;
      FitSurvivesOutage(run[..last], n, ttl, log, key);
      assert run[..last][..n] == run[..n];
      var before := CacheAfter(run[..last], ttl, log);
      var t := run[last].tick;
      RefreshLeaves(before.(fitted := Pruned(before.fitted, t.keys)), ttl, t, log, EndOf(run[..last]), run[last].end);
    } else {
      assert run[..n] == run;
    }
  }

  /** Inside the refresh period a tick asks nothing: a key that becomes ready then waits for the next refresh. */
  lemma NewKeyWaits(run: seq<Past>, ttl: int, log: Timeline, key: Name)
    requires IsRun(run, log) && run != []
    requires
      var n := |run| - 1;
      var before := CacheAfter(run[..n], ttl, log);
      before.freshAt.Some? && run[n].tick.now - before.freshAt.value < ttl && key !in before.fitted
    ensures key !in CacheAfter(run, ttl, log).fitted
  {}
}
