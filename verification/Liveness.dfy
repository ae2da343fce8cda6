/** publisher.go:175-281 and 804-884: which metrics a tick trains, publishes and retires. */
module Liveness {
  import opened Basics
  import opened Names
  import opened DruidWindows
  import Rendezvous

  const SECOND := 1_000_000_000
  const MINUTE := 60 * SECOND
  const HOUR := 60 * MINUTE
  const DEFAULT_HASH_SCAN_TTL := 5 * MINUTE

  datatype Config = Config(lookback: int, interval: int, scanRange: int, staleAfter: int, hashScanTTL: int)

  /** The part of `Validate` that the scan and the retirement rest on. */
  predicate Validates(c: Config) {
    && MINUTE <= c.lookback <= MAX_DURATION
    && c.interval >= SECOND
    && (c.scanRange > 0 ==> c.scanRange >= c.lookback + 2 * c.interval)
    && c.staleAfter >= 0
    && (c.staleAfter > 0 ==> c.staleAfter >= ScanTTL(c) + c.interval)
  }

  function ScanTTL(c: Config): int {
    if c.hashScanTTL <= 0 then DEFAULT_HASH_SCAN_TTL else c.hashScanTTL
  }

  function Normalized(c: Config): Config {
    c.(hashScanTTL := ScanTTL(c),
       scanRange := if c.scanRange > 0 then c.scanRange
                    else if 2 * c.lookback > 24 * HOUR then 2 * c.lookback else 24 * HOUR)
  }

  /**
   * The bound on the scan range is checked before the default is filled in: a configuration that leaves it unset
   * still meets it when two intervals fit beside the lookback, and not otherwise.
   */
  lemma DefaultScanRangeExactly(c: Config)
    requires Validates(c)
    ensures Validates(Normalized(c)) <==>
            c.scanRange > 0 || 2 * c.interval <= c.lookback || 2 * c.interval <= 24 * HOUR - c.lookback
    ensures Validates(Normalized(c)) ==> Normalized(c).scanRange > 0 && Normalized(c).hashScanTTL > 0
  {}

  /** Such a configuration: everything is checked, and the default range is too short. */
  lemma DefaultScanRangeCanFail()
    ensures
      var c := Config(24 * HOUR, 13 * HOUR, 0, 0, 0);
      Validates(c) && Normalized(c).scanRange < c.lookback + 2 * c.interval
  {}

  predicate Eligible(s: MetricSpan, lookback: int) {
    Sub(s.max, s.min) >= lookback
  }

  predicate Alive(s: MetricSpan, lookback: int, staleAfter: int, now: int) {
    Eligible(s, lookback) && (staleAfter <= 0 || !(s.max < now - staleAfter))
  }

  /** The span the scan reports for a hash: the last one, if there were several. */
  function SpanOf(spans: seq<MetricSpan>, hash: Name): Option<MetricSpan> {
    if spans == [] then None
    else if spans[|spans| - 1].hash == hash then Some(spans[|spans| - 1])
    else SpanOf(spans[..|spans| - 1], hash)
  }

  predicate AliveHash(spans: seq<MetricSpan>, hash: Name, c: Config, now: int) {
    var s := SpanOf(spans, hash);
    s.Some? && Alive(s.value, c.lookback, c.staleAfter, now)
  }

  lemma {:induction false} SpanOfIs(spans: seq<MetricSpan>, i: nat)
    requires i < |spans| && OneEach(spans)
    ensures SpanOf(spans, spans[i].hash) == Some(spans[i])
  {
    if i < |spans| - 1 {
      SpanOfIs(spans[..|spans| - 1], i);
    }
  }

  lemma {:induction false} SpanOfFinds(spans: seq<MetricSpan>, hash: Name)
    ensures SpanOf(spans, hash).Some? ==> SpanOf(spans, hash).value in spans && SpanOf(spans, hash).value.hash == hash
    ensures (exists i :: 0 <= i < |spans| && spans[i].hash == hash) ==> SpanOf(spans, hash).Some?
  {
    if spans != [] {
      var init := spans[..|spans| - 1];
      SpanOfFinds(init, hash);
      if i :| 0 <= i < |spans| && spans[i].hash == hash {
        assert i < |init| ==> init[i].hash == hash;
      }
    }
  }

  // The loops of a tick.

  method OwnedSpans(spans: seq<MetricSpan>, self: Name, peers: seq<Name>) returns (out: seq<bool>)
    ensures |out| == |spans|
    ensures forall i :: 0 <= i < |spans| ==> out[i] == Rendezvous.Owns(spans[i].hash, self, peers)
  {
    out := [];
    for i := 0 to |spans|
      invariant |out| == i
      invariant forall j :: 0 <= j < i ==> out[j] == Rendezvous.Owns(spans[j].hash, self, peers)
    {
      var owned := |peers| <= 1;
      if !owned {
        var owner := Rendezvous.Owner(spans[i].hash, peers);
        owned := owner == self;
      }
      out := out + [owned];
    }
  }

  /** The hashes a worker may train and publish: owned and alive. */
  method ReadyKeys(spans: seq<MetricSpan>, owned: seq<bool>, c: Config, now: int) returns (out: seq<Name>)
    requires |owned| == |spans|
    ensures forall hash :: hash in out <==>
                           exists i :: 0 <= i < |spans| && spans[i].hash == hash && owned[i]
                                       && Alive(spans[i], c.lookback, c.staleAfter, now)
  {
    out := [];
    for i := 0 to |spans|
      invariant forall hash :: hash in out <==>
                               exists j :: 0 <= j < i && spans[j].hash == hash && owned[j]
                                           && Alive(spans[j], c.lookback, c.staleAfter, now)
    {
      if owned[i] && Alive(spans[i], c.lookback, c.staleAfter, now) {
        out := out + [spans[i].hash];
      }
    }
  }

  /** The existing rows whose metric the scan no longer carries alive, in the order of the table. */
  function RetiredOf(spans: seq<MetricSpan>, existing: seq<Name>, c: Config, now: int): seq<Name> {
    if existing == [] then []
    else
      var key := existing[|existing| - 1];
      RetiredOf(spans, existing[..|existing| - 1], c, now) + if AliveHash(spans, key, c, now) then [] else [key]
  }

  lemma {:induction false} RetiredAre(spans: seq<MetricSpan>, existing: seq<Name>, c: Config, now: int, key: Name)
    ensures key in RetiredOf(spans, existing, c, now) <==> key in existing && !AliveHash(spans, key, c, now)
  {
    if existing != [] {
      RetiredAre(spans, existing[..|existing| - 1], c, now, key);
      assert existing == existing[..|existing| - 1] + [existing[|existing| - 1]];
    }
  }

  /** The list keeps the order of the table. */
  lemma {:induction false} RetiredInOrder(spans: seq<MetricSpan>, existing: seq<Name>, c: Config, now: int, i: nat,
                                          j: nat)
    returns (p: nat, q: nat)
    requires i < j < |RetiredOf(spans, existing, c, now)|
    ensures p < q < |existing|
    ensures RetiredOf(spans, existing, c, now)[i] == existing[p] && RetiredOf(spans, existing, c, now)[j] == existing[q]
  {
    var n := |existing| - 1;
    var before := RetiredOf(spans, existing[..n], c, now);
    if j < |before| {
      p, q := RetiredInOrder(spans, existing[..n], c, now, i, j);
    } else {
      RetiredAre(spans, existing[..n], c, now, before[i]);
      p :| 0 <= p < n && existing[..n][p] == before[i];
      q := n;
    }
  }

  method RetiredKeys(spans: seq<MetricSpan>, existing: seq<Name>, c: Config, now: int) returns (out: seq<Name>)
    ensures out == RetiredOf(spans, existing, c, now)
  {
    var seen: map<Name, MetricSpan> := map[];
    for i := 0 to |spans|
      invariant forall h :: SpanOf(spans[..i], h) == if h in seen then Some(seen[h]) else None
    {
      assert spans[..i + 1][..i] == spans[..i];
      seen := seen[spans[i].hash := spans[i]];
    }
    assert spans[..|spans|] == spans;
    out := [];
    for i := 0 to |existing|
      invariant out == RetiredOf(spans, existing[..i], c, now)
    {
      var key := existing[i];
      assert existing[..i + 1][..i] == existing[..i];
      assert SpanOf(spans, key) == if key in seen then Some(seen[key]) else None;
      if key in seen && Alive(seen[key], c.lookback, c.staleAfter, now) {
        continue;
      }
      out := out + [key];
    }
    assert existing[..|existing|] == existing;
  }

  /** What a worker may train and publish, as a set. */
  ghost predicate Ready(spans: seq<MetricSpan>, self: Name, peers: seq<Name>, c: Config, now: int, hash: Name) {
    exists i :: 0 <= i < |spans| && spans[i].hash == hash && Rendezvous.Owns(hash, self, peers)
                && Alive(spans[i], c.lookback, c.staleAfter, now)
  }

  /** A tick never retires what it schedules or publishes. */
  lemma ReadyIsNotRetired(spans: seq<MetricSpan>, existing: seq<Name>, self: Name, peers: seq<Name>, c: Config,
                          now: int, hash: Name)
    requires OneEach(spans) && Ready(spans, self, peers, c, now, hash)
    ensures hash !in RetiredOf(spans, existing, c, now)
  {
    var i :| 0 <= i < |spans| && spans[i].hash == hash && Alive(spans[i], c.lookback, c.staleAfter, now);
    SpanOfIs(spans, i);
    RetiredAre(spans, existing, c, now, hash);
  }

  /**
   * Workers that share the scan, the configuration, the clock and a peer list naming exactly them: an alive hash is
   * ready at one of them only, the best by rendezvous, and a hash that is not alive at none.
   */
  lemma ReadySetsPartition(spans: seq<MetricSpan>, peers: seq<Name>, c: Config, now: int, hash: Name, w: Name)
    requires OneEach(spans) && w in peers
    ensures Ready(spans, w, peers, c, now, hash) <==>
            AliveHash(spans, hash, c, now) && Rendezvous.IsTop(hash, Elements(peers), w)
    ensures AliveHash(spans, hash, c, now) ==> Ready(spans, Rendezvous.OwnerOf(hash, peers), peers, c, now, hash)
  {
    Rendezvous.OwnsIff(hash, w, peers);
    Rendezvous.OwnerIsTop(hash, peers);
    SpanOfFinds(spans, hash);
    if AliveHash(spans, hash, c, now) {
      var i :| 0 <= i < |spans| && spans[i] == SpanOf(spans, hash).value;
      assert Rendezvous.Owns(hash, Rendezvous.OwnerOf(hash, peers), peers);
    }
    if Ready(spans, w, peers, c, now, hash) {
      var i :| 0 <= i < |spans| && spans[i].hash == hash && Alive(spans[i], c.lookback, c.staleAfter, now);
      SpanOfIs(spans, i);
    }
  }

  // A metric that keeps reporting is never dropped.

  /** A point in every half-open interval inside the range. */
  ghost predicate Reporting(data: set<Sighting>, hash: Name, from: int, to: int, interval: int) {
    forall t :: from <= t && t + interval <= to ==> Reports(data, hash, t, interval)
  }

  ghost predicate Reports(data: set<Sighting>, hash: Name, t: int, interval: int) {
    exists p :: p in data && p.hash == hash && t <= p.at < t + interval
  }

  /** The datasource keeps whole milliseconds. */
  ghost predicate WholeMillis(data: set<Sighting>) {
    forall p :: p in data ==> p.at % MILLISECOND == 0
  }

  /** The instant at the start of the millisecond `t` falls in: where the scan sent at `t` really ends. */
  function FloorMilli(t: int): int {
    UnixMilli(t) * MILLISECOND
  }

  function CeilMilli(t: int): int {
    FloorMilli(t + MILLISECOND - 1)
  }

  lemma CeilIs(t: int)
    ensures t <= CeilMilli(t) < t + MILLISECOND && CeilMilli(t) % MILLISECOND == 0
  {}

  lemma FloorIs(t: int)
    ensures FloorMilli(t) <= t < FloorMilli(t) + MILLISECOND && FloorMilli(t) % MILLISECOND == 0
    ensures UnixMilli(FloorMilli(t)) == UnixMilli(t)
  {}

  lemma FloorAbove(t: int, p: int)
    requires p <= t && p % MILLISECOND == 0
    ensures p <= FloorMilli(t)
  {}

  lemma CeilBelow(t: int, p: int)
    requires t <= p && p % MILLISECOND == 0
    ensures CeilMilli(t) <= p
  {}

  /** The latest whole millisecond inside the first interval of the scan. */
  function LatestFirst(c: Config, at: int): int {
    FloorMilli(at - c.scanRange + c.interval - 1)
  }

  /** The earliest whole millisecond inside the last interval before the scan's last millisecond. */
  function EarliestLast(c: Config, at: int): int {
    CeilMilli(FloorMilli(at) - c.interval)
  }

  /**
   * The guard, in the configuration and the two clocks alone: the two extremes of a metric that reports in every
   * interval are a lookback apart, and the tick is early enough after the scan for the freshness window to reach the
   * later one.
   */
  predicate InReach(c: Config, at: int, now: int) {
    && EarliestLast(c, at) - LatestFirst(c, at) >= c.lookback
    && (c.staleAfter > 0 ==> now - EarliestLast(c, at) <= c.staleAfter)
  }

  /** The order of the instants that matter. */
  lemma ScanOrder(c: Config, at: int)
    requires Validates(c) && c.scanRange > 0
    ensures
      var from, end := at - c.scanRange, FloorMilli(at);
      && from <= LatestFirst(c, at) < from + c.interval <= EarliestLast(c, at)
      && end - c.interval <= EarliestLast(c, at) < end
    ensures LatestFirst(c, at) % MILLISECOND == 0 && EarliestLast(c, at) % MILLISECOND == 0
  {
    FloorIs(at);
    FloorIs(at - c.scanRange + c.interval - 1);
    CeilIs(FloorMilli(at) - c.interval);
  }

  lemma Scans(c: Config, at: int, t: int)
    requires at - c.scanRange <= t < FloorMilli(at)
    ensures Matches(t, at - c.scanRange, at)
  {
    MilliMonotone(at - c.scanRange, t);
    FloorIs(at);
  }

  lemma ReportedEarly(data: set<Sighting>, hash: Name, c: Config, at: int, s: MetricSpan)
    requires Validates(c) && c.scanRange > 0 && WholeMillis(data)
    requires hash != [] && Reporting(data, hash, at - c.scanRange, at, c.interval)
    requires s.hash == hash && IsSpan(Named(data), at - c.scanRange, at, s)
    ensures s.min <= LatestFirst(c, at)
  {
    var from := at - c.scanRange;
    ScanOrder(c, at);
    assert Reports(data, hash, from, c.interval);
    var p :| p in data && p.hash == hash && from <= p.at < from + c.interval;
    Scans(c, at, p.at);
    FloorAbove(from + c.interval - 1, p.at);
  }

  lemma ReportedLate(data: set<Sighting>, hash: Name, c: Config, at: int, s: MetricSpan)
    requires Validates(c) && c.scanRange > 0 && WholeMillis(data)
    requires hash != [] && Reporting(data, hash, at - c.scanRange, at, c.interval)
    requires s.hash == hash && IsSpan(Named(data), at - c.scanRange, at, s)
    ensures s.max >= EarliestLast(c, at)
  {
    var end := FloorMilli(at);
    FloorIs(at);
    ScanOrder(c, at);
    assert Reports(data, hash, end - c.interval, c.interval);
    var p :| p in data && p.hash == hash && end - c.interval <= p.at < end - c.interval + c.interval;
    Scans(c, at, p.at);
    CeilBelow(end - c.interval, p.at);
  }

  lemma ReportingIsScanned(data: set<Sighting>, hash: Name, c: Config, at: int)
    requires Validates(c) && c.scanRange > 0
    requires hash != [] && Reporting(data, hash, at - c.scanRange, at, c.interval)
    ensures Seen(Named(data), at - c.scanRange, at, hash)
  {
    var from := at - c.scanRange;
    assert Reports(data, hash, from, c.interval);
    var p :| p in data && p.hash == hash && from <= p.at < from + c.interval;
    MilliMonotone(from, p.at);
    MilliMonotone(p.at + SECOND, at);
    assert p in Named(data) && Matches(p.at, from, at);
  }

  /** A reporting metric is alive at every tick within reach of its scan. */
  lemma ReportingIsAlive(data: set<Sighting>, hash: Name, c: Config, at: int, spans: seq<MetricSpan>, now: int)
    requires Validates(c) && c.scanRange > 0 && InReach(c, at, now)
    requires WholeMillis(data) && hash != [] && Reporting(data, hash, at - c.scanRange, at, c.interval)
    requires IsGroupBy(Named(data), at - c.scanRange, at, spans)
    ensures AliveHash(spans, hash, c, now)
  {
    ReportingIsScanned(data, hash, c, at);
    var i :| 0 <= i < |spans| && spans[i].hash == hash;
    var s := spans[i];
    SpanOfIs(spans, i);
    assert IsSpan(Named(data), at - c.scanRange, at, s);
    ReportedEarly(data, hash, c, at, s);
    ReportedLate(data, hash, c, at, s);
  }

  /** Every whole millisecond between the two extremes, and the scan's last one, which the scan does not see. */
  function WorstCase(hash: Name, c: Config, at: int): set<Sighting> {
    set t | LatestFirst(c, at) <= t <= FloorMilli(at) && t % MILLISECOND == 0
            && (t <= EarliestLast(c, at) || t == FloorMilli(at)) :: Sighting(hash, t)
  }

  lemma WorstCaseReports(hash: Name, c: Config, at: int)
    requires Validates(c) && c.scanRange > 0
    ensures WholeMillis(WorstCase(hash, c, at))
    ensures Reporting(WorstCase(hash, c, at), hash, at - c.scanRange, at, c.interval)
  {
    var data, first, last, end := WorstCase(hash, c, at), LatestFirst(c, at), EarliestLast(c, at), FloorMilli(at);
    ScanOrder(c, at);
    FloorIs(at);
    forall t | at - c.scanRange <= t && t + c.interval <= at
      ensures Reports(data, hash, t, c.interval)
    {
      CeilIs(t);
      if t <= first {
        assert Sighting(hash, first) in data;
      } else if t <= last {
        CeilBelow(t, last);
        assert Sighting(hash, CeilMilli(t)) in data;
      } else {
        assert Sighting(hash, end) in data;
      }
    }
  }

  /** Out of reach, a metric can report in every interval and still be judged too short or stale. */
  lemma OutOfReachIsDropped(hash: Name, c: Config, at: int, spans: seq<MetricSpan>, now: int)
    requires Validates(c) && c.scanRange > 0 && hash != [] && !InReach(c, at, now)
    requires IsGroupBy(Named(WorstCase(hash, c, at)), at - c.scanRange, at, spans)
    ensures !AliveHash(spans, hash, c, now)
  {
    SpanOfFinds(spans, hash);
    if SpanOf(spans, hash).Some? {
      var data, s := Named(WorstCase(hash, c, at)), SpanOf(spans, hash).value;
      var i :| 0 <= i < |spans| && spans[i] == s;
      assert IsSpan(data, at - c.scanRange, at, s);
      WorstSpan(hash, c, at, s);
    }
  }

  lemma WorstSpan(hash: Name, c: Config, at: int, s: MetricSpan)
    requires Validates(c) && c.scanRange > 0 && hash != []
    requires s.hash == hash && IsSpan(Named(WorstCase(hash, c, at)), at - c.scanRange, at, s)
    ensures s.min == LatestFirst(c, at) && s.max == EarliestLast(c, at)
  {
    var data, first, last := Named(WorstCase(hash, c, at)), LatestFirst(c, at), EarliestLast(c, at);
    ScanOrder(c, at);
    FloorIs(at);
    Scans(c, at, first);
    Scans(c, at, last);
    assert Sighting(hash, first) in data && Sighting(hash, last) in data;
    assert s.max != FloorMilli(at);
  }

  /**
   * Whether every metric that reports in each interval of the scan is alive at a tick: exactly when the tick is in
   * reach.
   */
  lemma NeverDroppedExactly(c: Config, at: int, now: int)
    requires Validates(c) && c.scanRange > 0
    ensures InReach(c, at, now) <==>
            forall data, hash, spans ::
              WholeMillis(data) && hash != [] && Reporting(data, hash, at - c.scanRange, at, c.interval)
              && IsGroupBy(Named(data), at - c.scanRange, at, spans)
              ==> AliveHash(spans, hash, c, now)
  {
    if InReach(c, at, now) {
      forall data, hash, spans |
        WholeMillis(data) && hash != [] && Reporting(data, hash, at - c.scanRange, at, c.interval)
        && IsGroupBy(Named(data), at - c.scanRange, at, spans)
        ensures AliveHash(spans, hash, c, now)
      {
        ReportingIsAlive(data, hash, c, at, spans, now);
      }
    } else {
      var hash: Name := [1];
      var data := WorstCase(hash, c, at);
      WorstCaseReports(hash, c, at);
      var spans := GroupByOne(data, hash, at - c.scanRange, at);
      OutOfReachIsDropped(hash, c, at, spans, now);
    }
  }

  /**
   * What the validated bounds buy: a tick is in reach when either the scan's clock or the lookback is a whole number of
   * milliseconds, up to one millisecond before HASH_SCAN_TTL, and up to it when the scan's clock is.
   */
  lemma BoundsReach(c: Config, at: int, now: int)
    requires Validates(c) && c.scanRange > 0
    requires at % MILLISECOND == 0 || c.lookback % MILLISECOND == 0
    requires c.staleAfter > 0 ==>
               now - at <= ScanTTL(c) - MILLISECOND || (now - at < ScanTTL(c) && at % MILLISECOND == 0)
    ensures InReach(c, at, now)
  {
    FloorIs(at);
    ScanOrder(c, at);
    WholeMillisApart(EarliestLast(c, at), LatestFirst(c, at), c.lookback);
  }

  /** Whole milliseconds apart and more than a whole number of them less one: at least that number. */
  lemma WholeMillisApart(a: int, b: int, d: int)
    requires a % MILLISECOND == 0 && b % MILLISECOND == 0
    ensures d % MILLISECOND == 0 && a - b > d - MILLISECOND ==> a - b >= d
  {}

  /** A dataset of one hash has a GROUP BY. */
  lemma GroupByOne(data: set<Sighting>, hash: Name, lo: int, hi: int) returns (spans: seq<MetricSpan>)
    requires hash != [] && forall p :: p in data ==> p.hash == hash
    ensures IsGroupBy(Named(data), lo, hi, spans)
  {
    var inside := set p | p in data && Matches(p.at, lo, hi);
    if inside == {} {
      spans := [];
      forall p | p in Named(data)
        ensures !Matches(p.at, lo, hi)
      {
        assert p in data && p !in inside;
      }
    } else {
      var first, last := Extremes(inside);
      spans := [MetricSpan(hash, first.at, last.at)];
      assert IsSpan(Named(data), lo, hi, spans[0]);
      forall h | Seen(Named(data), lo, hi, h)
        ensures exists i :: 0 <= i < |spans| && spans[i].hash == h
      {
        assert spans[0].hash == h;
      }
    }
  }

  lemma {:induction false} Extremes(s: set<Sighting>) returns (first: Sighting, last: Sighting)
    requires s != {}
    ensures first in s && last in s && forall p :: p in s ==> first.at <= p.at <= last.at
    decreases |s|
  {
    var p :| p in s;
    if s == {p} {
      first, last := p, p;
    } else {
      first, last := Extremes(s - {p});
      if p.at < first.at {
        first := p;
      }
      if p.at > last.at {
        last := p;
      }
    }
  }

  /** The gap is real: a valid configuration, a scan, and a tick within HASH_SCAN_TTL of it that is out of reach. */
  lemma GapIsReachable() returns (c: Config, at: int, now: int)
    ensures Validates(c) && c.scanRange > 0 && c.lookback % MILLISECOND == 0
    ensures 0 <= now - at < ScanTTL(c) && !InReach(c, at, now)
  {
    c := Config(336 * HOUR, MINUTE, 672 * HOUR, 6 * MINUTE, 5 * MINUTE);
    at := 2;
    now := at + 5 * MINUTE - 1;
    assert FloorMilli(at) == 0;
  }

  /** So is the other: a lookback with a fraction of a millisecond, and a scan that cuts it off at once. */
  lemma LookbackGapIsReachable() returns (c: Config, at: int)
    ensures Validates(c) && c.scanRange > 0 && c.staleAfter == 0 && !InReach(c, at, at)
  {
    c := Config(MINUTE + 1, MINUTE, 3 * MINUTE + 1, 0, 5 * MINUTE);
    at := MILLISECOND - 1;
    assert FloorMilli(at) == 0;
  }

  // Over runs: the cached scan, failed refreshes, and the retirement.

  /** The publisher's scan cache; `data` is what the datasource held when the cached scan was answered. */
  datatype ScanState = ScanState(ok: bool, at: int, spans: seq<MetricSpan>, data: set<Sighting>)

  /** One tick: its clock, the datasource's content and its answer should it be asked, and the rows of the table. */
  datatype Tick = Tick(now: int, data: set<Sighting>, reply: Result<seq<MetricSpan>>, existing: Result<seq<Name>>)

  predicate Fresh(s: ScanState, c: Config, now: int) {
    s.ok && now - s.at < c.hashScanTTL
  }

  /** A fresh scan is reused; otherwise a good answer replaces it and a failed one leaves it. */
  function Scanned(s: ScanState, c: Config, t: Tick): ScanState {
    if Fresh(s, c, t.now) || t.reply.Err? then s else ScanState(true, t.now, t.reply.value, t.data)
  }

  /** A good scan younger than its time to live is what a tick works with, and is left alone. */
  lemma YoungScanIsReused(s: ScanState, c: Config, t: Tick)
    requires s.ok && t.now < s.at + c.hashScanTTL
    ensures Scanned(s, c, t) == s
  {}

  /** One that is older, or none at all, is replaced by an answer, and by nothing else. */
  lemma OldScanIsReplaced(s: ScanState, c: Config, t: Tick)
    requires s.ok ==> t.now >= s.at + c.hashScanTTL
    ensures t.reply.Ok? ==> Scanned(s, c, t) == ScanState(true, t.now, t.reply.value, t.data)
    ensures t.reply.Err? ==> Scanned(s, c, t) == s
  {}

  /** What the tick retires: nothing unless the scan it has is fresh and not empty. */
  function Retires(s: ScanState, c: Config, t: Tick): seq<Name> {
    if c.staleAfter <= 0 || !Fresh(s, c, t.now) || s.spans == [] || t.existing.Err? then []
    else RetiredOf(s.spans, t.existing.value, c, t.now)
  }

  /** The scan's last span of the hash is long enough and not stale; there is one span of a hash in a merged scan. */
  ghost predicate LastSpanAlive(spans: seq<MetricSpan>, hash: Name, c: Config, now: int) {
    exists i :: IsLastSpan(spans, hash, i) && Alive(spans[i], c.lookback, c.staleAfter, now)
  }

  ghost predicate IsLastSpan(spans: seq<MetricSpan>, hash: Name, i: int) {
    0 <= i < |spans| && spans[i].hash == hash && forall j :: i < j < |spans| ==> spans[j].hash != hash
  }

  lemma {:induction false} SpanOfIsLast(spans: seq<MetricSpan>, hash: Name)
    ensures (exists i :: IsLastSpan(spans, hash, i)) <==> SpanOf(spans, hash).Some?
    ensures forall i :: IsLastSpan(spans, hash, i) ==> SpanOf(spans, hash) == Some(spans[i])
  {
    if spans != [] {
      var n := |spans| - 1;
      SpanOfIsLast(spans[..n], hash);
      if spans[n].hash == hash {
        assert IsLastSpan(spans, hash, n);
      } else {
        assert forall i :: IsLastSpan(spans, hash, i) <==> IsLastSpan(spans[..n], hash, i);
      }
    }
  }

  /**
   * A key is handed to the store if and only if retirement is on, the scan is good, not empty and young, the key was
   * read from the table, and the scan has no live span of its hash.
   */
  lemma RetiresExactly(s: ScanState, c: Config, t: Tick)
    ensures forall key :: key in Retires(s, c, t) <==>
              && c.staleAfter > 0 && s.ok && s.spans != [] && t.now < s.at + c.hashScanTTL
              && t.existing.Ok? && key in t.existing.value && !LastSpanAlive(s.spans, key, c, t.now)
  {
    forall key
      ensures LastSpanAlive(s.spans, key, c, t.now) <==> AliveHash(s.spans, key, c, t.now)
      ensures t.existing.Ok? ==>
                (key in RetiredOf(s.spans, t.existing.value, c, t.now) <==>
                 key in t.existing.value && !AliveHash(s.spans, key, c, t.now))
    {
      SpanOfIsLast(s.spans, key);
      if t.existing.Ok? {
        RetiredAre(s.spans, t.existing.value, c, t.now, key);
      }
    }
  }

  class Scanner {
    const cfg: Config
    var scanOK: bool
    var scanAt: int
    var scanSpans: seq<MetricSpan>
    ghost var data: set<Sighting>

    ghost function State(): ScanState
      reads this
    {
      ScanState(scanOK, scanAt, scanSpans, data)
    }

    constructor (cfg: Config)
      ensures this.cfg == cfg && State() == ScanState(false, 0, [], {})
    {
      this.cfg := cfg;
      scanOK, scanAt, scanSpans, data := false, 0, [], {};
    }

    method Scan(t: Tick) returns (r: Result<seq<MetricSpan>>)
      modifies this
      ensures State() == Scanned(old(State()), cfg, t)
      ensures t.reply.Err? || (old(scanOK) && t.now - old(scanAt) < cfg.hashScanTTL) ==> State() == old(State())
      ensures r == if scanOK then Ok(scanSpans) else t.reply
    {
      if scanOK && t.now - scanAt < cfg.hashScanTTL {
        return Ok(scanSpans);
      }
      if t.reply.Err? {
        if scanOK {
          return Ok(scanSpans);
        }
        return t.reply;
      }
      scanAt, scanSpans, scanOK, data := t.now, t.reply.value, true, t.data;
      return t.reply;
    }

    /** The keys handed to the store's Retire. */
    method Retire(t: Tick) returns (keys: seq<Name>)
      ensures keys == Retires(State(), cfg, t)
      ensures forall key :: key in keys <==>
                && cfg.staleAfter > 0 && scanOK && |scanSpans| > 0 && t.now < scanAt + cfg.hashScanTTL
                && t.existing.Ok? && key in t.existing.value && !LastSpanAlive(scanSpans, key, cfg, t.now)
    {
      RetiresExactly(State(), cfg, t);
      if cfg.staleAfter <= 0 {
        return [];
      }
      if !scanOK || t.now - scanAt >= cfg.hashScanTTL || |scanSpans| == 0 {
        return [];
      }
      if t.existing.Err? {
        return [];
      }
      keys := RetiredKeys(scanSpans, t.existing.value, cfg, t.now);
    }
  }

  function StateAfter(c: Config, run: seq<Tick>): ScanState {
    if run == [] then ScanState(false, 0, [], {})
    else Scanned(StateAfter(c, run[..|run| - 1]), c, run[|run| - 1])
  }

  /** A good scan survives any number of failed refreshes. */
  lemma {:induction false} GoodScanSurvives(c: Config, run: seq<Tick>, n: nat)
    requires n <= |run| && forall i :: n <= i < |run| ==> run[i].reply.Err?
    ensures StateAfter(c, run) == StateAfter(c, run[..n])
  {
    if n < |run| {
      GoodScanSurvives(c, run[..|run| - 1], n);
      assert run[..|run| - 1][..n] == run[..n];
    } else {
      assert run[..n] == run;
    }
  }

  lemma SomethingIn(keys: seq<Name>)
    ensures keys == [] || exists k :: k in keys
  {
    if keys != [] {
      assert keys[0] in keys;
    }
  }

  /**
   * Over any run, whatever the scans answered: a tick whose scan is empty, missing or expired retires nothing, and one
   * with a young scan that is not empty retires exactly the rows of the table that have no live span.
   */
  lemma RunRetiresExactly(c: Config, run: seq<Tick>, t: Tick, key: Name)
    ensures
      var s := StateAfter(c, run + [t]);
      && (!s.ok || s.spans == [] || t.now >= s.at + c.hashScanTTL ==> Retires(s, c, t) == [])
      && (s.ok && s.spans != [] && t.now < s.at + c.hashScanTTL && c.staleAfter > 0 && t.existing.Ok? ==>
            (key in Retires(s, c, t) <==> key in t.existing.value && !LastSpanAlive(s.spans, key, c, t.now)))
  {
    var s := StateAfter(c, run + [t]);
    RetiresExactly(s, c, t);
    if !s.ok || s.spans == [] || t.now >= s.at + c.hashScanTTL {
      assert forall k :: k !in Retires(s, c, t);
      SomethingIn(Retires(s, c, t));
    }
  }

  /** After an empty answer no tick retires anything until another answer comes. */
  lemma EmptyScanRetiresNothing(c: Config, run: seq<Tick>, n: nat, t: Tick)
    requires n <= |run| && StateAfter(c, run[..n]).spans == []
    requires forall i :: n <= i < |run| ==> run[i].reply.Err?
    requires t.reply.Err?
    ensures Retires(StateAfter(c, run + [t]), c, t) == []
  {
    var all := run + [t];
    assert all[..n] == run[..n];
    GoodScanSurvives(c, all, n);
    RunRetiresExactly(c, run, t, []);
  }

  /** Every answered scan is a GROUP BY of the datasource over its range. */
  ghost predicate HonestTicks(c: Config, run: seq<Tick>) {
    forall i :: 0 <= i < |run| && run[i].reply.Ok? ==>
                IsGroupBy(Named(run[i].data), run[i].now - c.scanRange, run[i].now, run[i].reply.value)
  }

  /** The hash reports in every interval of every scan that was answered. */
  ghost predicate KeepsReporting(c: Config, run: seq<Tick>, hash: Name) {
    forall i :: 0 <= i < |run| && run[i].reply.Ok? ==>
                WholeMillis(run[i].data)
                && Reporting(run[i].data, hash, run[i].now - c.scanRange, run[i].now, c.interval)
  }

  lemma {:induction false} CacheIsSomeScan(c: Config, run: seq<Tick>, hash: Name)
    requires HonestTicks(c, run) && KeepsReporting(c, run, hash)
    ensures
      var s := StateAfter(c, run);
      s.ok ==>
        && IsGroupBy(Named(s.data), s.at - c.scanRange, s.at, s.spans)
        && WholeMillis(s.data) && Reporting(s.data, hash, s.at - c.scanRange, s.at, c.interval)
  {
    if run != [] {
      CacheIsSomeScan(c, run[..|run| - 1], hash);
    }
  }

  /** Over any run of ticks, failed refreshes included, a metric that keeps reporting is not retired within reach. */
  lemma ReportingIsNeverRetired(c: Config, run: seq<Tick>, hash: Name, t: Tick)
    requires Validates(c) && c.scanRange > 0 && hash != []
    requires HonestTicks(c, run + [t]) && KeepsReporting(c, run + [t], hash)
    requires
      var s := StateAfter(c, run + [t]);
      Fresh(s, c, t.now) ==> InReach(c, s.at, t.now)
    ensures hash !in Retires(StateAfter(c, run + [t]), c, t)
  {
    var s := StateAfter(c, run + [t]);
    CacheIsSomeScan(c, run + [t], hash);
    if c.staleAfter > 0 && Fresh(s, c, t.now) && t.existing.Ok? {
      ReportingIsAlive(s.data, hash, c, s.at, s.spans, t.now);
      RetiredAre(s.spans, t.existing.value, c, t.now, hash);
    }
  }
}
