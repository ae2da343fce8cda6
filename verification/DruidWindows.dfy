/** druid.go:86-249: one query sliced into windows, and the stitched answers. Instants are nanoseconds. */
module DruidWindows {
  import opened Basics
  import opened Names

  const MAX_DURATION := 0x7fff_ffff_ffff_ffff
  const MIN_DURATION := -0x8000_0000_0000_0000
  const MILLISECOND := 1_000_000
  const MAX_DRUID_WINDOWS := 0x10_0000

  /** Go's Time.UnixMilli: the millisecond an instant falls in. */
  function UnixMilli(t: int): int {
    t / MILLISECOND
  }

  /** Go's Time.Sub: saturates at the limits of a Duration. */
  function Sub(t: int, u: int): int {
    if t - u > MAX_DURATION then MAX_DURATION
    else if t - u < MIN_DURATION then MIN_DURATION
    else t - u
  }

  datatype Window = Window(lo: int, hi: int)

  function WindowCount(from: int, to: int, maxRange: int): int {
    var span := Sub(to, from);
    if maxRange <= 0 || span <= 0 then 1
    else if span % maxRange != 0 then span / maxRange + 1
    else span / maxRange
  }

  /** Consecutive windows from `from` to `to`, none empty or longer than `maxRange`, all but the last full. */
  ghost predicate Slices(ws: seq<Window>, from: int, to: int, maxRange: int) {
    && ws != [] && ws[0].lo == from && ws[|ws| - 1].hi == to
    && (forall i :: 0 <= i < |ws| ==> ws[i].lo < ws[i].hi <= ws[i].lo + maxRange)
    && (forall i :: 0 < i < |ws| ==> ws[i].lo == ws[i - 1].hi)
    && (forall i :: 0 <= i < |ws| - 1 ==> ws[i].hi == ws[i].lo + maxRange)
  }

  /** The range would take more requests than one query may. */
  predicate Refused(from: int, to: int, maxRange: int) {
    maxRange > 0 && from < to && WindowCount(from, to, maxRange) > MAX_DRUID_WINDOWS
  }

  /** What the slicing of a query answers: refused, one window, or slices. */
  ghost predicate IsSlicing(r: Result<seq<Window>>, from: int, to: int, maxRange: int) {
    if maxRange <= 0 || to <= from then r == Ok([Window(from, to)])
    else if Refused(from, to, maxRange) then r.Err?
    else r.Ok? && Slices(r.value, from, to, maxRange)
  }

  method Windows(from: int, to: int, maxRange: int) returns (r: Result<seq<Window>>)
    ensures IsSlicing(r, from, to, maxRange)
  {
    if maxRange <= 0 || !(to > from) {
      return Ok([Window(from, to)]);
    }
    var n := WindowCount(from, to, maxRange);
    if n > MAX_DRUID_WINDOWS {
      return Err("too many windows");
    }
    var out: seq<Window> := [];
    var lo := from;
    while lo < to
      invariant from <= lo <= to
      invariant |out| == 0 ==> lo == from
      invariant |out| > 0 ==> Slices(out, from, lo, maxRange)
      invariant |out| > 0 && lo < to ==> out[|out| - 1].hi == out[|out| - 1].lo + maxRange
    {
      hide Slices;
      var hi := lo + maxRange;
      if hi > to {
        hi := to;
      }
      SliceAppended(out, from, lo, hi, maxRange);
      out := out + [Window(lo, hi)];
      lo := hi;
    }
    r := Ok(out);
  }

  lemma SliceAppended(ws: seq<Window>, from: int, lo: int, hi: int, maxRange: int)
    requires lo < hi <= lo + maxRange
    requires ws == [] ==> lo == from
    requires ws != [] ==> Slices(ws, from, lo, maxRange) && ws[|ws| - 1].hi == ws[|ws| - 1].lo + maxRange
    ensures Slices(ws + [Window(lo, hi)], from, hi, maxRange)
  {}

  /** The number of slices is the quotient rounded up. */
  lemma SliceCount(ws: seq<Window>, from: int, to: int, maxRange: int)
    requires Slices(ws, from, to, maxRange) && maxRange > 0
    ensures (|ws| - 1) * maxRange < to - from <= |ws| * maxRange
  {
    var n := |ws| - 1;
    if n > 0 {
      assert ws[..n][n - 1] == ws[n - 1];
      FullSlices(ws[..n], from, maxRange);
    }
    assert ws[n].lo == from + n * maxRange;
    TimesNext(n, maxRange);
  }

  lemma TimesNext(n: int, d: int)
    ensures (n + 1) * d == n * d + d
  {}

  lemma {:induction false} FullSlices(ws: seq<Window>, from: int, maxRange: int)
    requires ws != [] && ws[0].lo == from
    requires forall i :: 0 <= i < |ws| ==> ws[i].hi == ws[i].lo + maxRange
    requires forall i :: 0 < i < |ws| ==> ws[i].lo == ws[i - 1].hi
    ensures ws[|ws| - 1].hi == from + |ws| * maxRange
  {
    if |ws| > 1 {
      FullSlices(ws[..|ws| - 1], from, maxRange);
      assert |ws| * maxRange == (|ws| - 1) * maxRange + maxRange;
    }
  }

  lemma QuotientAtMost(n: int, m: int, span: int, d: int)
    requires d > 0 && (n - 1) * d < span <= m * d
    ensures n <= m
  {
    assert m <= n - 1 ==> m * d <= (n - 1) * d;
  }

  lemma CountIsQuotient(from: int, to: int, maxRange: int)
    requires maxRange > 0 && 0 < to - from <= MAX_DURATION
    ensures
      var n := WindowCount(from, to, maxRange);
      (n - 1) * maxRange < to - from <= n * maxRange
  {
    var span := to - from;
    var q := span / maxRange;
    assert span == q * maxRange + span % maxRange;
    assert (q + 1) * maxRange == q * maxRange + maxRange;
    assert (q - 1) * maxRange == q * maxRange - maxRange;
  }

  /** The count announced for the scan is the number of slices, unless the span saturates. */
  lemma CountIsExact(ws: seq<Window>, from: int, to: int, maxRange: int)
    requires maxRange > 0 && Slices(ws, from, to, maxRange) && 0 < to - from <= MAX_DURATION
    ensures |ws| == WindowCount(from, to, maxRange)
  {
    SliceCount(ws, from, to, maxRange);
    CountIsQuotient(from, to, maxRange);
    QuotientAtMost(|ws|, WindowCount(from, to, maxRange), to - from, maxRange);
    QuotientAtMost(WindowCount(from, to, maxRange), |ws|, to - from, maxRange);
  }

  /** A query is refused exactly when its span, as far as a duration reaches, takes more windows than are allowed. */
  lemma RefusedExactly(from: int, to: int, maxRange: int)
    requires maxRange > 0 && from < to
    ensures Refused(from, to, maxRange) <==>
            (if to - from > MAX_DURATION then MAX_DURATION else to - from) > 1_048_576 * maxRange
  {
    var span := if to - from > MAX_DURATION then MAX_DURATION else to - from;
    CountIsQuotient(0, span, maxRange);
    assert WindowCount(0, span, maxRange) == WindowCount(from, to, maxRange);
    var n := WindowCount(from, to, maxRange);
    if n > 1_048_576 {
      TimesOrder(1_048_576, n - 1, maxRange);
    } else {
      TimesOrder(n, 1_048_576, maxRange);
    }
  }

  lemma TimesOrder(m: int, n: int, d: int)
    requires m <= n && d > 0
    ensures m * d <= n * d
  {}

  // Series.

  datatype Cell = Missing | Number(value: real)

  /** A stored row of one metric; `readable` is whether its reported time can be parsed. */
  datatype Row = Row(at: int, readable: bool, value: Cell)

  datatype Point = Point(at: int, value: Cell)

  /** The WHERE clause a window is sent with: millisecond bounds, half open. */
  predicate Matches(at: int, lo: int, hi: int) {
    UnixMilli(lo) <= UnixMilli(at) < UnixMilli(hi)
  }

  /** The reply to one request, in time order. */
  function Query(data: seq<Row>, lo: int, hi: int): seq<Row> {
    if data == [] then []
    else if Matches(data[0].at, lo, hi) then [data[0]] + Query(data[1..], lo, hi)
    else Query(data[1..], lo, hi)
  }

  ghost predicate InTimeOrder(data: seq<Row>) {
    forall i, j :: 0 <= i < j < |data| ==> data[i].at <= data[j].at
  }

  /** Rows whose time cannot be read are dropped; a missing value keeps its time. */
  function Points(rows: seq<Row>): seq<Point> {
    if rows == [] then []
    else if rows[0].readable then [Point(rows[0].at, rows[0].value)] + Points(rows[1..])
    else Points(rows[1..])
  }

  predicate Increasing(ps: seq<Point>) {
    forall i :: 0 < i < |ps| ==> ps[i - 1].at < ps[i].at
  }

  const UNUSABLE := "duplicate or unsorted time"

  /** The library's series and its concatenation: strictly increasing times, or an error. */
  function NewSeries(ps: seq<Point>): Result<seq<Point>> {
    if Increasing(ps) then Ok(ps) else Err(UNUSABLE)
  }

  function Concat(a: seq<Point>, b: seq<Point>): Result<seq<Point>> {
    NewSeries(a + b)
  }

  /** The reference: one request for the whole range. */
  function UnslicedSeries(data: seq<Row>, from: int, to: int): Result<seq<Point>> {
    NewSeries(Points(Query(data, from, to)))
  }

  /** A row of the range whose time can be read. */
  predicate Counts(r: Row, from: int, to: int) {
    r.readable && UnixMilli(from) <= UnixMilli(r.at) < UnixMilli(to)
  }

  /** The points are those of the counting rows, each with its time and its value, missing ones included. */
  lemma {:induction false} PointsAre(data: seq<Row>, from: int, to: int, p: Point)
    ensures p in Points(Query(data, from, to)) <==>
            exists i :: 0 <= i < |data| && Counts(data[i], from, to) && p == Point(data[i].at, data[i].value)
  {
    if data != [] {
      PointsAre(data[1..], from, to, p);
      var here := Counts(data[0], from, to) && p == Point(data[0].at, data[0].value);
      assert data == [data[0]] + data[1..];
      forall i | 0 <= i < |data[1..]|
        ensures data[1..][i] == data[i + 1]
      {}
      assert p in Points(Query(data, from, to)) <==> here || p in Points(Query(data[1..], from, to));
      if i :| 0 <= i < |data| && Counts(data[i], from, to) && p == Point(data[i].at, data[i].value) {
        assert i > 0 ==> data[1..][i - 1] == data[i];
      }
    }
  }

  /** Two counting rows with one time. */
  ghost predicate Clash(data: seq<Row>, from: int, to: int) {
    exists i, j :: ClashAt(data, from, to, i, j)
  }

  ghost predicate ClashAt(data: seq<Row>, from: int, to: int, i: int, j: int) {
    0 <= i < j < |data| && Counts(data[i], from, to) && Counts(data[j], from, to) && data[i].at == data[j].at
  }

  /** The first point is of the least time of any counting row. */
  lemma {:induction false} FirstIsLeast(data: seq<Row>, from: int, to: int)
    requires InTimeOrder(data)
    ensures
      var ps := Points(Query(data, from, to));
      && (forall i :: 0 <= i < |data| && Counts(data[i], from, to) ==> ps != [] && ps[0].at <= data[i].at)
      && (ps != [] ==> exists i :: 0 <= i < |data| && Counts(data[i], from, to) && data[i].at == ps[0].at)
  {
    var ps := Points(Query(data, from, to));
    forall i | 0 <= i < |data| && Counts(data[i], from, to)
      ensures ps != []
    {
      PointsAre(data, from, to, Point(data[i].at, data[i].value));
    }
    if ps != [] {
      PointsAre(data, from, to, ps[0]);
      FirstPoint(data, from, to);
    }
  }

  lemma {:induction false} FirstPoint(data: seq<Row>, from: int, to: int)
    requires InTimeOrder(data) && Points(Query(data, from, to)) != []
    ensures forall i :: 0 <= i < |data| && Counts(data[i], from, to) ==>
                          Points(Query(data, from, to))[0].at <= data[i].at
  {
    if !Counts(data[0], from, to) {
      TailInOrder(data);
      FirstPoint(data[1..], from, to);
      forall i | 0 <= i < |data| && Counts(data[i], from, to)
        ensures Points(Query(data, from, to))[0].at <= data[i].at
      {
        assert data[1..][i - 1] == data[i];
      }
    }
  }

  lemma {:induction false} IncreasingIffNoClash(data: seq<Row>, from: int, to: int)
    requires InTimeOrder(data)
    ensures Increasing(Points(Query(data, from, to))) <==> !Clash(data, from, to)
  {
    if data != [] {
      var rest := data[1..];
      TailInOrder(data);
      IncreasingIffNoClash(rest, from, to);
      FirstIsLeast(rest, from, to);
      ClashNext(data, from, to);
      var ps := Points(Query(rest, from, to));
      if Counts(data[0], from, to) {
        var p := Point(data[0].at, data[0].value);
        assert Points(Query(data, from, to)) == [p] + ps;
        IncreasingNext(p, ps);
      }
    }
  }

  lemma IncreasingNext(p: Point, ps: seq<Point>)
    ensures Increasing([p] + ps) <==> Increasing(ps) && (ps != [] ==> p.at < ps[0].at)
  {
    var all := [p] + ps;
    if Increasing(all) {
      assert ps != [] ==> all[0].at < all[1].at;
      forall i | 0 < i < |ps|
        ensures ps[i - 1].at < ps[i].at
      {
        assert all[i].at < all[i + 1].at;
      }
    }
  }

  lemma ClashNext(data: seq<Row>, from: int, to: int)
    requires data != []
    ensures Clash(data, from, to) <==>
            || Clash(data[1..], from, to)
            || exists j :: 0 <= j < |data[1..]| && Counts(data[0], from, to) && Counts(data[1..][j], from, to)
                           && data[1..][j].at == data[0].at
  {
    var rest := data[1..];
    if i, j :| ClashAt(data, from, to, i, j) {
      assert rest[j - 1] == data[j];
      if i > 0 {
        assert rest[i - 1] == data[i];
        assert ClashAt(rest, from, to, i - 1, j - 1);
      }
    }
    if i, j :| ClashAt(rest, from, to, i, j) {
      assert ClashAt(data, from, to, i + 1, j + 1);
    }
    if j :| 0 <= j < |rest| && Counts(data[0], from, to) && Counts(rest[j], from, to) && rest[j].at == data[0].at {
      assert ClashAt(data, from, to, 0, j + 1);
    }
  }

  /**
   * What a series is, without the query: in time order, a point for every readable row of the range, missing values
   * included, and no other; or a refusal, exactly when two of those rows have one time.
   */
  lemma SeriesIs(data: seq<Row>, from: int, to: int)
    requires InTimeOrder(data)
    ensures UnslicedSeries(data, from, to).Err? <==> Clash(data, from, to)
    ensures UnslicedSeries(data, from, to).Ok? ==>
              var ps := UnslicedSeries(data, from, to).value;
              && (forall i :: 0 < i < |ps| ==> ps[i - 1].at < ps[i].at)
              && forall p :: p in ps <==>
                   exists i :: 0 <= i < |data| && Counts(data[i], from, to) && p == Point(data[i].at, data[i].value)
  {
    IncreasingIffNoClash(data, from, to);
    forall p
      ensures p in Points(Query(data, from, to)) <==>
              exists i :: 0 <= i < |data| && Counts(data[i], from, to) && p == Point(data[i].at, data[i].value)
    {
      PointsAre(data, from, to, p);
    }
  }

  lemma {:induction false} PointsConcat(a: seq<Row>, b: seq<Row>)
    ensures Points(a + b) == Points(a) + Points(b)
  {
    if a == [] {
      assert a + b == b;
    } else {
      assert (a + b)[1..] == a[1..] + b;
      assert (a + b)[0] == a[0];
      PointsConcat(a[1..], b);
    }
  }

  lemma {:induction false} NothingBefore(data: seq<Row>, lo: int, hi: int)
    requires forall i :: 0 <= i < |data| ==> UnixMilli(hi) <= UnixMilli(data[i].at)
    ensures Query(data, lo, hi) == []
  {
    if data != [] {
      NothingBefore(data[1..], lo, hi);
    }
  }

  lemma MilliMonotone(t: int, u: int)
    requires t <= u
    ensures UnixMilli(t) <= UnixMilli(u)
  {}

  /** Adjacent windows split a query: their replies, one after the other, are the reply to both. */
  lemma {:induction false} QuerySplits(data: seq<Row>, lo: int, mid: int, hi: int)
    requires InTimeOrder(data) && lo <= mid <= hi
    ensures Query(data, lo, hi) == Query(data, lo, mid) + Query(data, mid, hi)
  {
    if data != [] {
      TailInOrder(data);
      QuerySplits(data[1..], lo, mid, hi);
      MatchesSplit(data[0].at, lo, mid, hi);
      if Matches(data[0].at, mid, hi) {
        NothingBeforeRow(data, lo, mid);
      }
      hide Matches, InTimeOrder;
      var a, b := Query(data[1..], lo, mid), Query(data[1..], mid, hi);
      assert [data[0]] + (a + b) == ([data[0]] + a) + b;
      assert a == [] ==> [data[0]] + (a + b) == a + ([data[0]] + b);
    }
  }

  lemma TailInOrder(data: seq<Row>)
    requires data != [] && InTimeOrder(data)
    ensures InTimeOrder(data[1..])
  {}

  lemma NothingBeforeRow(data: seq<Row>, lo: int, mid: int)
    requires data != [] && InTimeOrder(data) && UnixMilli(mid) <= UnixMilli(data[0].at)
    ensures Query(data[1..], lo, mid) == []
  {
    forall i | 0 <= i < |data[1..]|
      ensures UnixMilli(mid) <= UnixMilli(data[1..][i].at)
    {
      MilliMonotone(data[0].at, data[i + 1].at);
    }
    NothingBefore(data[1..], lo, mid);
  }

  lemma QueryPointsSplit(data: seq<Row>, lo: int, mid: int, hi: int)
    requires InTimeOrder(data) && lo <= mid <= hi
    ensures Points(Query(data, lo, hi)) == Points(Query(data, lo, mid)) + Points(Query(data, mid, hi))
  {
    QuerySplits(data, lo, mid, hi);
    PointsConcat(Query(data, lo, mid), Query(data, mid, hi));
  }

  lemma NotIncreasing(a: seq<Point>, b: seq<Point>)
    ensures Increasing(a + b) ==> Increasing(a) && Increasing(b)
  {
    if Increasing(a + b) {
      forall i | 0 < i < |a|
        ensures a[i - 1].at < a[i].at
      {
        assert (a + b)[i - 1] == a[i - 1] && (a + b)[i] == a[i];
      }
      forall i | 0 < i < |b|
        ensures b[i - 1].at < b[i].at
      {
        assert (a + b)[|a| + i - 1] == b[i - 1] && (a + b)[|a| + i] == b[i];
      }
    }
  }

  /** A prefix of the stitched series that is unusable makes the whole unusable. */
  lemma PrefixDecides(data: seq<Row>, from: int, mid: int, to: int)
    requires InTimeOrder(data) && from <= mid <= to
    requires !Increasing(Points(Query(data, from, mid)))
    ensures UnslicedSeries(data, from, to) == Err(UNUSABLE)
  {
    QueryPointsSplit(data, from, mid, to);
    NotIncreasing(Points(Query(data, from, mid)), Points(Query(data, mid, to)));
  }

  /** Slicing does not change a series: same points, or the same refusal, as one request for the whole range. */
  method Series(data: seq<Row>, from: int, to: int, maxRange: int, fails: nat -> bool) returns (r: Result<seq<Point>>)
    requires InTimeOrder(data)
    ensures (forall i :: !fails(i)) && !Refused(from, to, maxRange) ==> r == UnslicedSeries(data, from, to)
    ensures r.Ok? ==> r == UnslicedSeries(data, from, to)
  {
    var sliced := Windows(from, to, maxRange);
    if sliced.Err? {
      return Err(sliced.error);
    }
    var ws := sliced.value;
    var out: seq<Point> := [];
    NothingIn(data, from);
    hide Points, Query, Increasing, InTimeOrder, IsSlicing;
    for k := 0 to |ws|
      invariant out == Points(Query(data, from, if k == 0 then from else ws[k - 1].hi))
      invariant Increasing(out)
    {
      var w := ws[k];
      if fails(k) {
        return Err("request failed");
      }
      var points := ReadRows(Query(data, w.lo, w.hi));
      StitchOne(data, ws, from, to, maxRange, k, out, points);
      var part := NewSeries(points);
      if part.Err? {
        return Err(part.error);
      }
      var joined := Concat(out, part.value);
      if joined.Err? {
        return Err(joined.error);
      }
      out := joined.value;
    }
    r := Ok(out);
  }

  /** The rows of one reply, in order. */
  method ReadRows(rows: seq<Row>) returns (points: seq<Point>)
    ensures points == Points(rows)
  {
    points := [];
    for i := 0 to |rows|
      invariant points == Points(rows[..i])
    {
      assert rows[..i + 1] == rows[..i] + [rows[i]];
      PointsConcat(rows[..i], [rows[i]]);
      if rows[i].readable {
        points := points + [Point(rows[i].at, rows[i].value)];
      }
    }
    assert rows[..|rows|] == rows;
  }

  lemma NothingIn(data: seq<Row>, at: int)
    ensures Points(Query(data, at, at)) == []
  {
    EmptyWindow(data, at, at);
  }

  lemma {:induction false} EmptyWindow(data: seq<Row>, lo: int, hi: int)
    requires hi <= lo
    ensures Query(data, lo, hi) == []
  {
    MilliMonotone(hi, lo);
    if data != [] {
      EmptyWindow(data[1..], lo, hi);
    }
  }

  /** One round of the stitching loop, against the reference. */
  lemma StitchOne(data: seq<Row>, ws: seq<Window>, from: int, to: int, maxRange: int, k: nat, out: seq<Point>,
                  points: seq<Point>)
    requires InTimeOrder(data) && IsSlicing(Ok(ws), from, to, maxRange) && k < |ws|
    requires out == Points(Query(data, from, if k == 0 then from else ws[k - 1].hi))
    requires points == Points(Query(data, ws[k].lo, ws[k].hi))
    ensures out + points == Points(Query(data, from, ws[k].hi))
    ensures !Increasing(points) || !Increasing(out + points) ==> UnslicedSeries(data, from, to) == Err(UNUSABLE)
    ensures k == |ws| - 1 ==> ws[k].hi == to
  {
    NothingIn(data, from);
    NotIncreasing(out, points);
    if maxRange <= 0 || to <= from {
      assert out == [] && out + points == points;
    } else {
      assert k > 0 ==> ws[k].lo == ws[k - 1].hi;
      SliceInside(ws, from, to, maxRange, k);
      QueryPointsSplit(data, from, ws[k].lo, ws[k].hi);
      if !Increasing(out + points) {
        PrefixDecides(data, from, ws[k].hi, to);
      }
    }
  }

  lemma {:induction false} SliceInside(ws: seq<Window>, from: int, to: int, maxRange: int, k: nat)
    requires Slices(ws, from, to, maxRange) && k < |ws|
    ensures from <= ws[k].lo < ws[k].hi <= to
  {
    FromBelow(ws, from, to, maxRange, k);
    ToAbove(ws, from, to, maxRange, k);
  }

  lemma {:induction false} FromBelow(ws: seq<Window>, from: int, to: int, maxRange: int, k: nat)
    requires Slices(ws, from, to, maxRange) && k < |ws|
    ensures from <= ws[k].lo
  {
    if k > 0 {
      FromBelow(ws, from, to, maxRange, k - 1);
    }
  }

  lemma {:induction false} ToAbove(ws: seq<Window>, from: int, to: int, maxRange: int, k: nat)
    requires Slices(ws, from, to, maxRange) && k < |ws|
    ensures ws[k].hi <= to
    decreases |ws| - k
  {
    if k < |ws| - 1 {
      ToAbove(ws, from, to, maxRange, k + 1);
    }
  }

  // Hashes.

  datatype Sighting = Sighting(hash: Name, at: int)

  datatype MetricSpan = MetricSpan(hash: Name, min: int, max: int)

  /** A row of a GROUP BY reply: a usable one, or one whose hash or times cannot be read. */
  datatype ReplyRow = Usable(span: MetricSpan) | Unusable

  /** The earliest and the latest sighting of a hash among those a window's WHERE lets through. */
  ghost predicate IsSpan(data: set<Sighting>, lo: int, hi: int, s: MetricSpan) {
    && Sighting(s.hash, s.min) in data && Matches(s.min, lo, hi)
    && Sighting(s.hash, s.max) in data && Matches(s.max, lo, hi)
    && forall p :: p in data && p.hash == s.hash && Matches(p.at, lo, hi) ==> s.min <= p.at <= s.max
  }

  ghost predicate Seen(data: set<Sighting>, lo: int, hi: int, hash: Name) {
    exists p :: p in data && p.hash == hash && Matches(p.at, lo, hi)
  }

  ghost predicate OneEach(spans: seq<MetricSpan>) {
    forall i, j :: 0 <= i < j < |spans| ==> spans[i].hash != spans[j].hash
  }

  /** SELECT metric_hash, MIN(__time), MAX(__time) ... GROUP BY 1, in any order. */
  ghost predicate IsGroupBy(data: set<Sighting>, lo: int, hi: int, spans: seq<MetricSpan>) {
    && OneEach(spans)
    && (forall i :: 0 <= i < |spans| ==> IsSpan(data, lo, hi, spans[i]))
    && forall hash :: Seen(data, lo, hi, hash) ==> exists i :: 0 <= i < |spans| && spans[i].hash == hash
  }

  /** Rows without a hash are skipped, as are unreadable ones. */
  function UsableSpans(rows: seq<ReplyRow>): seq<MetricSpan> {
    if rows == [] then []
    else UsableSpans(rows[..|rows| - 1])
         + if rows[|rows| - 1].Usable? && rows[|rows| - 1].span.hash != [] then [rows[|rows| - 1].span] else []
  }

  function Named(data: set<Sighting>): set<Sighting> {
    set p | p in data && p.hash != []
  }

  /** The answers of two GROUP BYs over the same range differ at most in order. */
  lemma GroupByUnique(data: set<Sighting>, lo: int, hi: int, a: seq<MetricSpan>, b: seq<MetricSpan>, i: nat)
    requires IsGroupBy(data, lo, hi, a) && IsGroupBy(data, lo, hi, b) && i < |a|
    ensures a[i] in b
  {
    assert IsSpan(data, lo, hi, a[i]);
    assert Seen(data, lo, hi, a[i].hash);
    var j :| 0 <= j < |b| && b[j].hash == a[i].hash;
    assert IsSpan(data, lo, hi, b[j]);
  }

  /**
   * The merge so far: hashes in `done` are spans up to `hi`, the others up to `mid`. `index` finds a hash's entry.
   */
  ghost predicate Merged(data: set<Sighting>, lo: int, mid: int, hi: int, done: set<Name>, out: seq<MetricSpan>,
                         index: map<Name, nat>) {
    && (forall h :: h in index ==> index[h] < |out| && out[index[h]].hash == h)
    && (forall i :: 0 <= i < |out| ==> out[i].hash in index && index[out[i].hash] == i)
    && (forall i :: 0 <= i < |out| ==> IsSpan(data, lo, if out[i].hash in done then hi else mid, out[i]))
    && (forall h :: Seen(data, lo, if h in done then hi else mid, h) ==> h in index)
  }

  function MergeOne(out: seq<MetricSpan>, index: map<Name, nat>, s: MetricSpan): (seq<MetricSpan>, map<Name, nat>) {
    if s.hash !in index || index[s.hash] >= |out| then (out + [s], index[s.hash := |out|])
    else
      var i := index[s.hash];
      (out[i := MetricSpan(s.hash, if s.min < out[i].min then s.min else out[i].min,
                           if s.max > out[i].max then s.max else out[i].max)], index)
  }

  lemma MatchesSplit(at: int, lo: int, mid: int, hi: int)
    requires lo <= mid <= hi
    ensures Matches(at, lo, hi) <==> Matches(at, lo, mid) || Matches(at, mid, hi)
    ensures !(Matches(at, lo, mid) && Matches(at, mid, hi))
  {
    MilliMonotone(lo, mid);
    MilliMonotone(mid, hi);
  }

  lemma SpanJoins(data: set<Sighting>, lo: int, mid: int, hi: int, a: MetricSpan, b: MetricSpan)
    requires lo <= mid <= hi && a.hash == b.hash && IsSpan(data, lo, mid, a) && IsSpan(data, mid, hi, b)
    ensures IsSpan(data, lo, hi, MetricSpan(a.hash, if b.min < a.min then b.min else a.min,
                                            if b.max > a.max then b.max else a.max))
  {
    forall p | p in data && p.hash == a.hash
      ensures Matches(p.at, lo, hi) <==> Matches(p.at, lo, mid) || Matches(p.at, mid, hi)
    {
      MatchesSplit(p.at, lo, mid, hi);
    }
    MatchesSplit(a.min, lo, mid, hi);
    MatchesSplit(b.min, lo, mid, hi);
    MatchesSplit(a.max, lo, mid, hi);
    MatchesSplit(b.max, lo, mid, hi);
  }

  /** A span of one of two adjacent windows, of a hash the other window has not seen, is a span of both. */
  lemma SpanWidens(data: set<Sighting>, lo: int, mid: int, hi: int, s: MetricSpan)
    requires lo <= mid <= hi
    requires (IsSpan(data, lo, mid, s) && !Seen(data, mid, hi, s.hash))
             || (IsSpan(data, mid, hi, s) && !Seen(data, lo, mid, s.hash))
    ensures IsSpan(data, lo, hi, s)
  {
    forall p | p in data && p.hash == s.hash
      ensures Matches(p.at, lo, hi) <==> Matches(p.at, lo, mid) || Matches(p.at, mid, hi)
    {
      MatchesSplit(p.at, lo, mid, hi);
    }
    MatchesSplit(s.min, lo, mid, hi);
    MatchesSplit(s.max, lo, mid, hi);
  }

  lemma SeenSplit(data: set<Sighting>, lo: int, mid: int, hi: int, hash: Name)
    requires lo <= mid <= hi
    ensures Seen(data, lo, hi, hash) <==> Seen(data, lo, mid, hash) || Seen(data, mid, hi, hash)
  {
    forall p | p in data && p.hash == hash
      ensures Matches(p.at, lo, hi) <==> Matches(p.at, lo, mid) || Matches(p.at, mid, hi)
    {
      MatchesSplit(p.at, lo, mid, hi);
    }
  }

  /** Folding one reply row in moves its hash on to the end of the window. */
  lemma MergeKeeps(data: set<Sighting>, lo: int, mid: int, hi: int, done: set<Name>, out: seq<MetricSpan>,
                   index: map<Name, nat>, s: MetricSpan)
    requires lo <= mid <= hi && Merged(data, lo, mid, hi, done, out, index)
    requires IsSpan(data, mid, hi, s) && s.hash !in done
    ensures
      var (out', index') := MergeOne(out, index, s);
      Merged(data, lo, mid, hi, done + {s.hash}, out', index')
  {
    hide Matches;
    var (out', index') := MergeOne(out, index, s);
    if s.hash in index {
      SpanJoins(data, lo, mid, hi, out[index[s.hash]], s);
    } else {
      assert !Seen(data, lo, mid, s.hash);
      SpanWidens(data, lo, mid, hi, s);
    }
    SeenSplit(data, lo, mid, hi, s.hash);
  }

  /** After the last row of a window every hash is up to its end. */
  lemma WindowDone(data: set<Sighting>, lo: int, mid: int, hi: int, spans: seq<MetricSpan>, out: seq<MetricSpan>,
                   index: map<Name, nat>)
    requires lo <= mid <= hi && IsGroupBy(data, mid, hi, spans)
    requires Merged(data, lo, mid, hi, HashesOf(spans), out, index)
    ensures Merged(data, lo, hi, hi, {}, out, index)
  {
    var done := HashesOf(spans);
    forall h
      ensures Seen(data, mid, hi, h) ==> h in done
      ensures Seen(data, lo, hi, h) ==> h in index
    {
      SeenSplit(data, lo, mid, hi, h);
      if Seen(data, mid, hi, h) {
        var i :| 0 <= i < |spans| && spans[i].hash == h;
        assert spans[i] in spans;
      }
    }
    forall i | 0 <= i < |out|
      ensures IsSpan(data, lo, hi, out[i])
    {
      if out[i].hash !in done {
        SpanWidens(data, lo, mid, hi, out[i]);
      }
    }
  }

  lemma MergedIsGroupBy(data: set<Sighting>, lo: int, hi: int, out: seq<MetricSpan>, index: map<Name, nat>)
    requires Merged(data, lo, hi, hi, {}, out, index)
    ensures IsGroupBy(data, lo, hi, out)
  {
    forall h | Seen(data, lo, hi, h)
      ensures exists i :: 0 <= i < |out| && out[i].hash == h
    {
      assert out[index[h]].hash == h;
    }
  }

  function MergeSpans(out: seq<MetricSpan>, index: map<Name, nat>, spans: seq<MetricSpan>)
    : (seq<MetricSpan>, map<Name, nat>)
  {
    if spans == [] then (out, index)
    else
      var (out', index') := MergeSpans(out, index, spans[..|spans| - 1]);
      MergeOne(out', index', spans[|spans| - 1])
  }

  function HashesOf(spans: seq<MetricSpan>): set<Name> {
    set s | s in spans :: s.hash
  }

  lemma HashesOfPrefix(spans: seq<MetricSpan>, n: nat)
    requires n < |spans| && OneEach(spans)
    ensures HashesOf(spans[..n + 1]) == HashesOf(spans[..n]) + {spans[n].hash}
    ensures spans[n].hash !in HashesOf(spans[..n])
  {
    assert spans[..n + 1] == spans[..n] + [spans[n]];
  }

  /** Folding in the first `n` rows of a window's reply. */
  lemma {:induction false} MergeSpansKeeps(data: set<Sighting>, lo: int, mid: int, hi: int, spans: seq<MetricSpan>,
                                           n: nat, out: seq<MetricSpan>, index: map<Name, nat>)
    requires lo <= mid <= hi && n <= |spans| && IsGroupBy(data, mid, hi, spans)
    requires Merged(data, lo, mid, hi, {}, out, index)
    ensures
      var (out', index') := MergeSpans(out, index, spans[..n]);
      Merged(data, lo, mid, hi, HashesOf(spans[..n]), out', index')
  {
    if n > 0 {
      MergeSpansKeeps(data, lo, mid, hi, spans, n - 1, out, index);
      assert spans[..n][..n - 1] == spans[..n - 1];
      HashesOfPrefix(spans, n - 1);
      hide Merged, MergeOne, Matches, Seen, HashesOf;
      var (out', index') := MergeSpans(out, index, spans[..n - 1]);
      MergeKeeps(data, lo, mid, hi, HashesOf(spans[..n - 1]), out', index', spans[n - 1]);
    }
  }

  /** A whole reply folded in. */
  lemma WindowMerges(data: set<Sighting>, lo: int, mid: int, hi: int, spans: seq<MetricSpan>, out: seq<MetricSpan>,
                     index: map<Name, nat>)
    requires lo <= mid <= hi && IsGroupBy(data, mid, hi, spans)
    requires Merged(data, lo, mid, mid, {}, out, index)
    ensures
      var (out', index') := MergeSpans(out, index, spans);
      Merged(data, lo, hi, hi, {}, out', index')
  {
    MergeSpansKeeps(data, lo, mid, hi, spans, |spans|, out, index);
    assert spans[..|spans|] == spans;
    var (out', index') := MergeSpans(out, index, spans);
    WindowDone(data, lo, mid, hi, spans, out', index');
  }

  lemma UsableNext(rows: seq<ReplyRow>, i: nat)
    requires i < |rows|
    ensures UsableSpans(rows[..i + 1])
         == if rows[i].Usable? && rows[i].span.hash != [] then UsableSpans(rows[..i]) + [rows[i].span]
            else UsableSpans(rows[..i])
  {
    assert rows[..i + 1][..i] == rows[..i];
  }

  lemma MergeNext(out: seq<MetricSpan>, index: map<Name, nat>, spans: seq<MetricSpan>, s: MetricSpan)
    ensures
      var (out', index') := MergeSpans(out, index, spans);
      MergeSpans(out, index, spans + [s]) == MergeOne(out', index', s)
  {
    assert (spans + [s])[..|spans|] == spans;
  }

  lemma NothingToMerge(out: seq<MetricSpan>, index: map<Name, nat>)
    ensures MergeSpans(out, index, UsableSpans([])) == (out, index)
  {}

  method MergeReply(out: seq<MetricSpan>, index: map<Name, nat>, rows: seq<ReplyRow>)
    returns (out': seq<MetricSpan>, index': map<Name, nat>)
    requires forall h :: h in index ==> index[h] < |out|
    ensures (out', index') == MergeSpans(out, index, UsableSpans(rows))
  {
    NothingToMerge(out, index);
    hide MergeSpans, UsableSpans;
    out', index' := out, index;
    for i := 0 to |rows|
      invariant (out', index') == MergeSpans(out, index, UsableSpans(rows[..i]))
      invariant forall h :: h in index' ==> index'[h] < |out'|
    {
      UsableNext(rows, i);
      if rows[i].Unusable? || rows[i].span.hash == [] {
        continue;
      }
      var s := rows[i].span;
      MergeNext(out, index, UsableSpans(rows[..i]), s);
      if s.hash !in index' {
        index' := index'[s.hash := |out'|];
        out' := out' + [s];
        continue;
      }
      var j := index'[s.hash];
      out' := out'[j := MetricSpan(s.hash, if s.min < out'[j].min then s.min else out'[j].min,
                                   if s.max > out'[j].max then s.max else out'[j].max)];
    }
    assert rows[..|rows|] == rows;
  }

  /** A row the scan can use: its times can be read, and its hash is not empty. */
  predicate IsUsable(r: ReplyRow) {
    r.Usable? && r.span.hash != []
  }

  /**
   * A reply to one window: a usable row for each hash sighted in it, with its first and its last sighting, and rows
   * that cannot be used anywhere in between.
   */
  ghost predicate IsReply(data: set<Sighting>, lo: int, hi: int, rows: seq<ReplyRow>) {
    && (forall i, j :: 0 <= i < j < |rows| && IsUsable(rows[i]) && IsUsable(rows[j]) ==>
                         rows[i].span.hash != rows[j].span.hash)
    && (forall i :: 0 <= i < |rows| && IsUsable(rows[i]) ==> IsSpan(Named(data), lo, hi, rows[i].span))
    && forall hash :: Seen(Named(data), lo, hi, hash) ==>
                        exists i :: 0 <= i < |rows| && IsUsable(rows[i]) && rows[i].span.hash == hash
  }

  ghost predicate Answers(data: set<Sighting>, reply: Window -> Result<seq<ReplyRow>>) {
    forall w :: reply(w).Ok? ==> IsReply(data, w.lo, w.hi, reply(w).value)
  }

  lemma {:induction false} UsableSpansAre(rows: seq<ReplyRow>, s: MetricSpan)
    ensures s in UsableSpans(rows) <==> exists i :: 0 <= i < |rows| && IsUsable(rows[i]) && rows[i].span == s
  {
    if rows != [] {
      UsableSpansAre(rows[..|rows| - 1], s);
      assert rows == rows[..|rows| - 1] + [rows[|rows| - 1]];
    }
  }

  lemma {:induction false} UsableOneEach(rows: seq<ReplyRow>)
    requires forall i, j :: 0 <= i < j < |rows| && IsUsable(rows[i]) && IsUsable(rows[j]) ==>
                              rows[i].span.hash != rows[j].span.hash
    ensures OneEach(UsableSpans(rows))
  {
    if rows != [] {
      var n := |rows| - 1;
      UsableOneEach(rows[..n]);
      var before := UsableSpans(rows[..n]);
      forall i | 0 <= i < |before| && IsUsable(rows[n])
        ensures before[i].hash != rows[n].span.hash
      {
        UsableSpansAre(rows[..n], before[i]);
        assert before[i] in before;
        var k :| 0 <= k < n && IsUsable(rows[..n][k]) && rows[..n][k].span == before[i];
        assert rows[k] == rows[..n][k];
      }
    }
  }

  /** The rows that are kept of a reply are a GROUP BY. */
  lemma ReplyIsGroupBy(data: set<Sighting>, lo: int, hi: int, rows: seq<ReplyRow>)
    requires IsReply(data, lo, hi, rows)
    ensures IsGroupBy(Named(data), lo, hi, UsableSpans(rows))
  {
    var spans := UsableSpans(rows);
    UsableOneEach(rows);
    forall i | 0 <= i < |spans|
      ensures IsSpan(Named(data), lo, hi, spans[i])
    {
      UsableSpansAre(rows, spans[i]);
      assert spans[i] in spans;
    }
    forall hash | Seen(Named(data), lo, hi, hash)
      ensures exists i :: 0 <= i < |spans| && spans[i].hash == hash
    {
      var k :| 0 <= k < |rows| && IsUsable(rows[k]) && rows[k].span.hash == hash;
      UsableSpansAre(rows, rows[k].span);
      var i :| 0 <= i < |spans| && spans[i] == rows[k].span;
    }
  }

  /** What a GROUP BY says of a hash, in the sightings and the millisecond bounds alone. */
  lemma GroupByIs(data: set<Sighting>, from: int, to: int, spans: seq<MetricSpan>, hash: Name)
    requires IsGroupBy(Named(data), from, to, spans)
    ensures (exists i :: 0 <= i < |spans| && spans[i].hash == hash) <==>
            exists p :: p in data && p.hash == hash && hash != [] && UnixMilli(from) <= UnixMilli(p.at) < UnixMilli(to)
    ensures forall i :: 0 <= i < |spans| && spans[i].hash == hash ==>
              && Sighting(hash, spans[i].min) in data && UnixMilli(from) <= UnixMilli(spans[i].min)
              && Sighting(hash, spans[i].max) in data && UnixMilli(spans[i].max) < UnixMilli(to)
              && forall p :: p in data && p.hash == hash && UnixMilli(from) <= UnixMilli(p.at) < UnixMilli(to) ==>
                   spans[i].min <= p.at <= spans[i].max
    ensures forall i, j :: 0 <= i < j < |spans| ==> spans[i].hash != spans[j].hash
  {
    forall i | 0 <= i < |spans| && spans[i].hash == hash
      ensures IsSpan(Named(data), from, to, spans[i])
    {}
    hide UnixMilli;
    if p :| p in data && p.hash == hash && hash != [] && UnixMilli(from) <= UnixMilli(p.at) < UnixMilli(to) {
      assert p in Named(data) && Matches(p.at, from, to);
      assert Seen(Named(data), from, to, hash);
    }
    if i :| 0 <= i < |spans| && spans[i].hash == hash {
      assert Sighting(hash, spans[i].min) in Named(data) && Matches(spans[i].min, from, to);
    }
  }

  lemma BackwardRangeIsEmpty(data: set<Sighting>, lo: int, hi: int, spans: seq<MetricSpan>)
    requires hi < lo && IsGroupBy(data, lo, hi, spans)
    ensures spans == []
  {
    MilliMonotone(hi, lo);
    assert |spans| > 0 ==> IsSpan(data, lo, hi, spans[0]);
  }

  lemma BackwardGroupBy(data: set<Sighting>, lo: int, hi: int)
    requires hi < lo
    ensures IsGroupBy(data, lo, hi, [])
  {
    MilliMonotone(hi, lo);
  }

  lemma NothingMerged(data: set<Sighting>, at: int)
    ensures Merged(data, at, at, at, {}, [], map[])
  {}

  /** Slicing does not change a scan: the merged spans are one GROUP BY over the whole range, each hash once. */
  method Hashes(ghost data: set<Sighting>, from: int, to: int, maxRange: int, reply: Window -> Result<seq<ReplyRow>>)
    returns (r: Result<seq<MetricSpan>>)
    requires Answers(data, reply)
    ensures r.Ok? ==> IsGroupBy(Named(data), from, to, r.value)
    ensures (forall w :: reply(w).Ok?) && !Refused(from, to, maxRange) ==> r.Ok?
  {
    var sliced := Windows(from, to, maxRange);
    if sliced.Err? {
      return Err(sliced.error);
    }
    var ws := sliced.value;
    var out: seq<MetricSpan> := [];
    var index: map<Name, nat> := map[];
    NothingMerged(Named(data), from);
    for k := 0 to |ws|
      invariant forall h :: h in index ==> index[h] < |out|
      invariant from <= to ==>
                  var mid := if k == 0 then from else ws[k - 1].hi;
                  Merged(Named(data), from, mid, mid, {}, out, index)
      invariant to < from ==> out == [] && index == map[]
    {
      var rows := reply(ws[k]);
      if rows.Err? {
        return Err(rows.error);
      }
      ReplyIsGroupBy(data, ws[k].lo, ws[k].hi, rows.value);
      ghost var spans := UsableSpans(rows.value);
      if from <= to {
        WindowFollows(ws, from, to, maxRange, k);
        WindowMerges(Named(data), from, ws[k].lo, ws[k].hi, spans, out, index);
      } else {
        BackwardRangeIsEmpty(Named(data), from, to, spans);
      }
      out, index := MergeReply(out, index, rows.value);
    }
    if from <= to {
      WindowFollows(ws, from, to, maxRange, |ws| - 1);
      MergedIsGroupBy(Named(data), from, to, out, index);
    } else {
      BackwardGroupBy(Named(data), from, to);
    }
    r := Ok(out);
  }

  lemma WindowFollows(ws: seq<Window>, from: int, to: int, maxRange: int, k: nat)
    requires IsSlicing(Ok(ws), from, to, maxRange) && k < |ws| && from <= to
    ensures ws[k].lo == (if k == 0 then from else ws[k - 1].hi)
    ensures from <= ws[k].lo <= ws[k].hi
    ensures k == |ws| - 1 ==> ws[k].hi == to
  {
    if maxRange > 0 && from < to {
      SliceInside(ws, from, to, maxRange, k);
    }
  }
}
