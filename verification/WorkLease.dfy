/** config.go:437-459: the lease a claim gets when none is configured. */
module WorkLease {
  import opened Basics
  import opened Backoff
  import opened DruidWindows

  const MINUTE: Duration := 60_000_000_000

  /** Go's integer division: the quotient is truncated toward zero. */
  function Quotient(a: int, b: int): int
    requires b > 0
  {
    if a >= 0 then a / b else -((-a) / b)
  }

  /** How many requests the derivation allows for. */
  function Slots(lookback: Duration, maxRange: Duration): (n: int)
    ensures n >= 1
  {
    if maxRange > 0 && lookback > 0 then
      var q := Quotient(Wrap(lookback as int + maxRange as int - 1) as int, maxRange as int);
      if q < 1 then 1 else q
    else 1
  }

  function DerivedLease(lookback: Duration, maxRange: Duration, timeout: Duration, base: Duration): Duration {
    var lease := Wrap(Times(timeout, Slots(lookback, maxRange)) as int + MINUTE as int);
    if lease < base then base else lease
  }

  lemma QuotientUp(n: int, span: int, d: int)
    requires d > 0 && span > 0 && (n - 1) * d < span <= n * d
    ensures (span + d - 1) / d == n
  {
    var q := (span + d - 1) / d;
    assert span + d - 1 == q * d + (span + d - 1) % d;
    QuotientAtMost(n, q, span, d);
    QuotientAtMost(q, n, span, d);
  }

  lemma WrapFits(x: int)
    requires MIN_DURATION <= x <= MAX_DURATION
    ensures Wrap(x) as int == x
  {}

  /** A sum of two durations that does not fit comes out negative. */
  lemma WrapOver(x: int)
    requires MAX_DURATION < x <= 2 * MAX_DURATION
    ensures Wrap(x) as int == x - TWO_64 && Wrap(x) as int < 0
  {}

  /** The sum of the derivation fits, or there is one request whatever the sum comes to. */
  predicate CountFits(lookback: Duration, maxRange: Duration) {
    maxRange <= 0 || lookback as int + maxRange as int - 1 <= MAX_DURATION || lookback <= maxRange
  }

  lemma OneSlice(ws: seq<Window>, from: int, to: int, maxRange: int)
    requires Slices(ws, from, to, maxRange) && maxRange > 0
    ensures |ws| == 1 <==> to - from <= maxRange
  {
    SliceCount(ws, from, to, maxRange);
    if |ws| > 1 {
      TimesAtLeast(|ws| - 1, maxRange);
    }
  }

  lemma TimesAtLeast(n: int, d: int)
    requires n >= 1 && d > 0
    ensures n * d >= d
  {}

  /**
   * The derivation allows for exactly as many requests as a training query over the lookback is sliced into, if and
   * only if its sum does not wrap or one request is enough. Otherwise it allows for one.
   */
  lemma SlotsAreSlices(ws: seq<Window>, from: int, lookback: Duration, maxRange: Duration)
    requires lookback > 0 && IsSlicing(Ok(ws), from, from + lookback as int, maxRange as int)
    ensures Slots(lookback, maxRange) == |ws| <==> CountFits(lookback, maxRange)
    ensures !CountFits(lookback, maxRange) ==> Slots(lookback, maxRange) == 1 < |ws|
  {
    if maxRange > 0 {
      var sum := lookback as int + maxRange as int - 1;
      OneSlice(ws, from, from + lookback as int, maxRange as int);
      if sum <= MAX_DURATION {
        SliceCount(ws, from, from + lookback as int, maxRange as int);
        QuotientUp(|ws|, lookback as int, maxRange as int);
        WrapFits(sum);
      } else {
        WrapOver(sum);
        NegativeQuotient(Wrap(sum) as int, maxRange as int);
      }
    }
  }

  lemma NegativeQuotient(a: int, b: int)
    requires a < 0 < b
    ensures Quotient(a, b) <= 0
  {}

  /** One full timeout for every request of a training, and a minute more. */
  function Need(requests: int, timeout: Duration): int {
    requests * timeout as int + MINUTE as int
  }

  /**
   * The derived lease is long enough for a training if and only if what is needed is a duration at all, and the count
   * is exact or the retry base is long enough by itself. Retries of requests and their wait for a slot are not in it.
   */
  lemma LeaseCoversRequests(ws: seq<Window>, from: int, lookback: Duration, maxRange: Duration, timeout: Duration,
                            base: Duration)
    requires lookback > 0 && IsSlicing(Ok(ws), from, from + lookback as int, maxRange as int) && timeout > 0
    ensures
      var need := Need(|ws|, timeout);
      DerivedLease(lookback, maxRange, timeout, base) as int >= need <==>
      need <= MAX_DURATION && (CountFits(lookback, maxRange) || base as int >= need)
    ensures DerivedLease(lookback, maxRange, timeout, base) >= base
    ensures Need(|ws|, timeout) <= MAX_DURATION && CountFits(lookback, maxRange) ==>
              var need := Need(|ws|, timeout);
              DerivedLease(lookback, maxRange, timeout, base) as int == if need < base as int then base as int else need
  {
    SlotsAreSlices(ws, from, lookback, maxRange);
    var n := Slots(lookback, maxRange);
    if Need(|ws|, timeout) <= MAX_DURATION {
      NeedGrows(n, |ws|, timeout);
      WrapFits(n * timeout as int);
      WrapFits(Need(n, timeout));
    }
  }

  lemma NeedGrows(m: int, n: int, timeout: Duration)
    requires 1 <= m <= n && timeout > 0
    ensures 0 < m * timeout as int && Need(m, timeout) <= Need(n, timeout)
    ensures m < n ==> Need(m, timeout) < Need(n, timeout)
  {
    var t := timeout as int;
    assert n * t == m * t + (n - m) * t;
    TimesAtLeast(m, t);
    if m < n {
      TimesAtLeast(n - m, t);
    }
  }

  /** The wrap shortens a lease: durations near the limit need two requests, and are leased for one. */
  lemma LeaseCanFallShort(ws: seq<Window>, from: int)
    requires IsSlicing(Ok(ws), from, from + 0x7fff_ffff_ffff_ffff, 0x4000_0000_0000_0000)
    ensures
      var lookback, maxRange := 0x7fff_ffff_ffff_ffff as Duration, 0x4000_0000_0000_0000 as Duration;
      |ws| == 2 && DerivedLease(lookback, maxRange, MINUTE, MINUTE) as int == 2 * MINUTE as int < Need(2, MINUTE)
  {
    var lookback, maxRange := 0x7fff_ffff_ffff_ffff as Duration, 0x4000_0000_0000_0000 as Duration;
    SliceCount(ws, from, from + lookback as int, maxRange as int);
    QuotientAtMost(|ws|, 2, lookback as int, maxRange as int);
    QuotientAtMost(2, |ws|, lookback as int, maxRange as int);
    SlotsAreSlices(ws, from, lookback, maxRange);
    WrapFits(2 * MINUTE as int);
  }
}
