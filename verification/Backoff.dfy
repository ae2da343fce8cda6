/** config.go:467-482 and druid.go:328-334: doubling delays on 64-bit durations that wrap around. */
module Backoff {
  const TWO_63 := 0x8000_0000_0000_0000
  const TWO_64 := 0x1_0000_0000_0000_0000

  /** A Go time.Duration: a signed 64-bit count of nanoseconds. */
  newtype Duration = x: int | -0x8000_0000_0000_0000 <= x < 0x8000_0000_0000_0000

  const DRUID_RETRY_BACKOFF: Duration := 250_000_000
  const DRUID_RETRY_MAX_BACKOFF: Duration := 2_000_000_000

  /** The value a 64-bit signed word holds after a result that may not fit. */
  function Wrap(x: int): Duration {
    var low := x % TWO_64;
    (if low >= TWO_63 then low - TWO_64 else low) as Duration
  }

  function Times(d: Duration, n: int): Duration {
    Wrap(d as int * n)
  }

  /** Go's shift: the bits shifted out are gone, however far the shift goes. */
  function ShiftLeft(d: Duration, n: nat): Duration {
    if n >= 64 then 0 else Wrap(d as int * Pow2(n))
  }

  function Pow2(n: nat): nat {
    if n == 0 then 1 else 2 * Pow2(n - 1)
  }

  /** The delay without a word size: `base` doubled `doublings` times, at most `max`. */
  function Capped(base: int, max: int, doublings: nat): int {
    if base * Pow2(doublings) <= max then base * Pow2(doublings) else max
  }

  lemma {:induction false} Pow2Monotone(m: nat, n: nat)
    requires m <= n
    ensures 1 <= Pow2(m) <= Pow2(n)
    decreases n
  {
    if m < n {
      Pow2Monotone(m, n - 1);
    } else if 0 < n {
      Pow2Monotone(n - 1, n - 1);
    }
  }

  lemma {:induction false} Pow2Adds(m: nat, n: nat)
    ensures Pow2(m + n) == Pow2(m) * Pow2(n)
  {
    if m > 0 {
      Pow2Adds(m - 1, n);
      assert Pow2(m + n) == 2 * Pow2(m - 1 + n);
    }
  }

  /** More attempts never mean a shorter delay, and the delay is always positive and at most the cap. */
  lemma CappedMonotone(base: int, max: int, m: nat, n: nat)
    requires 0 < base && 0 < max && m <= n
    ensures 0 < Capped(base, max, m) <= Capped(base, max, n) <= max
  {
    Pow2Monotone(m, n);
    hide Pow2;
    TimesMonotone(base, Pow2(m), Pow2(n));
    assert base * Pow2(m) > 0;
  }

  /** Once a doubling reaches the cap, every further one stays there. */
  lemma CappedStays(base: int, max: int, m: nat, n: nat)
    requires 0 < base && 0 < max && m <= n && base * Pow2(m) >= max
    ensures Capped(base, max, n) == max
  {
    Pow2Monotone(m, n);
    hide Pow2;
    TimesMonotone(base, Pow2(m), Pow2(n));
  }

  lemma TimesMonotone(a: int, x: int, y: int)
    requires 0 < a && x <= y
    ensures a * x <= a * y
  {}

  /** One doubling of a value below the cap: a wrapped result is never positive. */
  lemma DoublingWraps(d: Duration)
    requires d > 0
    ensures if 2 * d as int < TWO_63 then Times(d, 2) as int == 2 * d as int else Times(d, 2) <= 0
  {}

  method RetryDelay(base: Duration, max: Duration, attempt: int) returns (d: Duration)
    ensures base > 0 && max > 0 ==>
              d as int == Capped(base as int, max as int, if attempt < 1 then 0 else attempt - 1)
  {
    var n := if attempt < 1 then 1 else attempt;
    d := base;
    for i := 1 to n
      invariant base > 0 && max > 0 ==> d as int == base as int * Pow2(i - 1) && d > 0
    {
      if base > 0 && max > 0 {
        DoublingWraps(d);
      }
      assert base as int * Pow2(i) == 2 * (base as int * Pow2(i - 1));
      d := Times(d, 2);
      if d <= 0 || d >= max {
        if base > 0 && max > 0 {
          CappedStays(base as int, max as int, i, n - 1);
        }
        return max;
      }
    }
    if d > max {
      return max;
    }
  }

  /** Shifted far enough to wrap, the base is a multiple of 2^42: not positive, or far above the cap. */
  lemma ShiftNeverSlipsThrough(n: nat)
    requires 5 <= n + 1
    ensures
      var d := ShiftLeft(DRUID_RETRY_BACKOFF, n);
      d <= 0 || d > DRUID_RETRY_MAX_BACKOFF
  {
    if n < 35 {
      ShortShiftIsExact(n);
      Pow2Monotone(4, n);
    } else if n < 64 {
      var b := 1_953_125 * Pow2(n - 35);
      Pow2Adds(35, n - 35);
      Pow2Of35();
      assert 250_000_000 * Pow2(n) == 0x400_0000_0000 * b;
      MultipleOf42Bits(b);
    }
  }

  lemma Pow2Of35()
    ensures Pow2(35) == 0x8_0000_0000
  {
    Pow2Adds(16, 19);
    assert Pow2(8) == 256;
    Pow2Adds(8, 8);
    Pow2Adds(8, 11);
    assert Pow2(3) == 8;
    Pow2Adds(3, 8);
  }

  lemma MultipleOf42Bits(b: nat)
    ensures
      var d := Wrap(0x400_0000_0000 * b);
      d <= 0 || d as int >= 0x400_0000_0000
  {
    var q, r := b / 0x40_0000, b % 0x40_0000;
    assert 0x400_0000_0000 * b == q * TWO_64 + 0x400_0000_0000 * r;
    assert (0x400_0000_0000 * b) % TWO_64 == 0x400_0000_0000 * r by {
      ModOfSum(q, 0x400_0000_0000 * r);
    }
  }

  lemma ModOfSum(q: nat, r: nat)
    requires r < TWO_64
    ensures (q * TWO_64 + r) % TWO_64 == r
  {}

  lemma ShortShiftIsExact(n: nat)
    requires n < 35
    ensures ShiftLeft(DRUID_RETRY_BACKOFF, n) as int == 250_000_000 * Pow2(n)
  {
    Pow2Monotone(n, 35);
    Pow2Of35();
  }

  method RetryBackoff(attempt: int) returns (d: Duration)
    requires attempt >= 1 // a negative shift count panics
    ensures d as int == Capped(DRUID_RETRY_BACKOFF as int, DRUID_RETRY_MAX_BACKOFF as int, attempt - 1)
  {
    d := ShiftLeft(DRUID_RETRY_BACKOFF, attempt - 1);
    if attempt - 1 < 4 {
      ShortShiftIsExact(attempt - 1);
      Pow2Monotone(attempt - 1, 3);
      assert Pow2(3) == 8;
    } else {
      ShiftNeverSlipsThrough(attempt - 1);
      assert Pow2(3) == 8;
      CappedStays(250_000_000, 2_000_000_000, 3, attempt - 1);
    }
    if d <= 0 || d > DRUID_RETRY_MAX_BACKOFF {
      return DRUID_RETRY_MAX_BACKOFF;
    }
  }
}
