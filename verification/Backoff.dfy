/**
 The retry delay, in int64 nanoseconds with wrap-around, and how long a whole run can wait.
 The random draw is a parameter: the jitter is any number below half the capped delay.
 */
module Backoff {

  const TWO_63: int := 0x8000_0000_0000_0000
  const TWO_64: int := 0x1_0000_0000_0000_0000
  const TWO_34: int := 0x4_0000_0000
  const TWO_62: int := 0x4000_0000_0000_0000

  datatype Config = Config(maxRetries: int, base: int, max: int)

  /** The int64 that Go arithmetic yields for a mathematical result. */
  function Wrap64(x: int): (r: int)
    ensures -TWO_63 <= r < TWO_63
    ensures r == x <==> -TWO_63 <= x < TWO_63
  {
    (x + TWO_63) % TWO_64 - TWO_63
  }

  /** Go's integer division truncates toward zero. */
  function Quot(a: int, b: int): int
    requires b > 0
  {
    if a >= 0 then a / b else -(-a / b)
  }

  function Pow2(n: nat): (r: nat)
    ensures r >= 1
  {
    if n == 0 then 1 else 2 * Pow2(n - 1)
  }

  function Clamp(attempt: int): int {
    if attempt < 1 then 1 else if attempt > 30 then 30 else attempt
  }

  function Jitter(half: int, rnd: nat): int {
    if half > 0 then rnd % half else 0
  }

  /** The delay as computed, every step wrapped. */
  function Delay(c: Config, attempt: int, rnd: nat): int {
    var product := Wrap64(c.base * Pow2(Clamp(attempt) - 1));
    var d := if product > c.max then c.max else product;
    Wrap64(Wrap64(d - Quot(d, 4)) + Jitter(Quot(d, 2), rnd))
  }

  /** The capped exponential that the delay is meant to vary around. */
  function Ideal(c: Config, attempt: int): int {
    var d := c.base * Pow2(Clamp(attempt) - 1);
    if d > c.max then c.max else d
  }

  method CalculateRetryDelay(c: Config, attempt: int, rnd: nat) returns (delay: int)
    ensures delay == Delay(c, attempt, rnd)
  {
    var k := attempt;
    if k < 1 {
      k := 1;
    }
    if k > 30 {
      k := 30;
    }
    delay := Wrap64(c.base * Pow2(k - 1));
    if delay > c.max {
      delay := c.max;
    }
    var jitter := 0;
    var halfWindow := Quot(delay, 2);
    if halfWindow > 0 {
      jitter := rnd % halfWindow;
    }
    delay := Wrap64(Wrap64(delay - Quot(delay, 4)) + jitter);
  }

  lemma {:induction false} Pow2Monotone(m: nat, n: nat)
    requires m <= n
    ensures Pow2(m) <= Pow2(n)
    decreases n - m
  {
    if m < n {
      Pow2Monotone(m, n - 1);
    }
  }

  lemma Pow2Values()
    ensures Pow2(29) == 0x2000_0000
  {
    assert Pow2(4) == 16;
    assert Pow2(8) == 256;
    assert Pow2(12) == 0x1000;
    assert Pow2(16) == 0x1_0000;
    assert Pow2(20) == 0x10_0000;
    assert Pow2(24) == 0x100_0000;
    assert Pow2(28) == 0x1000_0000;
  }

  lemma ProductFits(base: int, attempt: int)
    requires 0 <= base < TWO_34
    ensures 0 <= base * Pow2(Clamp(attempt) - 1) < TWO_63
  {
    Pow2Values();
    Pow2Monotone(Clamp(attempt) - 1, 29);
    MulBound(base, TWO_34 - 1, Pow2(Clamp(attempt) - 1), 0x2000_0000);
  }

  lemma MulBound(a: nat, a': nat, b: nat, b': nat)
    requires a <= a' && b <= b'
    ensures 0 <= a * b <= a' * b'
  {
    assert a * b <= a' * b;
    assert a' * b <= a' * b';
  }

  /** With a base below 2^34 ns and a cap below 2^62 ns no step overflows, and the delay lies in [d - d/4, 5d/4). */
  lemma DelayRange(c: Config, attempt: int, rnd: nat)
    requires 0 <= c.base < TWO_34 && 0 <= c.max < TWO_62
    ensures var d := Ideal(c, attempt);
            && Delay(c, attempt, rnd) == d - d / 4 + Jitter(d / 2, rnd)
            && d - d / 4 <= Delay(c, attempt, rnd)
            && 4 * Delay(c, attempt, rnd) <= 5 * d
            && (d >= 1 ==> 4 * Delay(c, attempt, rnd) < 5 * d)
  {
    ProductFits(c.base, attempt);
  }

  /**
   The delay in full: the base doubled once per earlier attempt, up to 29 times, and capped; three quarters of that,
   rounded up, plus the random draw below half of it.
   */
  lemma DelaySpelled(c: Config, attempt: int, rnd: nat)
    requires 0 <= c.base < TWO_34 && 0 <= c.max < TWO_62
    ensures var doublings := if attempt < 1 then 0 else if attempt > 30 then 29 else attempt - 1;
            var d := if c.base * Pow2(doublings) > c.max then c.max else c.base * Pow2(doublings);
            Delay(c, attempt, rnd) == d - d / 4 + (if d >= 2 then rnd % (d / 2) else 0)
  {
    DelayRange(c, attempt, rnd);
  }

  /** The delay stays within a quarter of the capped exponential, below and above. */
  predicate InRange(c: Config, attempt: int, rnd: nat) {
    var d := Ideal(c, attempt);
    d - d / 4 <= Delay(c, attempt, rnd) && 4 * Delay(c, attempt, rnd) <= 5 * d
  }

  /** A product that passes 2^63 but not 2^64 wraps, and the delay is negative whatever the random draw. */
  lemma WrappedIsNegative(c: Config, attempt: int, rnd: nat)
    requires c.max >= 0 && TWO_63 <= c.base * Pow2(Clamp(attempt) - 1) < TWO_64
    ensures Delay(c, attempt, rnd) < 0 && !InRange(c, attempt, rnd)
  {
    var x := c.base * Pow2(Clamp(attempt) - 1);
    assert Wrap64(x) == x - TWO_64;
    assert Ideal(c, attempt) == if x > c.max then c.max else x;
  }

  /** The first attempt whose product passes 2^63: doubling cannot skip the range below 2^64. */
  lemma {:induction false} FirstWrap(base: int, k: nat) returns (attempt: nat)
    requires 0 <= base < TWO_63 && base * Pow2(k) >= TWO_63
    ensures 1 <= attempt <= k + 1 && TWO_63 <= base * Pow2(attempt - 1) < TWO_64
  {
    Halves(base, k);
    if k == 0 || base * Pow2(k - 1) < TWO_63 {
      attempt := k + 1;
    } else {
      attempt := FirstWrap(base, k - 1);
    }
  }

  lemma Halves(base: int, k: nat)
    ensures base * Pow2(k) == if k == 0 then base else 2 * (base * Pow2(k - 1))
  {
  }

  /** The delay is in range at every attempt and for every random draw exactly when the base is below 2^34 ns. */
  lemma InRangeIff(c: Config)
    requires 0 <= c.base < TWO_63 && 0 <= c.max < TWO_62
    ensures (forall attempt: int, rnd: nat :: InRange(c, attempt, rnd)) <==> c.base < TWO_34
  {
    if c.base < TWO_34 {
      forall attempt: int, rnd: nat ensures InRange(c, attempt, rnd) {
        DelayRange(c, attempt, rnd);
      }
    } else {
      Pow2Values();
      MulBound(TWO_34, c.base, 0x2000_0000, Pow2(29));
      var attempt := FirstWrap(c.base, 29);
      assert Clamp(attempt) == attempt;
      WrappedIsNegative(c, attempt, 0);
    }
  }

  // ---------- A whole run ----------

  /** The waits before attempts 1 to n, with the random draws of a run. */
  function Waits(c: Config, n: nat, rnds: nat -> nat): int {
    if n == 0 then 0 else Waits(c, n - 1, rnds) + Delay(c, n, rnds(n))
  }

  function Min(a: int, b: int): int {
    if a <= b then a else b
  }

  /** All waits of a run sum to at most 5/4 of both the exponential total and n times the cap. */
  lemma {:induction false} WaitsBound(c: Config, n: nat, rnds: nat -> nat)
    requires 0 <= c.base < TWO_34 && 0 <= c.max < TWO_62
    ensures 0 <= 4 * Waits(c, n, rnds) <= 5 * Min(c.base * (Pow2(n) - 1), n * c.max)
  {
    if n > 0 {
      hide Delay, Ideal;
      WaitsBound(c, n - 1, rnds);
      DelayRange(c, n, rnds(n));
      IdealBelow(c, n);
      AddWait(Waits(c, n - 1, rnds), Delay(c, n, rnds(n)), Ideal(c, n), c.base, Pow2(n - 1), n, c.max);
    }
  }

  /** One more wait of at most 5/4 of `d`. */
  lemma AddWait(sum: int, delay: int, d: int, base: int, p: int, n: int, max: int)
    requires 0 <= 4 * sum <= 5 * Min(base * (p - 1), (n - 1) * max)
    requires 0 <= d - d / 4 <= delay && 4 * delay <= 5 * d && d <= max && d <= base * p
    ensures 0 <= 4 * (sum + delay) <= 5 * Min(base * (2 * p - 1), n * max)
  {
    Distribute(base, p);
    assert n * max == (n - 1) * max + max;
  }

  lemma IdealBelow(c: Config, n: nat)
    requires n >= 1 && 0 <= c.base && 0 <= c.max
    ensures Ideal(c, n) <= c.max && Ideal(c, n) <= c.base * Pow2(n - 1)
  {
    Pow2Monotone(Clamp(n) - 1, n - 1);
    MulBound(c.base, c.base, Pow2(Clamp(n) - 1), Pow2(n - 1));
  }

  lemma Distribute(b: int, p: int)
    ensures b * (p - 1) + b * p == b * (2 * p - 1)
  {
  }
}
