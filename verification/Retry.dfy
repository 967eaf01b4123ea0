/** Retry delays in 64-bit nanoseconds (internal/httpx/retry.go:76-90 and 151-188). */
module Retry {
  import opened Common

  const TWO63 := 0x8000_0000_0000_0000
  const TWO64 := 0x1_0000_0000_0000_0000

  /** Two's complement wrap-around. */
  function Wrap(x: int): (r: int)
    ensures -TWO63 <= r < TWO63 && (r - x) % TWO64 == 0
  {
    (x + TWO63) % TWO64 - TWO63
  }

  function Pow2(n: nat): (r: nat)
    ensures r > 0
  {
    if n == 0 then 1 else 2 * Pow2(n - 1)
  }

  /** `d << uint(n)`: a negative count converts to a huge one and shifts everything out. */
  function Shift(d: int, n: int): int { if n < 0 then 0 else Wrap(d * Pow2(n)) }

  function Capped(minWait: int, maxWait: int, n: int): int {
    var delay := Shift(minWait, n);
    if delay <= 0 || delay > maxWait then maxWait else delay
  }

  /** backoffWithJitter; `jitter` is the random draw from 0..half. */
  function Backoff(minWait: int, maxWait: int, n: int, jitter: int): int { Capped(minWait, maxWait, n) / 2 + jitter }

  function Min(a: int, b: int): int { if a <= b then a else b }

  // ---- The delay without wrap-around ------------------------------------------------------------

  lemma {:induction false} Pow2Add(a: nat, b: nat)
    ensures Pow2(a + b) == Pow2(a) * Pow2(b)
  {
    if a > 0 {
      Pow2Add(a - 1, b);
      assert Pow2(a + b) == 2 * Pow2(a - 1 + b);
    }
  }

  lemma Pow2Is64()
    ensures Pow2(64) == TWO64
  {
    Pow2Square(4, 16);
    Pow2Square(8, 256);
    Pow2Square(16, 0x1_0000);
    Pow2Square(32, 0x1_0000_0000);
  }

  lemma Pow2Square(n: nat, p: nat)
    requires Pow2(n) == p
    ensures Pow2(2 * n) == p * p
  {
    Pow2Add(n, n);
  }

  lemma WrapIs(x: int) returns (q: int)
    ensures Wrap(x) == x - q * TWO64
  {
    q := (x + TWO63) / TWO64;
  }

  /** Shifting by n below 64 leaves a multiple of 2^n, so a positive result is at least 2^n. */
  lemma PositiveShiftIsLarge(d: int, n: nat)
    requires n < 64 && Wrap(d * Pow2(n)) > 0
    ensures Wrap(d * Pow2(n)) >= Pow2(n)
  {
    var p, r := Pow2(n), Pow2(64 - n);
    Pow2Is64();
    Pow2Add(n, 64 - n);
    var q := WrapIs(d * p);
    assert q * TWO64 == (q * r) * p by { MulSwap(q, p, r); }
    MultipleIsLarge(d - q * r, p, d, q * r);
  }

  lemma MulSwap(q: int, p: int, r: int)
    ensures q * (p * r) == (q * r) * p
  {}

  lemma MultipleIsLarge(k: int, p: int, d: int, e: int)
    requires p > 0 && k == d - e && d * p - e * p > 0
    ensures d * p - e * p >= p
  {
    assert d * p - e * p == k * p;
    assert k <= 0 ==> k * p <= 0;
  }

  lemma {:induction false} LargeShiftIsZero(d: int, n: nat)
    requires n >= 64
    ensures Wrap(d * Pow2(n)) == 0
  {
    Pow2Is64();
    Pow2Add(n - 64, 64);
    var m := d * Pow2(n - 64);
    assert d * Pow2(n) == m * TWO64;
    assert (m * TWO64 + TWO63) % TWO64 == TWO63 by { ModOfMultiple(m); }
  }

  lemma ModOfMultiple(m: int)
    ensures (m * TWO64 + TWO63) % TWO64 == TWO63
  {}

  /** When the product of the waits fits in 63 bits, a shift that overflows lands outside
      1..maxWait, where the guard catches it. */
  lemma OverflowIsCaught(minWait: int, maxWait: int, n: nat)
    requires minWait > 0 && maxWait > 0 && minWait * maxWait < TWO63 && minWait * Pow2(n) >= TWO63
    ensures var d := Wrap(minWait * Pow2(n)); d <= 0 || d > maxWait
  {
    if n >= 64 {
      LargeShiftIsZero(minWait, n);
    } else if Wrap(minWait * Pow2(n)) > 0 {
      PositiveShiftIsLarge(minWait, n);
    }
  }

  lemma AtLeastFactor(a: int, b: int)
    requires a > 0 && b > 0
    ensures a * b >= a && a * b >= b
  {}

  /** The delay the documentation promises. */
  predicate Exact(minWait: int, maxWait: int, n: nat) {
    Capped(minWait, maxWait, n) == Min(minWait * Pow2(n), maxWait)
  }

  /** The shift does not overflow, or lands where it is cut at maxWait. */
  predicate Safe(minWait: int, maxWait: int, n: nat) {
    || minWait * Pow2(n) < TWO63
    || Wrap(minWait * Pow2(n)) <= 0 || Wrap(minWait * Pow2(n)) >= maxWait
  }

  /** One attempt: the delay is minWait * 2^n cut at maxWait if and only if the shift is safe. */
  lemma CappedIsExactIff(minWait: int, maxWait: int, n: nat)
    requires 0 < minWait < TWO63 && 0 < maxWait < TWO63
    ensures Exact(minWait, maxWait, n) <==> Safe(minWait, maxWait, n)
  {
    AtLeastFactor(minWait, Pow2(n));
  }

  /** All attempts: exact for every one if and only if the 64 shifts that can leave a bit are safe. */
  lemma AlwaysExactIff(minWait: int, maxWait: int)
    requires 0 < minWait < TWO63 && 0 < maxWait < TWO63
    ensures (forall n: nat :: Exact(minWait, maxWait, n)) <==> (forall n: nat :: n < 64 ==> Safe(minWait, maxWait, n))
  {
    forall n: nat ensures Exact(minWait, maxWait, n) <==> Safe(minWait, maxWait, n) {
      CappedIsExactIff(minWait, maxWait, n);
    }
    forall n: nat | n >= 64 ensures Safe(minWait, maxWait, n) {
      LargeShiftIsZero(minWait, n);
    }
  }

  /** A product of the waits below 2^63 is enough: every attempt is exact. */
  lemma CappedIsExact(minWait: int, maxWait: int, n: nat)
    requires minWait > 0 && maxWait > 0 && minWait * maxWait < TWO63
    ensures Exact(minWait, maxWait, n)
  {
    AtLeastFactor(minWait, maxWait);
    CappedIsExactIff(minWait, maxWait, n);
    if minWait * Pow2(n) >= TWO63 {
      OverflowIsCaught(minWait, maxWait, n);
    }
  }

  /** So delays never decrease from one attempt to the next. */
  lemma DelaysGrow(minWait: int, maxWait: int, n: nat)
    requires minWait > 0 && maxWait > 0 && minWait * maxWait < TWO63
    ensures Capped(minWait, maxWait, n) <= Capped(minWait, maxWait, n + 1)
  {
    CappedIsExact(minWait, maxWait, n);
    CappedIsExact(minWait, maxWait, n + 1);
  }

  /** Half of the delay is fixed and the rest is jitter, whatever the waits and the attempt; the
      result is never negative nor above maxWait. */
  lemma BackoffBounds(minWait: int, maxWait: int, n: int, jitter: int)
    requires maxWait > 0 && 0 <= jitter <= Capped(minWait, maxWait, n) / 2
    ensures 0 < Capped(minWait, maxWait, n) <= maxWait
    ensures Capped(minWait, maxWait, n) / 2 <= Backoff(minWait, maxWait, n, jitter) <= Capped(minWait, maxWait, n)
    ensures 0 <= Backoff(minWait, maxWait, n, jitter) <= maxWait
    ensures Backoff(minWait, maxWait, n, jitter) - Backoff(minWait, maxWait, n, 0) == jitter
    ensures n < 0 ==> Capped(minWait, maxWait, n) == maxWait
  {}

  /** A shift that is not safe: four nanoseconds instead of years. */
  lemma LargeWaitsCollapse()
    ensures var w := 0x4000_0000_0000_0001; !Exact(w, w, 2) && Capped(w, w, 2) == 4
  {
    var w := 0x4000_0000_0000_0001;
    assert Pow2(2) == 4;
    CappedIsExactIff(w, w, 2);
  }

  // ---- Policies ----------------------------------------------------------------------------------

  datatype Policy = Policy(maxAttempts: int, initial: int, max: int)

  const DEFAULT_POLICY := Policy(4, 250_000_000, 30_000_000_000)

  function Normalized(p: Policy): Policy {
    var attempts := if p.maxAttempts <= 0 then 4 else p.maxAttempts;
    var initial := if p.initial <= 0 then 250_000_000 else p.initial;
    var max := if p.max <= 0 then 30_000_000_000 else p.max;
    Policy(attempts, initial, if max < initial then initial else max)
  }

  /** A normalized policy has positive, ordered fields, keeps every field that was sensible
      already and is a fixed point; the default one is exact for every attempt. */
  lemma NormalizedIsSane(p: Policy, n: nat)
    ensures var q := Normalized(p);
      && q.maxAttempts > 0 && 0 < q.initial <= q.max && Normalized(q) == q
      && (p.maxAttempts > 0 && 0 < p.initial <= p.max ==> q == p)
    ensures var q := Normalized(p);
      && (if p.maxAttempts > 0 then q.maxAttempts == p.maxAttempts else q.maxAttempts == 4)
      && (if p.initial > 0 then q.initial == p.initial else q.initial == 250_000_000)
      && (0 < p.max < q.initial ==> q.max == q.initial) && (p.max >= q.initial ==> q.max == p.max)
      && (p.max <= 0 && q.initial <= 30_000_000_000 ==> q.max == 30_000_000_000)
      && (p.max <= 0 && q.initial > 30_000_000_000 ==> q.max == q.initial)
    ensures p.maxAttempts <= 0 && p.initial <= 0 && p.max <= 0 ==> Normalized(p) == DEFAULT_POLICY
    ensures Exact(DEFAULT_POLICY.initial, DEFAULT_POLICY.max, n)
  {
    CappedIsExact(DEFAULT_POLICY.initial, DEFAULT_POLICY.max, n);
  }

  // ---- Retry-After ---------------------------------------------------------------------------------

  const SECOND := 1_000_000_000

  /** The delay-seconds form; `secs` is the parsed header when there is one. */
  function RetryAfter(status: int, secs: Option<int>, maxWait: int): Option<int> {
    if (status != 429 && status != 503) || secs.None? || secs.value < 0 then None
    else
      var d := Wrap(secs.value * SECOND);
      Some(if d > maxWait then maxWait else d)
  }

  /** The header is honoured up to maxWait exactly when the product does not wrap, or wraps to
      something that is cut at maxWait anyway. */
  lemma RetryAfterIsExactIff(status: int, secs: int, maxWait: int)
    requires (status == 429 || status == 503) && secs >= 0 && 0 < maxWait < TWO63
    ensures RetryAfter(status, Some(secs), maxWait) == Some(Min(secs * SECOND, maxWait)) <==>
      secs <= 9_223_372_036 || Wrap(secs * SECOND) >= maxWait
    ensures forall s, h :: RetryAfter(s, h, maxWait).Some? <==> (s == 429 || s == 503) && h.Some? && h.value >= 0
  {
    if secs <= 9_223_372_036 {
      assert secs * SECOND < TWO63;
      assert Wrap(secs * SECOND) == secs * SECOND;
    } else {
      assert secs * SECOND >= TWO63;
    }
  }

  /** The first value that wraps gives a negative wait. */
  lemma RetryAfterCanBeNegative(maxWait: int)
    requires 0 < maxWait < TWO63
    ensures RetryAfter(429, Some(9_223_372_037), maxWait).value < 0
  {}
}
