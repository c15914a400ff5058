/** The full-jitter backoff of retrystrategy.go, over the signed 64-bit arithmetic it runs on.
    The random draw is an input, so every statement below holds for every generator. */
module Backoff {
  const TWO_62: int := 0x4000_0000_0000_0000
  const TWO_63: int := 0x8000_0000_0000_0000
  const TWO_64: int := 0x1_0000_0000_0000_0000
  const MAX_INT64: int := TWO_63 - 1

  /** 30 seconds, in nanoseconds. */
  const DEFAULT_MAX_BACKOFF: int := 30_000_000_000

  /** The range of a Go int64 and so of a time.Duration. */
  type Int64 = x: int | -0x8000_0000_0000_0000 <= x < 0x8000_0000_0000_0000

  function Pow2(n: nat): (p: int)
    ensures p >= 1
  {
    if n == 0 then 1 else 2 * Pow2(n - 1)
  }

  /** Two's complement reduction: what an int64 product holds after overflow. */
  function Wrap64(x: int): (r: Int64)
    ensures (x - r) % TWO_64 == 0
    ensures -TWO_63 <= x < TWO_63 ==> r == x
  {
    var m := x % TWO_64;
    if m < TWO_63 then m else m - TWO_64
  }

  function EffectiveCeiling(max: Int64): (c: Int64)
    ensures c > 0
  {
    if max <= 0 then DEFAULT_MAX_BACKOFF else max
  }

  /** The local variable exp of FullJitterBackoff: the inclusive upper end of the draw. */
  function JitterCap(base: Int64, max: Int64, attempt: int): Int64 {
    var ceiling := EffectiveCeiling(max);
    if 0 <= attempt < 62 then
      var scaled := Wrap64(base * Pow2(attempt));
      if 0 < scaled < ceiling then scaled else ceiling
    else ceiling
  }

  datatype Delay = Panics | Sleep(nanos: Int64)

  /** rand.Int63n(n): panics when its argument is not positive. */
  function Int63n(n: Int64, draw: nat): Delay {
    if n <= 0 then Panics else Sleep(draw % n)
  }

  function FullJitterBackoff(base: Int64, max: Int64, attempt: int, draw: nat): Delay {
    if base <= 0 then Sleep(0)
    else Int63n(Wrap64(JitterCap(base, max, attempt) + 1), draw)
  }

  /** min(ceiling, base * 2^attempt) over unbounded integers: what the documentation promises. */
  function Promised(base: Int64, max: Int64, attempt: nat): int {
    var product := base * Pow2(attempt);
    if product < EffectiveCeiling(max) then product else EffectiveCeiling(max)
  }

  lemma {:induction false} Pow2Adds(a: nat, b: nat)
    ensures Pow2(a + b) == Pow2(a) * Pow2(b)
  {
    if a > 0 {
      Pow2Adds(a - 1, b);
      assert a + b - 1 == a - 1 + b;
    }
  }

  lemma Pow2Of62()
    ensures Pow2(62) == TWO_62
  {
    assert Pow2(15) == 0x8000 && Pow2(1) == 2;
    Pow2Adds(15, 15);
    Pow2Adds(30, 30);
    Pow2Adds(60, 1);
    Pow2Adds(61, 1);
  }

  /** From attempt 62 on, the true product has passed 2^62. */
  lemma LargeAttempt(base: Int64, attempt: nat)
    requires base > 0 && attempt >= 62
    ensures base * Pow2(attempt) >= TWO_62
  {
    Pow2Of62();
    Pow2Adds(62, attempt - 62);
    var p := Pow2(attempt - 62);
    assert Pow2(attempt) == TWO_62 * p >= TWO_62;
  }

  /** The draw's upper end never exceeds the promised minimum, even when the product wraps, and
      equals it whenever the true product fits in 63 bits. */
  lemma CapIsPromised(base: Int64, max: Int64, attempt: nat)
    requires base > 0 && EffectiveCeiling(max) <= TWO_62
    ensures 0 < JitterCap(base, max, attempt) <= Promised(base, max, attempt)
    ensures base * Pow2(attempt) < TWO_63 ==> JitterCap(base, max, attempt) == Promised(base, max, attempt)
  {
    if attempt >= 62 {
      LargeAttempt(base, attempt);
    }
    assert base * Pow2(attempt) >= 1;
  }

  /** A draw inside the range comes back unchanged. */
  lemma DrawInsideRange(cap: Int64, draw: nat)
    requires draw <= cap < MAX_INT64
    ensures Int63n(Wrap64(cap + 1), draw) == Sleep(draw)
  {
    assert Wrap64(cap + 1) == cap + 1;
    SmallRemainder(draw, cap + 1);
  }

  lemma SmallRemainder(a: nat, n: int)
    requires a < n
    ensures a % n == a
  {
  }

  /** Every draw lands in [0, min(ceiling, base * 2^attempt)] without panicking. */
  lemma BackoffInRange(base: Int64, max: Int64, attempt: nat, draw: nat)
    requires EffectiveCeiling(max) <= TWO_62
    ensures var d := FullJitterBackoff(base, max, attempt, draw);
      d.Sleep? && 0 <= d.nanos && (if base <= 0 then d.nanos == 0 else d.nanos <= Promised(base, max, attempt))
  {
    if base > 0 {
      CapIsPromised(base, max, attempt);
    }
  }

  /** When the true product fits, the jitter spreads over the whole promised range. */
  lemma BackoffReachesEveryDelay(base: Int64, max: Int64, attempt: nat, nanos: nat)
    requires base > 0 && EffectiveCeiling(max) <= TWO_62 && base * Pow2(attempt) < TWO_63
    requires nanos <= Promised(base, max, attempt)
    ensures FullJitterBackoff(base, max, attempt, nanos) == Sleep(nanos)
  {
    CapIsPromised(base, max, attempt);
    DrawInsideRange(JitterCap(base, max, attempt), nanos);
  }

  /** From attempt 62 on, and for negative attempts, the jitter spreads over the whole ceiling: max,
      or 30 seconds when none is given. */
  lemma CeilingInForce(base: Int64, max: Int64, attempt: int, nanos: nat)
    requires base > 0 && max < MAX_INT64 && !(0 <= attempt < 62)
    ensures var ceiling := if max <= 0 then 30_000_000_000 else max;
      && FullJitterBackoff(base, max, attempt, nanos).Sleep?
      && FullJitterBackoff(base, max, attempt, nanos).nanos <= ceiling
      && (nanos <= ceiling ==> FullJitterBackoff(base, max, attempt, nanos) == Sleep(nanos))
  {
    PanicsExactlyAtMaxInt64(base, max, attempt, nanos);
    if nanos <= JitterCap(base, max, attempt) { DrawInsideRange(JitterCap(base, max, attempt), nanos); }
  }

  /** The whole promised range is used, below attempt 62, exactly when the product fits or wraps to
      something outside the ceiling: the overflow check sees only that. */
  lemma RangeIsFullExactlyUnlessWrappedInside(base: Int64, max: Int64, attempt: nat)
    requires base > 0 && EffectiveCeiling(max) <= TWO_62 && attempt < 62
    ensures var product := base * Pow2(attempt);
      JitterCap(base, max, attempt) == Promised(base, max, attempt)
      <==> product < TWO_63 || !(0 < Wrap64(product) < EffectiveCeiling(max))
  {
    CapIsPromised(base, max, attempt);
  }

  /** So it happens: 2^62 + 1 at attempt 2 wraps to 4 nanoseconds. */
  lemma WrappedProductCollapses(max: Int64)
    requires 4 < max <= TWO_62
    ensures JitterCap(TWO_62 + 1, max, 2) == 4 && Promised(TWO_62 + 1, max, 2) == max
  {
    assert Pow2(2) == 4;
    assert Wrap64((TWO_62 + 1) * 4) == 4;
  }

  ghost predicate KeepsPromise(max: Int64) {
    forall base: Int64, attempt: nat, draw: nat | base > 0 ::
      var d := FullJitterBackoff(base, max, attempt, draw);
      d.Sleep? && 0 <= d.nanos <= Promised(base, max, attempt)
  }

  /** The documented range holds for every base, attempt and draw exactly when the effective
      ceiling is at most 2^62 ns: above it the cut-off at attempt 62 lets the ceiling through
      although base * 2^62 is smaller. */
  lemma PromiseKeptExactlyUpTo2To62(max: Int64)
    ensures KeepsPromise(max) <==> EffectiveCeiling(max) <= TWO_62
  {
    if EffectiveCeiling(max) <= TWO_62 {
      forall base: Int64, attempt: nat, draw: nat | base > 0
        ensures var d := FullJitterBackoff(base, max, attempt, draw);
          d.Sleep? && 0 <= d.nanos <= Promised(base, max, attempt)
      {
        BackoffInRange(base, max, attempt, draw);
      }
    } else {
      PromiseBrokenAbove2To62(max);
    }
  }

  /** Base 1 at attempt 62 with a ceiling above 2^62: the draw max is over the promised 2^62. */
  lemma PromiseBrokenAbove2To62(max: Int64)
    requires max > TWO_62
    ensures Promised(1, max, 62) == TWO_62
    ensures FullJitterBackoff(1, max, 62, max) == if max < MAX_INT64 then Sleep(max) else Panics
  {
    Pow2Of62();
    var cap := JitterCap(1, max, 62);
    assert cap == max;
    if max < MAX_INT64 {
      DrawInsideRange(cap, max);
    }
  }

  /** rand.Int63n panics for exactly one upper end, the largest int64, whose successor wraps. */
  lemma PanicsExactlyAtMaxInt64(base: Int64, max: Int64, attempt: int, draw: nat)
    requires base > 0
    ensures FullJitterBackoff(base, max, attempt, draw).Panics? <==> JitterCap(base, max, attempt) == MAX_INT64
    ensures JitterCap(base, max, attempt) == MAX_INT64 ==> max == MAX_INT64
  {
    var cap := JitterCap(base, max, attempt);
    assert 0 < cap <= EffectiveCeiling(max);
    if cap == MAX_INT64 {
      assert Wrap64(cap + 1) == -TWO_63;
    } else {
      assert Wrap64(cap + 1) == cap + 1;
    }
  }
}
