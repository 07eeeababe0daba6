/** Retry delays of the poll loop (`listener.go`, `backoffBase` and `equalJitter`),
    on 64-bit durations: every intermediate result is checked to fit. */
module Backoff {

  newtype int64 = x: int | -0x8000_0000_0000_0000 <= x < 0x8000_0000_0000_0000

  const MAX_INT64: int := 0x7FFF_FFFF_FFFF_FFFF

  /** What `validate` guarantees of the two bounds. */
  predicate ValidBounds(initial: int64, max: int64) {
    0 < initial <= max
  }

  function Pow2(n: nat): (p: nat)
    ensures p >= 1
  {
    if n == 0 then 1 else 2 * Pow2(n - 1)
  }

  function Min(a: int, b: int): int {
    if a < b then a else b
  }

  /** The delay after a number of failures, without any cap on the arithmetic. */
  function Delay(initial: int, max: int, failures: int): int {
    Min(initial * Pow2(if failures > 1 then failures - 1 else 0), max)
  }

  /** Doubling stops before it could pass the maximum, hence never overflows. */
  method BackoffBase(initial: int64, max: int64, failures: int) returns (delay: int64)
    requires ValidBounds(initial, max)
    ensures delay as int == Delay(initial as int, max as int, failures)
  {
    delay := initial;
    var i := 1;
    while i < failures
      invariant i == 1 || 1 <= i <= failures
      invariant delay as int == initial as int * Pow2(i - 1)
      invariant 0 < delay <= max
    {
      if delay >= max - delay {
        PowMonotone(initial as int, i, failures - 1);
        return max;
      }
      delay := delay * 2;
      i := i + 1;
    }
    return if delay < max then delay else max;
  }

  lemma {:induction false} PowMonotone(initial: int, m: nat, n: nat)
    requires initial > 0 && m <= n
    ensures initial * Pow2(m) <= initial * Pow2(n)
    decreases n - m
  {
    if m < n {
      PowMonotone(initial, m + 1, n);
      assert Pow2(m + 1) == 2 * Pow2(m);
    }
  }

  /** More failures never mean a shorter base delay, and none exceeds the maximum. */
  lemma DelayMonotone(initial: int, max: int, m: int, n: int)
    requires 0 < initial <= max && m <= n
    ensures initial <= Delay(initial, max, m) <= Delay(initial, max, n) <= max
  {
    PowMonotone(initial, 0, if m > 1 then m - 1 else 0);
    PowMonotone(initial, if m > 1 then m - 1 else 0, if n > 1 then n - 1 else 0);
  }

  /** The same delay, one failure after the other. */
  function Doubled(initial: int, max: int, failures: int): int {
    if failures <= 1 then Min(initial, max) else Min(2 * Doubled(initial, max, failures - 1), max)
  }

  lemma {:induction false} DoubledIsDelay(initial: int, max: int, failures: int)
    requires 0 < initial <= max
    ensures Doubled(initial, max, failures) == Delay(initial, max, failures)
    ensures initial <= Doubled(initial, max, failures) <= max
    decreases if failures > 1 then failures else 0
  {
    if failures > 1 {
      DoubledIsDelay(initial, max, failures - 1);
      var before := initial * Pow2(failures - 2);
      assert initial * Pow2(failures - 1) == 2 * before by { assert Pow2(failures - 1) == 2 * Pow2(failures - 2); }
      assert Doubled(initial, max, failures - 1) == Min(before, max);
    } else {
      assert Pow2(0) == 1;
    }
  }

  /** The possible results of `equalJitter`. */
  predicate Jittered(d: int, result: int) {
    if d <= 1 then result == d else d / 2 <= result <= d
  }

  /** `equalJitter` on a draw r of `rand.Int64N(d - half + 1)`. */
  method EqualJitter(d: int64, r: int64) returns (delay: int64)
    requires d > 1 ==> 0 <= r <= d - d / 2
    ensures Jittered(d as int, delay as int)
    ensures d > 1 ==> delay - d / 2 == r
  {
    if d <= 1 {
      return d;
    }
    var half := d / 2;
    delay := half + r;
  }

  /** Whatever the two draws, the second delay is not the shorter one. */
  ghost predicate NeverShrinks(d: int, next: int) {
    forall r, r' :: Jittered(d, r) && Jittered(next, r') ==> r <= r'
  }

  lemma OrderedDraws(d: int, next: int)
    requires 1 <= d && 1 <= next
    ensures NeverShrinks(d, next) <==> d == next == 1 || 2 * d <= next
  {
    assert Jittered(d, d) && Jittered(next, if next == 1 then 1 else next / 2);
  }

  /** Near the cap the second draw can be the smaller: a delay of 3 under a cap of 5. */
  lemma DrawsCanShrink()
    ensures Delay(3, 5, 1) == 3 && Delay(3, 5, 2) == 5
    ensures Jittered(3, 3) && Jittered(5, 2) && !NeverShrinks(Delay(3, 5, 1), Delay(3, 5, 2))
  {
    assert Pow2(0) == 1 && Pow2(1) == 2;
    assert Jittered(3, 3) && Jittered(5, 2);
  }

  /** Jittered delays are sure to grow exactly until the cap cuts in: once the
      doubled delay would pass the maximum, the next draw can be the smaller. */
  lemma GrowthUntilCap(initial: int, max: int, failures: nat)
    requires 0 < initial <= max && failures >= 1
    ensures NeverShrinks(Delay(initial, max, failures), Delay(initial, max, failures + 1)) <==>
            initial * Pow2(failures) <= max || max == 1
  {
    var p, q := initial * Pow2(failures - 1), initial * Pow2(failures);
    assert q == 2 * p by { assert Pow2(failures) == 2 * Pow2(failures - 1); }
    PowMonotone(initial, 0, failures - 1);
    OrderedDraws(Min(p, max), Min(q, max));
  }
}
