/** The capped exponential backoff of the maintenance runner, on signed 64-bit durations. */
module Backoff {
  import opened Wrappers

  const TWO_TO_THE_62: int := 0x4000_0000_0000_0000
  const TWO_TO_THE_63: int := 0x8000_0000_0000_0000
  const TWO_TO_THE_64: int := 0x1_0000_0000_0000_0000

  /** The duration a signed 64-bit multiplication stores. */
  function Wrap64(x: int): int {
    (x + TWO_TO_THE_63) % TWO_TO_THE_64 - TWO_TO_THE_63
  }

  /** What the constructor checks of the two bounds, both 64-bit durations. */
  predicate ValidBounds(base: int, max: int) {
    0 < base <= max < TWO_TO_THE_63
  }

  /** base * 2^k. */
  function Doubled(base: int, k: nat): int {
    if k == 0 then base else 2 * Doubled(base, k - 1)
  }

  /** What the doubling loop returns from d with `steps` doublings to go. */
  function CappedRun(d: int, steps: nat, max: int): int
    decreases steps
  {
    if steps == 0 then Min(d, max)
    else if d >= max then max
    else CappedRun(Wrap64(2 * d), steps - 1, max)
  }

  function Steps(failures: int): nat {
    if failures < 1 then 0 else failures - 1
  }

  method BackoffFor(failures: int, base: int, max: int) returns (delay: int)
    requires ValidBounds(base, max)
    ensures delay == CappedRun(base, Steps(failures), max)
  {
    var n := failures;
    if n < 1 {
      n := 1;
    }
    var d := base;
    var i := 1;
    while i < n
      invariant 1 <= i <= n
      invariant CappedRun(d, n - i, max) == CappedRun(base, n - 1, max)
    {
      if d >= max {
        return max;
      }
      d := Wrap64(d * 2);
      i := i + 1;
    }
    if d > max {
      return max;
    }
    return d;
  }

  /** The documented value: min(max, base * 2^(n-1)) with n at least 1. */
  function Documented(base: int, failures: int, max: int): int {
    Min(max, Doubled(base, Steps(failures)))
  }

  /** No value the loop doubles lies in the upper half of the 64-bit range. */
  ghost predicate NeverOverflows(base: int, max: int) {
    forall k: nat :: !(TWO_TO_THE_62 <= Doubled(base, k) < max)
  }

  lemma {:induction false} DoubledGrows(base: int, j: nat, k: nat)
    requires 0 < base && j <= k
    ensures 0 < Doubled(base, j) <= Doubled(base, k)
    ensures j < k ==> 2 * Doubled(base, j) <= Doubled(base, k)
    decreases k
  {
    if j < k {
      DoubledGrows(base, j, k - 1);
    } else if k > 0 {
      DoubledGrows(base, j - 1, k - 1);
    }
  }

  lemma WrapSmall(x: int)
    requires -TWO_TO_THE_63 <= x < TWO_TO_THE_63
    ensures Wrap64(x) == x
  {
  }

  lemma {:induction false} RunIsDocumented(base: int, max: int, j: nat, steps: nat)
    requires ValidBounds(base, max) && NeverOverflows(base, max)
    ensures CappedRun(Doubled(base, j), steps, max) == Min(max, Doubled(base, j + steps))
    decreases steps
  {
    DoubledGrows(base, j, j + steps);
    if steps > 0 && Doubled(base, j) < max {
      DoubledGrows(base, 0, j);
      WrapSmall(2 * Doubled(base, j));
      assert Doubled(base, j + 1) == 2 * Doubled(base, j);
      RunIsDocumented(base, max, j + 1, steps - 1);
    }
  }

  /** The loop reaches base * 2^k unharmed as long as that value is a representable one below the cap. */
  lemma {:induction false} RunReaches(base: int, max: int, j: nat, k: nat, steps: nat)
    requires ValidBounds(base, max) && j <= k <= j + steps && Doubled(base, k) < max
    ensures CappedRun(Doubled(base, j), steps, max) == CappedRun(Doubled(base, k), j + steps - k, max)
    decreases k - j
  {
    DoubledGrows(base, j, k);
    if j < k {
      WrapSmall(2 * Doubled(base, j));
      assert Doubled(base, j + 1) == 2 * Doubled(base, j);
      RunReaches(base, max, j + 1, k, steps - 1);
    }
  }

  /**
    For given bounds the loop returns the documented value for every failure count iff no doubled
    value below the cap reaches 2^62; otherwise some failure count gets a negative delay.
  */
  lemma {:induction false} BackoffExact(base: int, max: int)
    requires ValidBounds(base, max)
    ensures (forall failures :: CappedRun(base, Steps(failures), max) == Documented(base, failures, max))
       <==> NeverOverflows(base, max)
    ensures !NeverOverflows(base, max) ==> exists failures :: CappedRun(base, Steps(failures), max) < 0
  {
    if NeverOverflows(base, max) {
      forall failures ensures CappedRun(base, Steps(failures), max) == Documented(base, failures, max) {
        RunIsDocumented(base, max, 0, Steps(failures));
      }
    } else {
      var k: nat :| TWO_TO_THE_62 <= Doubled(base, k) < max;
      OverflowedDelay(base, max, k);
    }
  }

  lemma {:induction false} OverflowedDelay(base: int, max: int, k: nat)
    requires ValidBounds(base, max) && TWO_TO_THE_62 <= Doubled(base, k) < max
    ensures CappedRun(base, Steps(k + 2), max) < 0 < Documented(base, k + 2, max)
  {
    var d := Doubled(base, k);
    RunReaches(base, max, 0, k, k + 1);
    assert Wrap64(2 * d) == 2 * d - TWO_TO_THE_64;
    assert CappedRun(d, 1, max) == CappedRun(Wrap64(2 * d), 0, max);
    DoubledGrows(base, 0, k + 1);
  }

  /** A cap of at most 2^62 nanoseconds (over a century) rules every overflow out. */
  lemma {:induction false} SmallCapNeverOverflows(base: int, max: int)
    requires ValidBounds(base, max) && max <= TWO_TO_THE_62
    ensures NeverOverflows(base, max)
    ensures forall failures :: CappedRun(base, Steps(failures), max) == Documented(base, failures, max)
  {
    BackoffExact(base, max);
  }

  /** More failures never shorten the documented delay, and it stays within [base, max]. */
  lemma {:induction false} DelayMonotone(base: int, max: int, m: int, n: int)
    requires ValidBounds(base, max) && m <= n
    ensures base <= Documented(base, m, max) <= Documented(base, n, max) <= max
  {
    DoubledGrows(base, 0, Steps(m));
    DoubledGrows(base, Steps(m), Steps(n));
  }
}
