/**
  Time as the pipeline uses it: integer nanoseconds since Go's zero time, so that 0 is the
  zero `time.Time`, together with the truncation to whole seconds that the scanner relies on.
 */
module Instants {

  const SECOND: int := 1_000_000_000
  const HOUR: int := 3_600_000_000_000

  predicate Aligned(t: int) {
    t % SECOND == 0
  }

  /** `t.Truncate(time.Second)`: the last whole second not after `t`. */
  function Truncate(t: int): (r: int)
    ensures r <= t < r + SECOND && Aligned(r)
  {
    t - t % SECOND
  }

  /** `t.Add(time.Second - time.Nanosecond).Truncate(time.Second)`: the first whole second not before `t`. */
  function RoundUp(t: int): (r: int)
    ensures r - SECOND < t <= r && Aligned(r)
  {
    Truncate(t + SECOND - 1)
  }

  /** The least k with n <= 2^k (0 for n <= 1). */
  function CeilLog2(n: int): (k: nat)
    decreases n
  {
    if n <= 1 then 0 else 1 + CeilLog2((n + 1) / 2)
  }

  lemma {:induction false} CeilLog2Monotone(m: int, n: int)
    requires m <= n
    ensures CeilLog2(m) <= CeilLog2(n)
    decreases n
  {
    if m > 1 {
      CeilLog2Monotone((m + 1) / 2, (n + 1) / 2);
    }
  }

  function Pow2(k: nat): int {
    if k == 0 then 1 else 2 * Pow2(k - 1)
  }

  lemma {:induction false} CeilLog2Bound(n: int, k: nat)
    requires n <= Pow2(k)
    ensures CeilLog2(n) <= k
    decreases k
  {
    if n > 1 {
      CeilLog2Bound((n + 1) / 2, k - 1);
    }
  }

  lemma TwoToThe22()
    ensures Pow2(22) == 4_194_304
  {
    assert Pow2(8) == 256;
    assert Pow2(15) == 32_768;
  }
}
