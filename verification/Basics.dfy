/** Shared vocabulary: optional values and the time unit of the whole model. */
module Basics {

  datatype Option<+T> = None | Some(value: T)

  /** All times and durations are integers in nanoseconds, as in Go's time.Duration. */
  const SECOND: int := 1_000_000_000

  const MILLISECOND: int := 1_000_000

  lemma MulMonotone(a: nat, b: nat, c: nat)
    requires a <= b
    ensures a * c <= b * c
  {
  }

  const TWO63: int := 0x8000_0000_0000_0000
  const TWO64: int := 0x1_0000_0000_0000_0000

  /** The value of x in a 64-bit signed integer. */
  function Wrap64(x: int): int {
    (x + TWO63) % TWO64 - TWO63
  }

  function Pow2(n: nat): (p: nat)
    ensures 0 < p
  {
    if n == 0 then 1 else 2 * Pow2(n - 1)
  }

  lemma {:induction false} Pow2Sum(a: nat, b: nat)
    ensures Pow2(a + b) == Pow2(a) * Pow2(b)
  {
    if a > 0 {
      Pow2Sum(a - 1, b);
    }
  }
}
