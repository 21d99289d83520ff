/**
 * Java's 64-bit `long` arithmetic. Sums of `long` values wrap around modulo 2^64;
 * the model computes with unbounded integers and applies `Long` where Java stores
 * the result of an addition back into a `long` variable.
 */
module JavaLong {
  const TWO_TO_63: int := 0x8000_0000_0000_0000
  const TWO_TO_64: int := 0x1_0000_0000_0000_0000

  predicate InLongRange(x: int) {
    -TWO_TO_63 <= x < TWO_TO_63
  }

  /** The `long` that Java stores for the mathematical value x (two's-complement wrap). */
  function Long(x: int): (r: int)
    ensures InLongRange(r)
    ensures (r - x) % TWO_TO_64 == 0
  {
    (x + TWO_TO_63) % TWO_TO_64 - TWO_TO_63
  }

  /** A value that already fits in a `long` is stored unchanged. */
  lemma LongExact(x: int)
    requires InLongRange(x)
    ensures Long(x) == x
  {
  }

  /** Wrapping an intermediate sum does not change the wrapped final sum. */
  lemma LongAddAbsorbs(a: int, b: int)
    ensures Long(Long(a) + b) == Long(a + b)
  {
  }
}
