/**
 * Java's 32-bit `int` arithmetic as the consume loop's counters see it:
 * `++` wraps from the largest int to the smallest.
 */
module Int32 {

  const MODULUS: int := 0x1_0000_0000
  const MIN: int := -0x8000_0000
  const MAX: int := 0x7FFF_FFFF

  predicate InRange(x: int)
  {
    MIN <= x <= MAX
  }

  /** The Java int that x denotes: x reduced modulo 2^32 into [MIN, MAX]. */
  function Wrap(x: int): (r: int)
    ensures InRange(r)
    ensures (x - r) % MODULUS == 0
    ensures InRange(x) ==> r == x
  {
    var u := x % MODULUS;
    if u > MAX then u - MODULUS else u
  }

  /** `n++` on a Java int, as the consume loop writes its record counter. */
  function IncrementAsWritten(n: int): (r: int)
    requires InRange(n)
    ensures InRange(r)
    ensures n < MAX ==> r == n + 1
    ensures n == MAX ==> r == MIN
  {
    Wrap(n + 1)
  }

  /** Once the counter holds MAX, one more record makes it fall to MIN. */
  lemma IncrementAsWrittenDecreases()
    ensures IncrementAsWritten(MAX) < MAX
    ensures IncrementAsWritten(MAX) == MIN
  {
  }
}
