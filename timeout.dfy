/**
 * The poll timeout of the consume loop. As written it is
 * `Integer.max(10 ^ (idleCount + 1), 5000)`: on Java ints `^` is exclusive
 * or, not a power, and `+` wraps. The evident intent is a back-off that
 * grows tenfold with every empty poll from a floor of 5000 ms.
 */
module PollBackoff {
  import Int32

  /** The timeout as written: exclusive or on 32-bit ints, then the 5000 ms floor. */
  function PollTimeoutAsWritten(idleCount: bv32): (ms: bv32)
    ensures 5000 <= ms < 0x8000_0000
  {
    var x := 10 ^ (idleCount + 1);
    if x < 0x8000_0000 && x > 5000 then x else 5000
  }

  /**
   * The exclusive or only flips low bits, so for the first 4095 empty polls
   * in a row the written timeout does not back off at all.
   */
  lemma PollTimeoutAsWrittenFlat(idleCount: bv32)
    requires idleCount < 4095
    ensures PollTimeoutAsWritten(idleCount) == 5000
  {
  }

  /** Once it leaves 5000 the written timeout grows at most linearly: never above idleCount + 11. */
  lemma PollTimeoutAsWrittenLinear(idleCount: bv32)
    requires idleCount <= 0x7FFF_FFF0
    ensures PollTimeoutAsWritten(idleCount) == 5000 || PollTimeoutAsWritten(idleCount) <= idleCount + 11
  {
  }

  function Pow10(n: nat): (p: nat)
    ensures p >= 1
  {
    if n == 0 then 1 else 10 * Pow10(n - 1)
  }

  lemma {:induction false} Pow10Monotone(m: nat, n: nat)
    requires m <= n
    ensures Pow10(m) <= Pow10(n)
    decreases n
  {
    if m < n {
      Pow10Monotone(m, n - 1);
    }
  }

  /**
   * The intended timeout: 10 to the power idleCount + 1 (saturating at the
   * largest int, as a cast of a power computed in floating point does),
   * never below 5000 ms.
   */
  function PollTimeout(idleCount: nat): (ms: int)
    ensures 5000 <= ms <= Int32.MAX
  {
    var p := Pow10(idleCount + 1);
    if p > Int32.MAX then Int32.MAX else if p < 5000 then 5000 else p
  }

  /** The intended timeout never shrinks as empty polls accumulate. */
  lemma PollTimeoutMonotone(i: nat, j: nat)
    requires i <= j
    ensures PollTimeout(i) <= PollTimeout(j)
  {
    Pow10Monotone(i + 1, j + 1);
  }

  /**
   * The intended back-off: the floor for the first three polls, then 10 s,
   * 100 s, and tenfold per empty poll until the largest int.
   */
  lemma PollTimeoutBacksOff(idleCount: nat)
    ensures idleCount <= 2 ==> PollTimeout(idleCount) == 5000
    ensures 3 <= idleCount <= 8 ==> PollTimeout(idleCount) == Pow10(idleCount + 1)
    ensures idleCount >= 9 ==> PollTimeout(idleCount) == Int32.MAX
  {
    assert Pow10(3) == 1000;
    assert Pow10(9) == 1_000_000_000;
    assert Pow10(10) == 10_000_000_000;
    if idleCount <= 2 {
      Pow10Monotone(idleCount + 1, 3);
    } else if idleCount <= 8 {
      Pow10Monotone(4, idleCount + 1);
      Pow10Monotone(idleCount + 1, 9);
    } else {
      Pow10Monotone(10, idleCount + 1);
    }
  }

  /** After three empty polls the written timeout is still 5000 ms where a back-off gives 10000 ms. */
  lemma PollTimeoutDiffers()
    ensures PollTimeoutAsWritten(3) == 5000
    ensures PollTimeout(3) == 10000
  {
    PollTimeoutBacksOff(3);
  }
}
