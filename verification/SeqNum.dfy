/** 32-bit sequence-number and clock arithmetic of the pseudo-TCP socket.

    A value of the unbounded protocol is an `int`; the C field that carries it holds
    `Wrap` of it.  Every comparison below is computed on the wrapped values only.
 */
module SeqNum {

  const MODULUS: int := 0x1_0000_0000
  const HALF: int := 0x8000_0000

  type u32 = x: int | 0 <= x < MODULUS

  function Wrap(x: int): u32 {
    x % MODULUS
  }

  lemma WrapIsInjective(x: int, y: int)
    requires Wrap(x) == Wrap(y) && -MODULUS < x - y < MODULUS
    ensures x == y
  {
  }

  /** Unsigned 32-bit subtraction of two sequence numbers. */
  function Minus(x: int, y: int): (d: u32)
    ensures 0 <= x - y < MODULUS ==> d == x - y
    ensures Wrap(d + Wrap(y)) == Wrap(x)
  {
    Wrap(Wrap(x) - Wrap(y))
  }

  predicate Larger(x: int, y: int)
    ensures -HALF <= x - y <= HALF - 1 ==> (Larger(x, y) <==> x > y)
  {
    Wrap(Wrap(x) - Wrap(y) - 1) < HALF - 1
  }

  predicate LargerOrEqual(x: int, y: int)
    ensures -HALF - 1 <= x - y <= HALF - 2 ==> (LargerOrEqual(x, y) <==> x >= y)
  {
    Wrap(Wrap(x) - Wrap(y)) < HALF - 1
  }

  predicate Smaller(x: int, y: int)
    ensures 1 - HALF <= x - y <= HALF ==> (Smaller(x, y) <==> x < y)
  {
    Larger(y, x)
  }

  predicate SmallerOrEqual(x: int, y: int)
    ensures 2 - HALF <= x - y <= HALF + 1 ==> (SmallerOrEqual(x, y) <==> x <= y)
  {
    LargerOrEqual(y, x)
  }

  lemma WrapNear(x: int)
    requires -MODULUS <= x < 2 * MODULUS
    ensures Wrap(x) == if x < 0 then x + MODULUS else if x < MODULUS then x else x - MODULUS
  {
  }

  /** A difference of wrapped numbers is the wrapped difference. */
  lemma WrapDifference(x: int, y: int, k: int)
    ensures Wrap(Wrap(x) - Wrap(y) - k) == Wrap(x - y - k)
  {
    var a, b := x / MODULUS, y / MODULUS;
    assert x == a * MODULUS + Wrap(x) && y == b * MODULUS + Wrap(y);
    WrapShift(Wrap(x) - Wrap(y) - k, a - b);
  }

  lemma WrapShift(x: int, n: int)
    ensures Wrap(x + n * MODULUS) == Wrap(x)
  {
  }

  /** The strict comparison agrees with the integer order on exactly this range of true distances. */
  lemma LargerAgreesExactly(x: int, y: int)
    requires -MODULUS < x - y < MODULUS
    ensures (Larger(x, y) <==> x > y) <==> -HALF <= x - y <= HALF - 1
  {
    WrapDifference(x, y, 1);
    WrapNear(x - y - 1);
  }

  lemma LargerOrEqualAgreesExactly(x: int, y: int)
    requires -MODULUS < x - y < MODULUS
    ensures (LargerOrEqual(x, y) <==> x >= y) <==> -HALF - 1 <= x - y <= HALF - 2
  {
    WrapDifference(x, y, 0);
    WrapNear(x - y);
  }

  predicate TimeIsBetween(later: u32, middle: u32, earlier: u32) {
    if earlier <= later then earlier <= middle <= later
    else !(later < middle < earlier)
  }

  /** Conversion of a C `long` to the `gint32` that `time_diff` returns. */
  function ToInt32(x: int): int {
    if Wrap(x) < HALF then Wrap(x) else Wrap(x) - MODULUS
  }

  function TimeDiff(later: u32, earlier: u32): int {
    if TimeIsBetween(Wrap(earlier + HALF), later, earlier) then
      if earlier <= later then ToInt32(Wrap(later - earlier))
      else ToInt32(Wrap(later + (MODULUS - 1 - earlier) + 1))
    else
      if later <= earlier then ToInt32(0 - Wrap(earlier - later))
      else ToInt32(0 - Wrap(earlier + (MODULUS - 1 - later) + 1))
  }

  lemma TimeDiffOfWrapped(later: u32, earlier: u32)
    ensures TimeDiff(later, earlier) == ToInt32(later - earlier)
  {
    WrapNear(earlier + HALF);
    WrapNear(later - earlier);
    WrapNear(earlier - later);
    WrapNear(later + (MODULUS - 1 - earlier) + 1);
    WrapNear(earlier + (MODULUS - 1 - later) + 1);
    WrapNear(Wrap(later - earlier));
    WrapNear(0 - Wrap(earlier - later));
  }

  lemma ToInt32IsCongruent(d: int)
    ensures -HALF <= ToInt32(d) < HALF
    ensures Wrap(ToInt32(d)) == Wrap(d)
    ensures ToInt32(d) == d <==> -HALF <= d < HALF
  {
  }

  /** `time_diff` is the signed representative of the difference: whatever the two true times
      are, the result is congruent to their difference, and equals it within half the range. */
  lemma TimeDiffIsSignedDifference(t: int, e: int)
    ensures var d := TimeDiff(Wrap(t), Wrap(e));
            && -HALF <= d < HALF
            && Wrap(d) == Wrap(t - e)
            && (d == t - e <==> -HALF <= t - e < HALF)
  {
    TimeDiffOfWrapped(Wrap(t), Wrap(e));
    ToInt32OfWrapped(t, e);
    ToInt32IsCongruent(t - e);
  }

  lemma ToInt32OfWrapped(t: int, e: int)
    ensures ToInt32(Wrap(t) - Wrap(e)) == ToInt32(t - e)
  {
  }
}
