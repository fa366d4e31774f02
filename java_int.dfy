/** Java's 32-bit `int`: its range and the two's-complement wrap-around of its
    arithmetic operators. */
module JavaInt {

  const MinInt: int := -0x8000_0000
  const MaxInt: int := 0x7fff_ffff
  /** Number of distinct `int` values; every `int` operation is exact modulo this. */
  const Modulus: int := 0x1_0000_0000

  predicate InRange(x: int) {
    MinInt <= x <= MaxInt
  }

  /** The `int` value a Java `int` expression yields when its exact value is `x`:
      the one value in range that is congruent to `x` modulo 2^32. */
  function Wrap(x: int): (r: int)
    ensures InRange(r)
    ensures (r - x) % Modulus == 0
    ensures InRange(x) ==> r == x
  {
    (x - MinInt) % Modulus + MinInt
  }
}
