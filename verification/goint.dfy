/**
  Go's 64-bit integers: the int64 range and two's-complement wrap-around.
  Go's int is taken to be 64 bits wide as well, as on the platforms the
  tool is built for.
 */
module GoInt {
  const MinInt64: int := -0x8000_0000_0000_0000
  const MaxInt64: int := 0x7FFF_FFFF_FFFF_FFFF
  const Modulus64: int := 0x1_0000_0000_0000_0000

  /** Go's int64. */
  type Int64 = x: int | -0x8000_0000_0000_0000 <= x <= 0x7FFF_FFFF_FFFF_FFFF

  /** Two's-complement wrap-around of an integer into int64. */
  function Wrap64(x: int): (r: Int64)
    ensures (r - x) % Modulus64 == 0
    ensures MinInt64 <= x <= MaxInt64 ==> r == x
  {
    (x - MinInt64) % Modulus64 + MinInt64
  }

  /** Adding to an already wrapped value wraps like adding to the exact one. */
  lemma WrapAdd(a: int, b: int)
    ensures Wrap64(Wrap64(a) + b) == Wrap64(a + b)
  {

  }
}
