/*
 * The pieces of Java's semantics that the grid's arithmetic depends on:
 * null references, truncating integer division and Math.abs on 32-bit ints.
 */
module JavaLang {

  /** A reference that may be null (`None`). */
  datatype Option<T> = None | Some(value: T)

  const INT_MIN: int := -0x8000_0000
  const INT_MAX: int := 0x7fff_ffff
  const LONG_MIN: int := -0x8000_0000_0000_0000
  const LONG_MAX: int := 0x7fff_ffff_ffff_ffff

  predicate IsInt(x: int) { INT_MIN <= x <= INT_MAX }
  predicate IsLong(x: int) { LONG_MIN <= x <= LONG_MAX }

  function Min(a: int, b: int): int { if a <= b then a else b }
  function Max(a: int, b: int): int { if a >= b then a else b }

  function Abs(x: int): nat { if x < 0 then -x else x }

  /**
   * Java's `a / b` on integers: the quotient truncated toward zero.
   * Its remainder is smaller than the divisor and carries the dividend's sign.
   */
  function JDiv(a: int, b: int): (q: int)
    requires b != 0
    ensures Abs(a - b * q) < Abs(b)
    ensures a >= 0 ==> a - b * q >= 0
    ensures a <= 0 ==> a - b * q <= 0
  {
    if a >= 0 then
      (if b > 0 then a / b else -(a / -b))
    else
      (if b > 0 then -((-a) / b) else (-a) / (-b))
  }

  /** Java's `a % b` on integers: the remainder of the truncating division. */
  function JRem(a: int, b: int): (r: int)
    requires b != 0
    ensures a == b * JDiv(a, b) + r
    ensures Abs(r) < Abs(b)
    ensures a >= 0 ==> r >= 0
    ensures a <= 0 ==> r <= 0
  {
    a - b * JDiv(a, b)
  }

  /** Java's `Math.abs(int)`: the one value without a positive counterpart stays negative. */
  function JAbs(x: int): (r: int)
    requires IsInt(x)
    ensures x != INT_MIN ==> r == Abs(x)
    ensures x == INT_MIN ==> r < 0
  {
    if x >= 0 then x else if x == INT_MIN then INT_MIN else -x
  }

  /** For a non-negative dividend and a positive divisor Java and Dafny agree. */
  lemma JDivNonNegative(a: int, b: int)
    requires a >= 0 && b > 0
    ensures JDiv(a, b) == a / b && JRem(a, b) == a % b
  {
  }
}
