// Integer helpers that mirror the java.lang.Math calls the peak picker makes.

module JavaMath {

  /** Java's `Math.round(double)` followed by an `(int)` cast: the closest
      integer, ties rounded towards positive infinity. The cast is assumed not
      to truncate (all arguments here are scales or sample indices). */
  function Round(x: real): (r: int)
    ensures r as real - 0.5 <= x < r as real + 0.5
  {
    (x + 0.5).Floor
  }

  /** Java's `Math.abs(int)`, ignoring the overflow at Integer.MIN_VALUE. */
  function Abs(x: int): (r: int)
    ensures r >= 0
    ensures r == x || r == -x
  {
    if x < 0 then -x else x
  }

  function Min(a: int, b: int): (r: int)
    ensures r <= a && r <= b
    ensures r == a || r == b
  {
    if a <= b then a else b
  }

  function Max(a: int, b: int): (r: int)
    ensures r >= a && r >= b
    ensures r == a || r == b
  {
    if a >= b then a else b
  }
}
