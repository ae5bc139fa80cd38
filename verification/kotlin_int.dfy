/**
 Kotlin's integer division and remainder on `Int`/`Long` truncate toward zero,
 while Dafny's `/` and `%` are Euclidean. This module defines the Kotlin
 operators for a positive divisor (the only kind the date helpers use) and
 relates them to Dafny's.
 */
module KotlinInt {

  /** `abs` from kotlin.math, on unbounded integers. */
  function Abs(x: int): (r: nat)
    ensures r == x || r == -x
  {
    if x < 0 then -x else x
  }

  /** Kotlin `a / b` for `b > 0`: the quotient rounded toward zero. */
  function TruncDiv(a: int, b: int): (q: int)
    requires b > 0
    ensures a >= 0 ==> q == a / b
    ensures a >= 0 ==> 0 <= q * b <= a < q * b + b
    ensures a < 0 ==> q * b - b < a <= q * b <= 0
  {
    DivBounds(if a >= 0 then a else -a, b);
    if a >= 0 then a / b else -((-a) / b)
  }

  /** Euclidean division of a non-negative dividend brackets it between multiples. */
  lemma DivBounds(a: int, b: int)
    requires a >= 0 && b > 0
    ensures 0 <= (a / b) * b <= a < (a / b) * b + b
  {
    assert a == (a / b) * b + a % b;
    assert 0 <= a % b < b;
    assert a / b >= 0;
  }

  /** Kotlin `a % b` for `b > 0`: the remainder takes the sign of `a`. */
  function TruncRem(a: int, b: int): (r: int)
    requires b > 0
    ensures a == TruncDiv(a, b) * b + r
    ensures a >= 0 ==> 0 <= r < b && r == a % b
    ensures a < 0 ==> -b < r <= 0
  {
    a - TruncDiv(a, b) * b
  }
}
