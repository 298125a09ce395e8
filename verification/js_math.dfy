/** JavaScript number operators the widget relies on, restated over unbounded integers. */
module JsMath {

  /** JavaScript's `a % b` for a positive divisor: the quotient is truncated
      toward zero, so the remainder takes the sign of the dividend, where
      Dafny's `%` is Euclidean and never negative. */
  function Rem(a: int, b: int): (r: int)
    requires b > 0
    ensures a >= 0 ==> 0 <= r < b
    ensures a < 0 ==> -b < r <= 0
    ensures r == a % b || r == a % b - b
  {
    if a >= 0 then a % b
    else if a % b == 0 then 0
    else a % b - b
  }

  /** `n % d === 0` in JavaScript: false when `d` is 0 (the remainder is NaN),
      otherwise true exactly when `d` divides `n`, whatever the signs. */
  predicate Divides(d: int, n: int)
  {
    d != 0 && n % d == 0
  }

}
