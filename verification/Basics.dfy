/** An optional value, the smaller of two numbers, and when a number is a remainder. */
module Basics {
  datatype Option<T> = None | Some(value: T)

  function Min(a: nat, b: nat): nat {
    if a < b then a else b
  }

  /** Quotient and remainder are unique. */
  lemma RemainderUnique(a: int, q: int, r: int, m: int)
    requires m > 0 && a == q * m + r && 0 <= r < m
    ensures a % m == r && a / m == q
  {
    var d := a / m - q;
    assert d * m == r - a % m;
    assert d >= 1 ==> d * m >= m;
    assert d <= -1 ==> d * m <= -m;
  }
}
