/** Modular arithmetic: the extended Euclid of `mod_inverse`, and the modular powers of Diffie-Hellman. */
module ModArith {
  import opened Basics

  function Gcd(a: nat, b: nat): nat
    decreases b
  {
    if b == 0 then a else Gcd(b, a % b)
  }

  ghost predicate Divides(d: int, n: int) {
    exists k :: n == d * k
  }

  function Abs(x: int): nat {
    if x < 0 then -x else x
  }

  predicate Opposite(a: int, b: int) {
    a <= 0 <= b || b <= 0 <= a
  }

  // ---- mod_inverse ----

  /** The two rows the loop keeps: each remainder is a combination of m and x. */
  ghost predicate Rows(u1: int, u2: int, u3: int, v1: int, v2: int, v3: int, m: int, x: int) {
    u1 * m + u2 * x == u3 && v1 * m + v2 * x == v3
  }

  /** The coefficients of x alternate in sign and their cross sum stays m, which bounds them. */
  ghost predicate Balanced(u2: int, u3: int, v2: int, v3: int, m: int) {
    && u3 >= 1 && v3 >= 0 && (v3 > 0 ==> u3 >= 2)
    && Opposite(u2, v2) && Abs(u2) * v3 + Abs(v2) * u3 == m
    && 2 * Abs(u2) <= m
  }

  /**
   * For every modulus of at least 2 and every positive x the result lies in [0, m) and takes x to gcd(m, x)
   * modulo m, so it is the inverse of x exactly when the two are coprime; any other x yields 0.
   */
  method ModInverse(x: int, m: int) returns (r: int)
    ensures x <= 0 ==> r == 0
    ensures x >= 1 && m >= 2 ==> 0 <= r < m && (r * x) % m == Gcd(m, x) % m
    ensures x >= 1 && m >= 2 && Gcd(m, x) == 1 ==> 1 <= r && (r * x) % m == 1
  {
    var u1, u2, u3 := 1, 0, m;
    var v1, v2, v3 := 0, 1, x;
    ghost var normal := x >= 1 && m >= 2;
    while v3 > 0
      invariant Rows(u1, u2, u3, v1, v2, v3, m, x)
      invariant x <= 0 ==> u2 == 0 && v3 == x
      invariant normal ==> Balanced(u2, u3, v2, v3, m) && Gcd(u3, v3) == Gcd(m, x)
      decreases v3
    {
      var q := u3 / v3;
      EuclidStep(u1, u2, u3, v1, v2, v3, m, x);
      u1, v1 := v1, u1 - v1 * q;
      u2, v2 := v2, u2 - v2 * q;
      u3, v3 := v3, u3 - v3 * q;
    }
    r := u2;
    if r < 0 {
      r := r + m;
    }
    if normal {
      Congruent(u1, u2, u3, m, x);
      InverseOfCoprime(r, x, m);
    }
  }

  lemma InverseOfCoprime(r: int, x: int, m: int)
    requires m >= 2
    ensures 1 % m == 1
    ensures (r * x) % m == 1 ==> r != 0
  {
    RemainderUnique(1, 0, 1, m);
    RemainderUnique(0, 0, 0, m);
    assert r == 0 ==> r * x == 0;
  }

  lemma EuclidStep(u1: int, u2: int, u3: int, v1: int, v2: int, v3: int, m: int, x: int)
    requires v3 > 0 && Rows(u1, u2, u3, v1, v2, v3, m, x)
    ensures var q := u3 / v3;
            && Rows(v1, v2, v3, u1 - v1 * q, u2 - v2 * q, u3 - v3 * q, m, x)
            && 0 <= u3 - v3 * q < v3
            && (Balanced(u2, u3, v2, v3, m) ==>
                  && Balanced(v2, v3, u2 - v2 * q, u3 - v3 * q, m)
                  && Gcd(v3, u3 - v3 * q) == Gcd(u3, v3))
  {
    var q := u3 / v3;
    RemainderStep(u3, v3);
    LinearStep(u1, u2, u3, v1, v2, v3, q, m, x);
    if Balanced(u2, u3, v2, v3, m) {
      BalanceStep(u2, u3, v2, v3, m);
    }
  }

  lemma RemainderStep(u: int, v: int)
    requires v > 0
    ensures u - v * (u / v) == u % v
  {
  }

  lemma LinearStep(u1: int, u2: int, u3: int, v1: int, v2: int, v3: int, q: int, m: int, x: int)
    requires u1 * m + u2 * x == u3 && v1 * m + v2 * x == v3
    ensures (u1 - v1 * q) * m + (u2 - v2 * q) * x == u3 - v3 * q
  {
    calc {
      (u1 - v1 * q) * m + (u2 - v2 * q) * x;
      (u1 * m + u2 * x) - q * (v1 * m + v2 * x);
    }
  }

  lemma CrossSum(a: int, b: int, u: int, v: int, q: int)
    ensures b * (u - v * q) + (a + b * q) * v == a * v + b * u
  {
    calc {
      b * (u - v * q) + (a + b * q) * v;
      b * u - b * (v * q) + (a * v + b * q * v);
      { assert b * (v * q) == b * q * v; }
      a * v + b * u;
    }
  }

  lemma AbsOfDifference(u: int, v: int, q: nat)
    requires Opposite(u, v)
    ensures Opposite(v, u - v * q)
    ensures Abs(u - v * q) == Abs(u) + Abs(v) * q
  {
    if v >= 0 {
      assert v * q >= 0;
    } else {
      assert (-v) * q >= 0;
      assert (-v) * q == -(v * q);
    }
  }

  lemma BalanceStep(u2: int, u3: int, v2: int, v3: int, m: int)
    requires v3 >= 1 && Balanced(u2, u3, v2, v3, m)
    ensures Balanced(v2, v3, u2 - v2 * (u3 / v3), u3 - v3 * (u3 / v3), m)
  {
    var q := u3 / v3;
    AbsOfDifference(u2, v2, q);
    CrossSum(Abs(u2), Abs(v2), u3, v3, q);
    MulGrows(Abs(u2), v3, Abs(v2), u3);
    RemainderStep(u3, v3);
  }

  lemma MulGrows(a: nat, v: nat, b: nat, u: nat)
    requires u >= 2
    ensures 2 * b <= a * v + b * u
  {
    assert b * u >= b * 2;
    assert a * v >= 0;
  }

  lemma Congruent(u1: int, u2: int, u3: int, m: int, x: int)
    requires m >= 2 && u1 * m + u2 * x == u3
    ensures (u2 * x) % m == u3 % m
    ensures ((u2 + m) * x) % m == u3 % m
  {
    ModShift(u2 * x, u1, m);
    ModShift(u2 * x, x, m);
    assert (u2 + m) * x == u2 * x + x * m;
  }

  lemma ModShift(a: int, k: int, m: int)
    requires m > 0
    ensures (a + k * m) % m == a % m
  {
    var q := a / m;
    assert a + k * m == (q + k) * m + a % m;
    RemainderUnique(a + k * m, q + k, a % m, m);
  }

  /** `Gcd` is the greatest common divisor: a common divisor that every common divisor divides. */
  lemma {:induction false} GcdIsGreatest(a: nat, b: nat, d: int)
    ensures Divides(Gcd(a, b), a) && Divides(Gcd(a, b), b)
    ensures Divides(d, a) && Divides(d, b) ==> Divides(d, Gcd(a, b))
    decreases b
  {
    if b == 0 {
      assert a == a * 1 && 0 == a * 0;
    } else {
      GcdIsGreatest(b, a % b, d);
      var g, q := Gcd(a, b), a / b;
      DividesSum(g, b, a % b, q, a);
      if Divides(d, a) && Divides(d, b) {
        DividesSum(d, b, a, -q, a % b);
      }
    }
  }

  lemma DividesSum(d: int, x: int, y: int, q: int, z: int)
    requires Divides(d, x) && Divides(d, y) && z == x * q + y
    ensures Divides(d, z)
  {
    var i :| x == d * i;
    var j :| y == d * j;
    assert z == d * (i * q + j) by {
      assert (d * i) * q == d * (i * q);
    }
  }

  // ---- powers ----

  function Pow(b: int, e: nat): int {
    if e == 0 then 1 else b * Pow(b, e - 1)
  }

  /** Python's three-argument `pow`. */
  function ModPow(b: int, e: nat, m: int): (r: int)
    requires m > 0
    ensures 0 <= r < m
  {
    Pow(b, e) % m
  }

  lemma MulMod(a: int, b: int, m: int)
    requires m > 0
    ensures ((a % m) * b) % m == (a * b) % m
  {
    var q := a / m;
    assert a * b == (a % m) * b + (q * b) * m by {
      assert a == q * m + a % m;
      assert (q * m + a % m) * b == (a % m) * b + (q * b) * m;
    }
    ModShift((a % m) * b, q * b, m);
  }

  lemma {:induction false} PowOfMod(a: int, e: nat, m: int)
    requires m > 0
    ensures Pow(a % m, e) % m == Pow(a, e) % m
  {
    if e == 0 {
    } else {
      var r, p, p' := a % m, Pow(a, e - 1), Pow(a % m, e - 1);
      PowOfMod(a, e - 1, m);
      MulMod(p', r, m);
      MulMod(p, r, m);
      MulMod(a, p, m);
      assert p' * r == r * p' && p * r == r * p;
    }
  }

  lemma {:induction false} PowAdd(b: int, x: nat, y: nat)
    ensures Pow(b, x + y) == Pow(b, x) * Pow(b, y)
  {
    if x == 0 {
    } else {
      PowAdd(b, x - 1, y);
      assert b * (Pow(b, x - 1) * Pow(b, y)) == b * Pow(b, x - 1) * Pow(b, y);
    }
  }

  lemma {:induction false} PowPow(b: int, x: nat, y: nat)
    ensures x * y >= 0 && Pow(Pow(b, x), y) == Pow(b, x * y)
  {
    if y == 0 {
    } else {
      PowPow(b, x, y - 1);
      assert x * y == x + x * (y - 1);
      PowAdd(b, x, x * (y - 1));
    }
  }

  /** Both ends of a Diffie-Hellman exchange arrive at the same secret. */
  lemma SharedSecret(g: int, x: nat, y: nat, p: int)
    requires p > 0
    ensures ModPow(ModPow(g, x, p), y, p) == ModPow(ModPow(g, y, p), x, p)
  {
    PowOfMod(Pow(g, x), y, p);
    PowOfMod(Pow(g, y), x, p);
    PowPow(g, x, y);
    PowPow(g, y, x);
    assert x * y == y * x;
  }
  function Product(factors: seq<int>): int {
    if factors == [] then 1 else factors[0] * Product(factors[1..])
  }

  lemma {:induction false} PowIsProduct(b: int, factors: seq<int>)
    requires forall f :: f in factors ==> f == b
    ensures Pow(b, |factors|) == Product(factors)
  {
    if factors != [] {
      assert factors[0] in factors && forall f :: f in factors[1..] ==> f in factors;
      PowIsProduct(b, factors[1..]);
    }
  }

  /** The three-argument `pow` is what a product of so many factors leaves when it is divided by the modulus. */
  lemma ModPowIsRemainder(b: int, factors: seq<int>, m: int) returns (q: int)
    requires m > 0 && forall f :: f in factors ==> f == b
    ensures Product(factors) == q * m + ModPow(b, |factors|, m) && 0 <= ModPow(b, |factors|, m) < m
  {
    PowIsProduct(b, factors);
    q := Product(factors) / m;
  }
}
