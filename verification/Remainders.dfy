/** Facts about division with remainder by an unknown modulus. */
module Remainders {

  lemma MulMonotone(m: int, a: int, b: int)
    requires m >= 0 && a <= b
    ensures m * a <= m * b
  {
  }

  lemma MulAtLeast(d: int, m: int)
    requires m > 0 && d >= 1
    ensures m * d >= m
  {
  }

  lemma MulAtMost(d: int, m: int)
    requires m > 0 && d <= -1
    ensures m * d <= -m
  {
  }

  lemma NoMultiple(d: int, m: int)
    requires m > 0 && -m < m * d < m
    ensures d == 0
  {
    if d >= 1 {
      MulAtLeast(d, m);
    } else if d <= -1 {
      MulAtMost(d, m);
    }
  }

  lemma Remainder(x: nat, q: int, r: nat, m: nat)
    requires m > 0 && x == m * q + r && r < m
    ensures x % m == r
  {
    assert x == m * (x / m) + x % m;
    assert m * (x / m - q) == r - x % m;
    NoMultiple(x / m - q, m);
  }

  lemma Quotient(x: nat, q: int, r: nat, m: nat)
    requires m > 0 && x == m * q + r && r < m
    ensures x / m == q
  {
    Remainder(x, q, r, m);
    assert x == m * (x / m) + x % m;
    assert m * (x / m - q) == 0;
    NoMultiple(x / m - q, m);
  }

  /** a reduced modulo m by repeated subtraction, which keeps multiplication by m out of the proofs that use it. */
  function Modulo(a: nat, m: nat): (r: nat)
    requires m > 0
    ensures r < m
  {
    if a < m then a else Modulo(a - m, m)
  }

  lemma {:induction false} ModuloIsRemainder(a: nat, m: nat)
    requires m > 0
    ensures Modulo(a, m) == a % m
  {
    if a < m {
      Remainder(a, 0, a, m);
    } else {
      var b := a - m;
      ModuloIsRemainder(b, m);
      assert b == m * (b / m) + b % m;
      assert a == m * (b / m + 1) + b % m;
      Remainder(a, b / m + 1, b % m, m);
    }
  }

  lemma {:induction false} ModuloNext(a: nat, m: nat)
    requires m > 0
    ensures Modulo(a + 1, m) == if Modulo(a, m) + 1 == m then 0 else Modulo(a, m) + 1
  {
    if a >= m {
      ModuloNext(a - m, m);
    }
  }

  lemma {:induction false} SameModulo(a: nat, b: nat, m: nat)
    requires m > 0 && a <= b < a + m && Modulo(a, m) == Modulo(b, m)
    ensures a == b
  {
    if a >= m {
      SameModulo(a - m, b - m, m);
    }
  }
}
