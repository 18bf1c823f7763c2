// Products and quotients of integers.
module Arith {

  function Min(a: nat, b: nat): nat {
    if a < b then a else b
  }

  lemma MulPos(a: int, b: int)
    requires a > 0 && b > 0
    ensures a * b > 0
  {
  }

  lemma Assoc3(a: int, b: int, c: int)
    ensures a * (b * c) == (a * b) * c
  {
  }

  lemma MulLe(a: nat, a': nat, b: nat, b': nat)
    requires a <= a' && b <= b'
    ensures a * b <= a' * b'
  {
    assert a' * b' - a * b == (a' - a) * b' + a * (b' - b);
  }

  lemma DivBelow(x: nat, d: nat, q: nat)
    requires d > 0 && x < d * q
    ensures x / d < q
  {
    if x / d >= q {
      MulLe(d, d, q, x / d);
    }
  }

  lemma DivModIs(x: nat, d: nat, q: nat, m: nat)
    requires d > 0 && x == q * d + m && m < d
    ensures x / d == q && x % d == m
  {
    var q', m' := x / d, x % d;
    assert (q - q') * d == m' - m;
    if q > q' {
      MulLe(1, q - q', d, d);
    } else if q < q' {
      MulLe(1, q' - q, d, d);
    }
  }

  lemma LessTimes(d: nat, x: int, y: int)
    requires d > 0 && x < y
    ensures d * x < d * y
  {
    MulLe(d, d, 1, y - x);
    assert d * y == d * x + d * (y - x);
  }

  lemma Parts(n: nat, d: nat) returns (q: nat, r: nat)
    requires d > 0
    ensures n == q * d + r && r < d && q == n / d && r == n % d
  {
    q, r := n / d, n % d;
  }
}
