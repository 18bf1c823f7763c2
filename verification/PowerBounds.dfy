// Bounds for powers with large exponents, from powers of eight and the leading bits of what they give.
module PowerBounds {
  import opened Arith
  import opened Powers
  import opened Limbs
  import opened Bignum
  import opened Capacity

  // Powers of 2^32 that the bounds use.
  function PowB(j: nat): nat
    requires j <= 15
  {
    if j == 0 then 1
    else if j == 1 then 0x100000000
    else if j == 2 then 0x10000000000000000
    else if j == 3 then 0x1000000000000000000000000
    else if j == 4 then 0x100000000000000000000000000000000
    else if j == 5 then 0x10000000000000000000000000000000000000000
    else if j == 6 then 0x1000000000000000000000000000000000000000000000000
    else if j == 7 then 0x100000000000000000000000000000000000000000000000000000000
    else if j == 8 then 0x10000000000000000000000000000000000000000000000000000000000000000
    else if j == 9 then 0x1000000000000000000000000000000000000000000000000000000000000000000000000
    else if j == 10 then 0x100000000000000000000000000000000000000000000000000000000000000000000000000000000
    else if j == 11 then 0x10000000000000000000000000000000000000000000000000000000000000000000000000000000000000000
    else if j == 12 then 0x1000000000000000000000000000000000000000000000000000000000000000000000000000000000000000000000000
    else if j == 13 then 0x100000000000000000000000000000000000000000000000000000000000000000000000000000000000000000000000000000000
    else if j == 14 then 0x10000000000000000000000000000000000000000000000000000000000000000000000000000000000000000000000000000000000000000
    else 0x1000000000000000000000000000000000000000000000000000000000000000000000000000000000000000000000000000000000000000000000000
  }

  lemma {:induction false} PowBIs(j: nat)
    requires j <= 15
    ensures PowB(j) == Pow(B, j)
  {
    if j > 0 {
      PowBIs(j - 1);
      assert PowB(j) == B * PowB(j - 1);
    }
  }

  function Power8(m: nat): nat {
    var m2 := m * m;
    var m4 := m2 * m2;
    m4 * m4
  }

  function SmallPower(r: nat, n: nat): nat
    requires n <= 15
  {
    if n == 0 then 1
    else if n == 1 then r
    else if n == 2 then r * r
    else if n == 3 then r * r * r
    else if n == 4 then r * r * r * r
    else if n == 5 then r * r * r * r * r
    else if n == 6 then r * r * r * r * r * r
    else if n == 7 then r * r * r * r * r * r * r
    else if n == 8 then r * r * r * r * r * r * r * r
    else if n == 9 then r * r * r * r * r * r * r * r * r
    else if n == 10 then r * r * r * r * r * r * r * r * r * r
    else if n == 11 then r * r * r * r * r * r * r * r * r * r * r
    else if n == 12 then r * r * r * r * r * r * r * r * r * r * r * r
    else if n == 13 then r * r * r * r * r * r * r * r * r * r * r * r * r
    else if n == 14 then r * r * r * r * r * r * r * r * r * r * r * r * r * r
    else r * r * r * r * r * r * r * r * r * r * r * r * r * r * r
  }

  lemma {:induction false} SmallPowerIs(r: nat, n: nat)
    requires n <= 15
    ensures SmallPower(r, n) == Pow(r, n)
  {
    if n > 0 {
      SmallPowerIs(r, n - 1);
      Commute(r, Pow(r, n - 1));
      assert SmallPower(r, n) == SmallPower(r, n - 1) * r;
    }
  }

  predicate AtLeast(r: nat, n: nat, m: nat, e: nat) {
    Pow(r, n) >= m * Pow(B, e)
  }

  // The exponent is a parameter: of a power with literal arguments the verifier would unfold every factor.
  lemma Power8Is(m: nat, eight: nat)
    requires eight == 8
    ensures Power8(m) == Pow(m, eight)
  {
    var two: nat := 2;
    assert Pow(m, two) == m * m by {
      assert Pow(m, 1) == m * Pow(m, 0) == m;
    }
    PowPow(m, two, two);
    PowPow(m, two * two, two);
    var m4 := Pow(m, 4);
    assert Pow(m * m, two) == (m * m) * (m * m) by {
      assert Pow(m * m, 1) == (m * m) * Pow(m * m, 0) == m * m;
    }
    assert Pow(m4, two) == m4 * m4 by {
      assert Pow(m4, 1) == m4 * Pow(m4, 0) == m4;
    }
  }

  // From r^n to r^(8 n + b).
  lemma EighthPower(r: nat, n: nat, m: nat, e: nat, b: nat, m': nat, j: nat)
    requires AtLeast(r, n, m, e) && b <= 15 && j <= 15 && Power8(m) * SmallPower(r, b) >= m' * PowB(j)
    ensures AtLeast(r, 8 * n + b, m', 8 * e + j)
  {
    var eight: nat := 8;
    Power8Is(m, eight);
    SmallPowerIs(r, b);
    PowBIs(j);
    Eighth(r, n, m, e, b, m', j, eight);
  }

  lemma Eighth(r: nat, n: nat, m: nat, e: nat, b: nat, m': nat, j: nat, k: nat)
    requires AtLeast(r, n, m, e) && Pow(m, k) * Pow(r, b) >= m' * Pow(B, j)
    ensures AtLeast(r, k * n + b, m', k * e + j)
  {
    PowBelow(Pow(r, n), m, Pow(B, e), k);
    RaisedPower(r, n, k, b);
    RaisedPower(B, e, k, j);
    Grown(Pow(Pow(r, n), k), Pow(m, k), Pow(Pow(B, e), k), Pow(r, b), m', Pow(B, j));
  }

  lemma RaisedPower(r: nat, n: nat, k: nat, b: nat)
    ensures Pow(r, k * n + b) == Pow(Pow(r, n), k) * Pow(r, b)
  {
    PowPow(r, n, k);
    Commute(n, k);
    PowAdd(r, k * n, b);
  }

  lemma PowBelow(x: nat, m: nat, p: nat, k: nat)
    requires x >= m * p
    ensures Pow(x, k) >= Pow(m, k) * Pow(p, k)
  {
    PowBase(m * p, x, k);
    PowTimes(m, p, k);
  }

  lemma Grown(x: nat, m8: nat, p: nat, y: nat, m': nat, q: nat)
    requires x >= m8 * p && m8 * y >= m' * q
    ensures x * y >= m' * (p * q)
  {
    MulLe(m8 * p, x, y, y);
    MulLe(m' * q, m8 * y, p, p);
    assert (m8 * p) * y == (m8 * y) * p;
    assert m' * (p * q) == (m' * q) * p;
  }

  lemma Reaches(r: nat, n: nat, m: nat, e: nat, w: nat, c: nat)
    requires AtLeast(r, n, m, e) && e <= w && m >= c * Pow(B, w - e)
    ensures Pow(r, n) >= c * Pow(B, w)
  {
    PowAdd(B, w - e, e);
    MulLe(c * Pow(B, w - e), m, Pow(B, e), Pow(B, e));
    Assoc3(c, Pow(B, w - e), Pow(B, e));
  }

  // A bound for r^n from its octal exponent; m1 * B^j1 and m2 * B^j2 are what is kept of the powers on the way.
  lemma LargePower(r: nat, n: nat, n0: nat, b1: nat, m1: nat, j1: nat, b2: nat, m2: nat, j2: nat, w: nat, c: nat)
    requires n0 <= 15 && b1 < 8 && b2 < 8 && n == 64 * n0 + 8 * b1 + b2 && j1 <= 15 && j2 <= 15
    requires Power8(SmallPower(r, n0)) * SmallPower(r, b1) >= m1 * PowB(j1)
    requires Power8(m1) * SmallPower(r, b2) >= m2 * PowB(j2)
    requires 8 * j1 + j2 <= w && w - (8 * j1 + j2) <= 15 && m2 >= c * PowB(w - (8 * j1 + j2))
    ensures Pow(r, n) >= c * Pow(B, w)
  {
    SmallPowerIs(r, n0);
    assert AtLeast(r, n0, SmallPower(r, n0), 0) by {
      assert Pow(B, 0) == 1;
    }
    EighthPower(r, n0, SmallPower(r, n0), 0, b1, m1, j1);
    EighthPower(r, 8 * n0 + b1, m1, j1, b2, m2, j2);
    PowBIs(w - (8 * j1 + j2));
    Reaches(r, n, m2, 8 * j1 + j2, w, c);
  }

  // The same with a strict bound.
  lemma LargerPower(r: nat, n: nat, n0: nat, b1: nat, m1: nat, j1: nat, b2: nat, m2: nat, j2: nat, w: nat, c: nat)
    requires n0 <= 15 && b1 < 8 && b2 < 8 && n == 64 * n0 + 8 * b1 + b2 && j1 <= 15 && j2 <= 15
    requires Power8(SmallPower(r, n0)) * SmallPower(r, b1) >= m1 * PowB(j1)
    requires Power8(m1) * SmallPower(r, b2) >= m2 * PowB(j2)
    requires 8 * j1 + j2 <= w && w - (8 * j1 + j2) <= 15 && m2 > c * PowB(w - (8 * j1 + j2))
    ensures Pow(r, n) > c * Pow(B, w)
  {
    var e := 8 * j1 + j2;
    LargePower(r, n, n0, b1, m1, j1, b2, m2, j2, e, m2);
    PowBIs(w - e);
    PowAdd(B, w - e, e);
    PowPos(B, e);
    StaysAbove(m2, c, Pow(B, w - e), Pow(B, e));
  }

  lemma StaysAbove(m: nat, c: nat, p: nat, q: nat)
    requires m > c * p && q > 0
    ensures m * q > c * (p * q)
  {
    LessTimes(q, c * p, m);
    Assoc3(c, p, q);
  }

  // ---- Upper bounds ----

  predicate AtMost(r: nat, n: nat, m: nat, e: nat) {
    Pow(r, n) <= m * Pow(B, e)
  }

  lemma EighthAtMost(r: nat, n: nat, m: nat, e: nat, b: nat, m': nat, j: nat)
    requires AtMost(r, n, m, e) && b <= 15 && j <= 15 && Power8(m) * SmallPower(r, b) <= m' * PowB(j)
    ensures AtMost(r, 8 * n + b, m', 8 * e + j)
  {
    var eight: nat := 8;
    Power8Is(m, eight);
    SmallPowerIs(r, b);
    PowBIs(j);
    EighthUp(r, n, m, e, b, m', j, eight);
  }

  lemma EighthUp(r: nat, n: nat, m: nat, e: nat, b: nat, m': nat, j: nat, k: nat)
    requires AtMost(r, n, m, e) && Pow(m, k) * Pow(r, b) <= m' * Pow(B, j)
    ensures AtMost(r, k * n + b, m', k * e + j)
  {
    PowAbove(Pow(r, n), m, Pow(B, e), k);
    RaisedPower(r, n, k, b);
    RaisedPower(B, e, k, j);
    GrownUp(Pow(Pow(r, n), k), Pow(m, k), Pow(Pow(B, e), k), Pow(r, b), m', Pow(B, j));
  }

  lemma PowAbove(x: nat, m: nat, p: nat, k: nat)
    requires x <= m * p
    ensures Pow(x, k) <= Pow(m, k) * Pow(p, k)
  {
    PowBase(x, m * p, k);
    PowTimes(m, p, k);
  }

  lemma GrownUp(x: nat, m8: nat, p: nat, y: nat, m': nat, q: nat)
    requires x <= m8 * p && m8 * y <= m' * q
    ensures x * y <= m' * (p * q)
  {
    MulLe(x, m8 * p, y, y);
    MulLe(m8 * y, m' * q, p, p);
    assert (m8 * p) * y == (m8 * y) * p;
    assert m' * (p * q) == (m' * q) * p;
  }

  lemma StaysBelow(r: nat, n: nat, m: nat, e: nat, w: nat, c: nat)
    requires AtMost(r, n, m, e) && e <= w && m < c * Pow(B, w - e)
    ensures Pow(r, n) < c * Pow(B, w)
  {
    PowAdd(B, w - e, e);
    PowPos(B, e);
    LessTimes(Pow(B, e), m, c * Pow(B, w - e));
    Assoc3(c, Pow(B, w - e), Pow(B, e));
    Commute(m, Pow(B, e));
    Commute(c * Pow(B, w - e), Pow(B, e));
  }

  lemma SmallerPower(r: nat, n: nat, n0: nat, b1: nat, m1: nat, j1: nat, b2: nat, m2: nat, j2: nat, w: nat, c: nat)
    requires n0 <= 15 && b1 < 8 && b2 < 8 && n == 64 * n0 + 8 * b1 + b2 && j1 <= 15 && j2 <= 15
    requires Power8(SmallPower(r, n0)) * SmallPower(r, b1) <= m1 * PowB(j1)
    requires Power8(m1) * SmallPower(r, b2) <= m2 * PowB(j2)
    requires 8 * j1 + j2 <= w && w - (8 * j1 + j2) <= 15 && m2 < c * PowB(w - (8 * j1 + j2))
    ensures Pow(r, n) < c * Pow(B, w)
  {
    SmallPowerIs(r, n0);
    assert AtMost(r, n0, SmallPower(r, n0), 0) by {
      assert Pow(B, 0) == 1;
    }
    EighthAtMost(r, n0, SmallPower(r, n0), 0, b1, m1, j1);
    EighthAtMost(r, 8 * n0 + b1, m1, j1, b2, m2, j2);
    PowBIs(w - (8 * j1 + j2));
    StaysBelow(r, n, m2, 8 * j1 + j2, w, c);
  }
}
