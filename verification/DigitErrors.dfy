// How far a decimal (or other) approximation is from the double it was made from.
module DigitErrors {
  import opened Arith
  import opened Powers
  import opened RealPowers
  import opened Rounding
  import opened Bignum
  import opened Scaling
  import opened Float64
  import opened NearestEven
  import opened RoundTrip

  // e0 is the floor of the logarithm of 2^(e-1), plus one.
  predicate GoodExponent(r: nat, e: int, e0: int)
    requires r > 0
  {
    RP(r, e0 - 1) <= Two(e - 1) < RP(r, e0)
  }

  // The digits of x, p of them, when the first has weight r^(e0-1).
  function DigitsOf(x: real, r: nat, p: int, e0: int): int
    requires r > 0
  {
    Round(Product(x, RP(r, p - e0)), Nearest)
  }

  // ---- The exact numbers in terms of real powers of the radix ----

  lemma FullRadix(v: nat, r1: nat, s: nat, f: int, r: nat)
    requires r1 > 0 && r == r1 * Pow(2, s) && r > 0
    ensures Scale(Times(v, r1, f), f * s) == Product(v as real, RP(r, f))
  {
    if f >= 0 {
      FullUp(v, r1, s, f, r, f * s);
    } else {
      var n: nat := -f;
      assert f * s == -(n * s);
      FullDown(v, r1, s, n, r, n * s);
    }
  }

  lemma FullUp(v: nat, r1: nat, s: nat, n: nat, r: nat, k: nat)
    requires r1 > 0 && r == r1 * Pow(2, s) && r > 0 && k == n * s
    ensures Scale(Times(v, r1, n), k) == Product(v as real, RP(r, n))
  {
    PowParts(r1, s, n, r);
    TwoNat(k);
    ScaleUp(v, Pow(r1, n), Pow(2, k), Two(k), Pow(r, n), Times(v, r1, n));
  }

  lemma FullDown(v: nat, r1: nat, s: nat, n: nat, r: nat, k: nat)
    requires r1 > 0 && r == r1 * Pow(2, s) && r > 0 && k == n * s && n > 0
    ensures Scale(Times(v, r1, 0 - n), 0 - k) == Product(v as real, RP(r, 0 - n))
  {
    PowParts(r1, s, n, r);
    PowPos(r1, n);
    PowPos(r, n);
    PowPos(2, k);
    TwoNat(k);
    TwoInverse(k);
    ScaleDown(v, Pow(r1, n), Pow(2, k), Two(k), Two(0 - k), Pow(r, n), Times(v, r1, 0 - n), RP(r, 0 - n));
  }

  lemma PowParts(r1: nat, s: nat, n: nat, r: nat)
    requires r == r1 * Pow(2, s)
    ensures Pow(r, n) == Pow(r1, n) * Pow(2, n * s)
  {
    PowTimes(r1, Pow(2, s), n);
    PowPow(2, s, n);
    Commute(s, n);
  }

  lemma ScaleUp(v: nat, p: nat, q: nat, t: real, w: nat, x: real)
    requires t == q as real && w == p * q && x == (v * p) as real
    ensures x * t == Product(v as real, w as real)
  {
    ProductReal(v, p);
    ProductReal(p, q);
    assert (v as real * p as real) * t == v as real * (p as real * t);
  }

  lemma ScaleDown(v: nat, p: nat, q: nat, t: real, u: real, w: nat, x: real, y: real)
    requires p > 0 && q > 0 && w > 0 && t == q as real && t * u == 1.0 && w == p * q
    requires x == v as real / p as real && y == 1.0 / w as real
    ensures x * u == Product(v as real, y)
  {
    ProductReal(p, q);
    DownTimes(v as real, p as real, t, u, x, y);
  }

  lemma DownTimes(v: real, p: real, t: real, u: real, x: real, y: real)
    requires p > 0.0 && t > 0.0 && p * t > 0.0 && t * u == 1.0 && x == v / p && y == 1.0 / (p * t)
    ensures x * u == v * y
  {
    assert x * p == v;
    assert (x * u) * (p * t) == v by {
      assert (x * u) * (p * t) == (x * p) * (t * u);
    }
    QuotientUnique(x * u, p * t, v);
  }

  lemma QuotientUnique(x: real, q: real, v: real)
    requires q > 0.0 && x * q == v
    ensures x == v * (1.0 / q)
  {
    var i := 1.0 / q;
    assert q * i == 1.0;
    assert x == (x * q) * i;
  }

  // ---- Errors ----

  lemma ErrorBound(x: real, f: int, t: real, u: real)
    requires u > 0.0 && t * u == 1.0 && f == Round(Product(x, t), Nearest)
    ensures Abs(Product(f as real, u) - x) <= u / 2.0
  {
    var d := f as real - x * t;
    assert -0.5 <= d <= 0.5;
    assert d * u == f as real * u - x by {
      assert (x * t) * u == x * (t * u);
    }
    TimesOrder(-0.5, d, u);
    TimesOrder(d, 0.5, u);
    var g := Product(f as real, u) - x;
    assert g == d * u && -0.5 * u <= g <= 0.5 * u;
  }

  // u * a = c with a large makes u small.
  lemma SmallUnit(u: real, a: real, c: real, b: real)
    requires u > 0.0 && b > 0.0 && a >= b && u * a == c
    ensures u * b <= c
  {
    TimesOrder(b, a, u);
  }

  // A number within u / 2 of m * 2^(e-53), where u is at most half of the last place.
  lemma NearByQuarter(y: real, m: nat, e: int, u: real)
    requires Abs(y - FloatValue(m, e)) <= u / 2.0 && u <= Two(e - 54)
    ensures Near(Scale(y, PREC - e), m)
  {
    ScaleTwo(e - 54, PREC - e, -1);
    assert Two(-1) == 0.5;
    UnitsOf(m, e);
    TwoPos(PREC - e);
    WithinScaled(y, FloatValue(m, e), Two(e - 54), Two(PREC - e));
  }

  lemma WithinScaled(y: real, x: real, q: real, t: real)
    requires t > 0.0 && Abs(y - x) <= q / 2.0 && q * t == 0.5
    ensures x * t - 0.25 <= y * t <= x * t + 0.25
  {
    TimesOrder(y, x + q / 2.0, t);
    TimesOrder(x - q / 2.0, y, t);
    assert (x + q / 2.0) * t == x * t + 0.25;
    assert (x - q / 2.0) * t == x * t - 0.25;
  }

  // ---- The first exponent ----

  lemma UnitIsSmall(r: nat, p: int, e: int, e0: int)
    requires r > 0 && GoodExponent(r, e, e0) && p > 0 && M53 <= Pow(r, p - 1)
    ensures RP(r, e0 - p) <= Two(e - 54)
  {
    RPAdd(r, e0 - p, p - 1, e0 - 1);
    RPPos(r, e0 - p);
    TwoAdd(e - 54, 53);
    TwoNat(53);
    M53Is();
    UnitBound(RP(r, e0 - p), RP(r, p - 1), RP(r, e0 - 1), Two(e - 1), Two(e - 54), M53 as real);
  }

  lemma UnitBound(u: real, a: real, c: real, d: real, v: real, b: real)
    requires u > 0.0 && b > 0.0 && a >= b && c == Product(u, a) && c <= d && d == v * b
    ensures u <= v
  {
    SmallUnit(u, a, c, b);
    CancelFactor(u, v, b, d);
  }

  lemma CancelFactor(u: real, v: real, b: real, c: real)
    requires b > 0.0 && u * b <= c && c == v * b
    ensures u <= v
  {
    TimesOrder(u, v, b);
  }

  lemma FirstNear(m: nat, e: int, r: nat, p: int, e0: int, f: int)
    requires r > 0 && GoodExponent(r, e, e0) && p > 0 && M53 <= Pow(r, p - 1)
    requires f == DigitsOf(FloatValue(m, e), r, p, e0)
    ensures Near(Scale(Product(f as real, RP(r, e0 - p)), PREC - e), m)
  {
    UnitIsSmall(r, p, e, e0);
    var t, u := InversesOf(r, p - e0, e0 - p);
    ErrorBound(FloatValue(m, e), f, t, u);
    NearByQuarter(Product(f as real, u), m, e, u);
  }

  // ---- The second exponent, when the first gives a digit too many ----

  lemma SecondNear(m: nat, e: int, r: nat, p: int, e0: int, f0: int, f1: int)
    requires r >= 2 && GoodExponent(r, e, e0) && p > 0 && M53 <= Pow(r, p - 1) && M53 / 2 <= m < M53
    requires f0 == DigitsOf(FloatValue(m, e), r, p, e0) && f0 >= Pow(r, p)
    requires f1 == DigitsOf(FloatValue(m, e), r, p, e0 + 1)
    ensures Near(Scale(Product(f1 as real, RP(r, e0 + 1 - p)), PREC - e), m)
  {
    var t0, t1, u0, u1, b, d := PowersAround(r, p, e0);
    UnitIsSmall(r, p, e, e0);
    SecondBy(FloatValue(m, e), m, e, r, Pow(r, p - 1), Pow(r, p), f0, f1, t0, t1, u0, u1, b, d);
  }

  // The powers that occur, and how they hang together.
  lemma PowersAround(r: nat, p: int, e0: int) returns (t0: real, t1: real, u0: real, u1: real, b: real, d: real)
    requires r >= 2 && p > 0
    ensures b == Pow(r, p - 1) as real && t0 == RP(r, p - e0) && t1 == RP(r, p - (e0 + 1)) && u0 == RP(r, e0 - p)
    ensures u1 == RP(r, e0 + 1 - p) && d == RP(r, e0)
    ensures t0 > 0.0 && t1 > 0.0 && u0 > 0.0 && u1 > 0.0 && t0 * u0 == 1.0 && t1 * u1 == 1.0
    ensures t0 == r as real * t1 && d == u1 * b && Pow(r, p) == r * Pow(r, p - 1)
  {
    t0, u0 := InversesOf(r, p - e0, e0 - p);
    t1, u1 := InversesOf(r, p - (e0 + 1), e0 + 1 - p);
    RPNext(r, p - (e0 + 1), t1, t0);
    b := Pow(r, p - 1) as real;
    d := AddTo(r, r as real, e0 + 1 - p, p - 1, u1, b);
  }

  lemma InversesOf(r: nat, k: int, j: int) returns (x: real, y: real)
    requires r > 0 && j == -k
    ensures x == RP(r, k) && y == RP(r, j) && x > 0.0 && y > 0.0 && x * y == 1.0
  {
    x, y := RP(r, k), RP(r, j);
    RPPos(r, k);
    RPPos(r, j);
    var z := AddTo(r, r as real, k, j, x, y);
    assert RP(r, 0) == 1.0;
  }

  lemma SecondBy(x: real, m: nat, e: int, r: nat, a: nat, w: nat, f0: int, f1: int, t0: real, t1: real, u0: real,
                 u1: real, b: real,
                 d: real)
    requires b == a as real
    requires r >= 2 && M53 <= a && M53 / 2 <= m < M53 && x == FloatValue(m, e)
    requires t0 > 0.0 && t1 > 0.0 && u0 > 0.0 && u1 > 0.0 && t0 * u0 == 1.0 && t1 * u1 == 1.0 && t0 == r as real * t1
    requires d == u1 * b && Two(e - 1) < d && u0 <= Two(e - 54)
    requires f0 == Round(Product(x, t0), Nearest) && f0 >= w == r * a && f1 == Round(Product(x, t1), Nearest)
    ensures Near(Scale(Product(f1 as real, u1), PREC - e), m)
  {
    var y := Product(f1 as real, u1);
    if x < d {
      RoundsToPower(x, r, a, f0, f1, t0, t1, u0, u1, d);
      NearByQuarter(y, m, e, u0);
    } else {
      ErrorBound(x, f1, t1, u1);
      SmallUnit(u1, a as real, d, M53 as real);
      NearByHalf(y, m, e, u1, d);
    }
  }

  // x is so little below a power of the radix that it rounds to it.
  lemma RoundsToPower(x: real, r: nat, a: nat, f0: int, f1: int, t0: real, t1: real, u0: real, u1: real, d: real)
    requires r >= 2 && t0 > 0.0 && t1 > 0.0 && u0 > 0.0 && t0 * u0 == 1.0 && t1 * u1 == 1.0 && t0 == r as real * t1
    requires d == u1 * a as real && x < d && f0 >= r * a
    requires f0 == Round(Product(x, t0), Nearest) && f1 == Round(Product(x, t1), Nearest)
    ensures f1 == a && Product(f1 as real, u1) == d && Abs(d - x) <= u0 / 2.0
  {
    var b, w := a as real, (r * a) as real;
    ProductReal(r, a);
    assert d * t1 == b by {
      assert (u1 * b) * t1 == b * (t1 * u1);
    }
    assert d * t0 == w by {
      assert d * (r as real * t1) == r as real * (d * t1);
    }
    TimesOrder(x, d, t1);
    assert x * t0 >= w - 0.5;
    assert x * t0 == r as real * (x * t1);
    OneDigitLess(x * t1, r as real, b);
    HalfOff(x * t1, a);
    Below(x, d, t0, u0, w);
  }

  lemma OneDigitLess(z: real, r: real, b: real)
    requires r >= 2.0 && r * z >= r * b - 0.5
    ensures z > b - 0.5
  {
    if z <= b - 0.5 {
      TimesOrder(z, b - 0.5, r);
    }
  }

  lemma Below(x: real, d: real, t: real, u: real, w: real)
    requires u > 0.0 && t * u == 1.0 && d * t == w && x < d && x * t >= w - 0.5
    ensures Abs(d - x) <= u / 2.0
  {
    TimesOrder(w - 0.5, x * t, u);
    assert (x * t) * u == x by {
      assert (x * t) * u == x * (t * u);
    }
    assert w * u == d by {
      assert (d * t) * u == d * (t * u);
    }
    assert (w - 0.5) * u == w * u - 0.5 * u;
  }

  // A number above the power of two, with an error of half a unit that is small beside it.
  lemma NearByHalf(y: real, m: nat, e: int, u: real, d: real)
    requires M53 / 2 <= m < M53 && u > 0.0 && Abs(y - FloatValue(m, e)) <= u / 2.0
    requires u * M53 as real <= d && Two(e - 1) < d <= FloatValue(m, e)
    ensures Near(Scale(y, PREC - e), m)
  {
    AbovePower(m, e, d);
    UnitsOf(m, e);
    TwoPos(PREC - e);
    HalfScaled(y, FloatValue(m, e), u, Two(PREC - e), m as real, M53 as real);
  }

  lemma AbovePower(m: nat, e: int, d: real)
    requires Two(e - 1) < d <= FloatValue(m, e)
    ensures m > M53 / 2
  {
    UnitsOf(m, e);
    ScaleTwo(e - 1, PREC - e, 52);
    TwoNat(52);
    M53Is();
    ScaleOrder(Two(e - 1), FloatValue(m, e), PREC - e);
  }

  // In units of its last place a double is its mantissa.
  lemma UnitsOf(m: nat, e: int)
    ensures Scale(FloatValue(m, e), PREC - e) == m as real
  {
    ScaleAdd(m as real, e - PREC, PREC - e);
    assert e - PREC + (PREC - e) == 0;
    ExactScale(m as real);
  }

  lemma HalfScaled(y: real, x: real, u: real, t: real, m: real, b: real)
    requires t > 0.0 && u > 0.0 && b > 0.0 && Abs(y - x) <= u / 2.0 && u * b <= x && x * t == m && m < b
    ensures m - 0.5 < y * t < m + 0.5
  {
    TimesOrder(u * b, x, t);
    assert (u * b) * t == (u * t) * b;
    TimesOrder(u * t, 1.0, b);
    TimesOrder(y, x + u / 2.0, t);
    TimesOrder(x - u / 2.0, y, t);
    assert (x + u / 2.0) * t == x * t + u * t / 2.0;
    assert (x - u / 2.0) * t == x * t - u * t / 2.0;
  }

  // ---- How many digits there are ----

  // With the first exponent there may be one digit too many, with the second there is not.
  lemma DigitCount(m: nat, e: int, r: nat, p: int, e0: int, f0: int, f1: int)
    requires r >= 2 && GoodExponent(r, e, e0) && p > 0 && M53 / 2 <= m < M53
    requires f0 == DigitsOf(FloatValue(m, e), r, p, e0) && f1 == DigitsOf(FloatValue(m, e), r, p, e0 + 1)
    ensures 1 <= f0 <= 2 * Pow(r, p) && (f0 >= Pow(r, p) ==> 1 <= f1 < Pow(r, p))
  {
    DoubleBinade(m, e);
    TwoNext(e - 1);
    BelowNext(m, e, r, e0);
    CountAt(FloatValue(m, e), Two(e - 1), r, p, e0, f0, f1);
  }

  lemma CountAt(x: real, two: real, r: nat, p: int, e0: int, f0: int, f1: int)
    requires r >= 2 && p > 0 && RP(r, e0 - 1) <= two <= x < 2.0 * two && two < RP(r, e0) && (r == 2 ==> x < RP(r, e0))
    requires f0 == DigitsOf(x, r, p, e0) && f1 == DigitsOf(x, r, p, e0 + 1)
    ensures 1 <= f0 <= 2 * Pow(r, p) && (f0 >= Pow(r, p) ==> 1 <= f1 < Pow(r, p))
  {
    var b, t0, t1, u1, c, d := CountPowers(r, p, e0);
    PowPos(r, p - 1);
    DigitsBy(x, r, p, e0, t0, Product(x, t0), f0);
    DigitsBy(x, r, p, e0 + 1, t1, Product(x, t1), f1);
    CountBy(x, r, Pow(r, p - 1), Pow(r, p), f0, f1, b, t0, t1, u1, c, d, two);
  }

  lemma DigitsBy(x: real, r: nat, p: int, e0: int, t: real, y: real, f: int)
    requires r > 0 && t == RP(r, p - e0) && y == Product(x, t) && f == DigitsOf(x, r, p, e0)
    ensures f == Round(y, Nearest)
  {
  }

  // Powers of the radix around 1, where t0 and t1 scale to the p-th digit.
  predicate PowersHang(r: nat, a: nat, b: real, w: nat, t0: real, t1: real, u1: real, c: real, d: real) {
    && r >= 2 && a >= 1 && b == a as real && w == r * a && t0 > 0.0 && t1 > 0.0
    && t1 * u1 == 1.0 && t0 == r as real * t1 && d == u1 * b && b == c * t0
  }

  lemma CountPowers(r: nat, p: int, e0: int) returns (b: real, t0: real, t1: real, u1: real, c: real, d: real)
    requires r >= 2 && p > 0
    ensures PowersHang(r, Pow(r, p - 1), b, Pow(r, p), t0, t1, u1, c, d)
    ensures t0 == RP(r, p - e0) && t1 == RP(r, p - (e0 + 1)) && c == RP(r, e0 - 1) && d == RP(r, e0)
  {
    var u0;
    t0, t1, u0, u1, b, d := PowersAround(r, p, e0);
    c := FirstPower(r, p, e0, t0, b);
    PowPos(r, p - 1);
  }

  lemma CountBy(x: real, r: nat, a: nat, w: nat, f0: int, f1: int, b: real, t0: real, t1: real, u1: real, c: real,
                d: real,
                two: real)
    requires PowersHang(r, a, b, w, t0, t1, u1, c, d) && c <= two <= x < 2.0 * two && two < d && (r == 2 ==> x < d)
    requires f0 == Round(Product(x, t0), Nearest) && f1 == Round(Product(x, t1), Nearest)
    ensures 1 <= f0 <= 2 * w && (f0 >= w ==> 1 <= f1 < w)
  {
    var y0, y1 := x * t0, x * t1;
    ProductReal(r, a);
    CountReals(x, r as real, t0, t1, u1, b, w as real, c, d, two, y0, y1);
    CountDigits(y0, y1, r, a, w, f0, f1);
  }

  lemma FirstPower(r: nat, p: int, e0: int, t: real, b: real) returns (c: real)
    requires r > 0 && p > 0 && t == RP(r, p - e0) && b == Pow(r, p - 1) as real
    ensures c == RP(r, e0 - 1) && b == c * t
  {
    c := RP(r, e0 - 1);
    var z := AddTo(r, r as real, e0 - 1, p - e0, c, t);
    assert e0 - 1 + (p - e0) == p - 1;
  }

  // In radix 2 the double is below the next power.
  lemma BelowNext(m: nat, e: int, r: nat, e0: int)
    requires r > 0 && GoodExponent(r, e, e0) && M53 / 2 <= m < M53
    ensures r == 2 ==> FloatValue(m, e) < RP(r, e0)
  {
    if r == 2 {
      DoubleBinade(m, e);
      RadixTwo(e0);
      if e0 < e {
        TwoMono(e0, e - 1);
      }
      TwoMono(e, e0);
    }
  }

  lemma DoubleBinade(m: nat, e: int)
    requires M53 / 2 <= m < M53
    ensures Two(e - 1) <= FloatValue(m, e) < Two(e)
  {
    UnitsOf(m, e);
    M53Is();
    TwoNat(52);
    TwoNat(53);
    BinadeShift(FloatValue(m, e), PREC - e, 52);
    assert 52 + 1 - (PREC - e) == e;
  }

  lemma {:induction false} RadixTwo(k: int)
    ensures RP(2, k) == Two(k)
    decreases if k >= 0 then k else -k
  {
    if k >= 0 {
      TwoNat(k);
    } else {
      RadixTwo(k + 1);
      RPNext(2, k, RP(2, k), RP(2, k + 1));
      TwoNext(k);
    }
  }

  lemma CountDigits(y0: real, y1: real, r: nat, a: nat, w: nat, f0: int, f1: int)
    requires r >= 2 && a >= 1 && w == r * a && f0 == Round(y0, Nearest) && f1 == Round(y1, Nearest)
    requires a as real <= y0 < 2.0 * w as real && y1 < 2.0 * a as real && (r == 2 ==> y1 < a as real)
    requires y0 >= w as real - 0.5 ==> y1 > a as real - 0.5
    ensures 1 <= f0 <= 2 * w && (f0 >= w ==> 1 <= f1 < w)
  {
    FirstCount(y0, f0, a as real, w as real, w);
    if f0 >= w {
      RoundedUp(y0, f0, w);
      SecondCount(y1, f1, a, r, w);
    }
  }

  lemma RoundedUp(y: real, f: int, w: nat)
    requires f == Round(y, Nearest) && f >= w
    ensures y >= w as real - 0.5
  {
  }

  lemma CountReals(x: real, r: real, t0: real, t1: real, u1: real, b: real, w: real, c: real, d: real, two: real,
                   y0: real, y1: real)
    requires r >= 2.0 && t0 > 0.0 && t1 > 0.0 && t1 * u1 == 1.0 && t0 == r * t1 && d == u1 * b && b == c * t0
    requires w == r * b
    requires c <= two <= x < 2.0 * two && two < d && y0 == x * t0 && y1 == x * t1
    ensures b <= y0 < 2.0 * w && y1 < 2.0 * b && (x < d ==> y1 < b) && (y0 >= w - 0.5 ==> y1 > b - 0.5)
  {
    assert d * t1 == b by {
      assert (u1 * b) * t1 == b * (t1 * u1);
    }
    assert y0 == r * y1 by {
      assert x * (r * t1) == r * (x * t1);
    }
    TimesOrder(c, x, t0);
    TimesOrder(x, 2.0 * d, t1);
    assert (2.0 * d) * t1 == 2.0 * b;
    TimesOrder(x, d, t1);
    TimesOrder(y1, 2.0 * b, r);
    assert y1 * r == y0 && (2.0 * b) * r == 2.0 * (r * b);
    if y0 >= w - 0.5 {
      OneDigitLess(y1, r, b);
    }
  }

  lemma FirstCount(y: real, f: int, b: real, rb: real, w: nat)
    requires rb == w as real && f == Round(y, Nearest) && 1.0 <= b <= y < 2.0 * rb
    ensures 1 <= f <= 2 * w
  {
  }

  lemma SecondCount(y: real, f: int, a: nat, r: nat, w: nat)
    requires r >= 2 && a >= 1 && w == r * a && f == Round(y, Nearest)
    requires a as real - 0.5 < y < 2.0 * a as real && (r == 2 ==> y < a as real)
    ensures 1 <= f < w
  {
    assert f <= 2 * a && (r == 2 ==> f <= a);
    if r > 2 {
      MulLe(3, r, a, a);
    }
  }
}
