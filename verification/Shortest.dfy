// Are the digits that are printed as few as possible? They are, unless the double is a power of two: there the gap
// below is smaller than the one above, so that the closest digits below may be another double while digits a little
// further away, above, are the same one.
module Shortest {
  import opened Arith
  import opened Powers
  import opened RealPowers
  import opened Rounding
  import opened Bignum
  import opened Float64
  import opened NearestEven
  import opened RoundTrip
  import opened DigitBounds
  import opened DigitErrors
  import opened Capacity
  import opened Doubles
  import opened Halfway
  import opened Dtoa
  import opened DtoaText
  import opened DtoaLength
  import opened Log2Radix
  import opened NumberText

  // Some number with p digits is read as b.
  ghost predicate SomeReads(radix: nat, p: nat, b: nat)
    requires radix > 0
  {
    exists c: nat, f: int :: 0 < c < Pow(radix, p) && Reads(c, f, radix, b)
  }

  // The next number above x that has p digits from the exponent e0 on.
  function NextAbove(x: real, radix: nat, p: nat, e0: int): real
    requires radix > 0
  {
    Product((Product(x, RP(radix, p - e0)).Floor + 1) as real, RP(radix, e0 - p))
  }

  // ---- Rounding to digits finds the closest ones ----

  lemma RoundClosest(z: real, k: int, n: int)
    requires n == Round(z, Nearest)
    ensures Abs(n as real - z) <= Abs(k as real - z)
  {
    var q := z.Floor;
    assert n == q || n == q + 1;
    if k <= q {
      WholeOrder(k, q);
    } else {
      WholeOrder(q + 1, k);
    }
  }

  lemma ClosestMultiple(x: real, t: real, u: real, n: int, k: int)
    requires u > 0.0 && t * u == 1.0 && n == Round(Product(x, t), Nearest)
    ensures Abs(Product(n as real, u) - x) <= Abs(Product(k as real, u) - x)
  {
    var z := Product(x, t);
    RoundClosest(z, k, n);
    UnitsOff(x, z, t, u, n as real);
    UnitsOff(x, z, t, u, k as real);
    ProductOrder(Abs(n as real - z), Abs(k as real - z), u, u, Product(Abs(n as real - z), u),
                 Product(Abs(k as real - z), u));
  }

  lemma UnitsOff(x: real, z: real, t: real, u: real, n: real)
    requires u > 0.0 && t * u == 1.0 && z == Product(x, t)
    ensures Abs(Product(n, u) - x) == Product(Abs(n - z), u)
  {
    Unscaled(x, z, t, u);
    assert (n - z) * u == n * u - z * u;
    TimesOrder(0.0, n - z, u);
    assert (z - n) * u == z * u - n * u;
  }

  lemma Unscaled(x: real, z: real, t: real, u: real)
    requires t * u == 1.0 && z == Product(x, t)
    ensures Product(z, u) == x
  {
    assert x * t * u == x * (t * u);
  }

  // A number whose last place is not behind radix^j is a multiple of that.
  lemma MultipleOf(c: nat, f: int, radix: nat, j: int) returns (k: nat)
    requires radix > 0 && f >= j
    ensures Product(c as real, RP(radix, f)) == Product(k as real, RP(radix, j)) && (c > 0 ==> k > 0)
  {
    var n: nat := f - j;
    k := c * Pow(radix, n);
    PowPos(radix, n);
    if c > 0 {
      MulPos(c, Pow(radix, n));
    }
    RPAdd(radix, n, j, f);
    ProductReal(c, Pow(radix, n));
    Regroup(c as real, Pow(radix, n) as real, RP(radix, j));
  }

  lemma Regroup(a: real, b: real, c: real)
    ensures Product(a, Product(b, c)) == Product(a * b, c)
  {
  }

  // With the last place further behind it is below a power of the radix.
  lemma BelowDigits(c: nat, f: int, radix: nat, p: nat, k: int)
    requires radix > 0 && c < Pow(radix, p) && p + f <= k
    ensures Product(c as real, RP(radix, f)) < RP(radix, k)
  {
    RPPos(radix, f);
    var w := PowersProduct(radix, p, f);
    ProductBelow(c, Pow(radix, p), RP(radix, f), w);
    RPMono(radix, p + f, k);
  }

  lemma ProductBelow(c: nat, q: nat, t: real, w: real)
    requires c < q && t > 0.0 && w == Product(q as real, t)
    ensures Product(c as real, t) < w
  {
    TimesOrder(c as real, q as real, t);
  }

  // No number with as many digits is closer to a double than its rounding.
  lemma ClosestDigits(x: real, radix: nat, p: nat, e0: int, n: nat, ex: int, c: nat, f: int)
    requires radix >= 2 && p > 0 && RP(radix, e0 - 1) <= x && Rounded(x, radix, p, e0, n, ex) && c < Pow(radix, p)
    ensures Abs(Digital(n, radix, p, ex) - x) <= Abs(Product(c as real, RP(radix, f)) - x)
  {
    if ex == e0 {
      ClosestFirst(x, radix, p, e0, n, c, f);
    } else {
      ClosestSecond(x, radix, p, e0, n, c, f);
    }
  }

  lemma ClosestFirst(x: real, radix: nat, p: nat, e0: int, n: nat, c: nat, f: int)
    requires radix >= 2 && p > 0 && RP(radix, e0 - 1) <= x && n == DigitsOf(x, radix, p, e0) && c < Pow(radix, p)
    ensures Abs(Digital(n, radix, p, e0) - x) <= Abs(Product(c as real, RP(radix, f)) - x)
  {
    var t, u := InversesOf(radix, p - e0, e0 - p);
    if f >= e0 - p {
      CloserMultiple(x, radix, n, c, f, e0 - p, t, u);
    } else {
      BelowDigits(c, f, radix, p, e0 - 1);
      CloserPower(x, radix, p, n, e0 - 1, e0 - p, t, u, Product(c as real, RP(radix, f)));
    }
  }

  lemma ClosestSecond(x: real, radix: nat, p: nat, e0: int, n: nat, c: nat, f: int)
    requires radix >= 2 && p > 0 && n == DigitsOf(x, radix, p, e0 + 1) && c < Pow(radix, p)
    requires DigitsOf(x, radix, p, e0) >= Pow(radix, p)
    ensures Abs(Digital(n, radix, p, e0 + 1) - x) <= Abs(Product(c as real, RP(radix, f)) - x)
  {
    var t, u := InversesOf(radix, p - (e0 + 1), e0 + 1 - p);
    if f >= e0 + 1 - p {
      CloserMultiple(x, radix, n, c, f, e0 + 1 - p, t, u);
    } else {
      CarriedDigits(x, radix, p, e0, c, f);
      CloserPower(x, radix, p, n, e0, e0 + 1 - p, t, u, Product(c as real, RP(radix, f)));
    }
  }

  // The rounding is closer than digits with the same last place, or in front of it,
  lemma CloserMultiple(x: real, radix: nat, n: nat, c: nat, f: int, j: int, t: real, u: real)
    requires radix > 0 && f >= j && u == RP(radix, j) && u > 0.0 && t * u == 1.0 && n == Round(Product(x, t), Nearest)
    ensures Abs(Product(n as real, u) - x) <= Abs(Product(c as real, RP(radix, f)) - x)
  {
    var k := MultipleOf(c, f, radix, j);
    ClosestMultiple(x, t, u, n, k);
  }

  // ... and than digits that are further away than a power of the radix.
  lemma CloserPower(x: real, radix: nat, p: nat, n: nat, k: int, j: int, t: real, u: real, y: real)
    requires radix >= 2 && p > 0 && j == k - (p - 1) && u == RP(radix, j) && u > 0.0 && t * u == 1.0
    requires n == Round(Product(x, t), Nearest) && (y < RP(radix, k) <= x || Abs(RP(radix, k) - x) <= Abs(y - x))
    ensures Abs(Product(n as real, u) - x) <= Abs(y - x)
  {
    var i := PowerMultiple(radix, p, k, j);
    ClosestMultiple(x, t, u, n, i);
  }

  lemma PowerMultiple(radix: nat, p: nat, k: int, j: int) returns (n: nat)
    requires radix > 0 && p > 0 && j == k - (p - 1)
    ensures n == Pow(radix, p - 1) && RP(radix, k) == Product(n as real, RP(radix, j))
  {
    n := Pow(radix, p - 1);
    var w := PowersProduct(radix, p - 1, j);
  }

  // Where rounding to the first exponent makes a digit too many, the power of the radix is closer than what is below.
  lemma CarriedDigits(x: real, radix: nat, p: nat, e0: int, c: nat, f: int)
    requires radix >= 2 && p > 0 && DigitsOf(x, radix, p, e0) >= Pow(radix, p) && c < Pow(radix, p) && f <= e0 - p
    ensures Abs(RP(radix, e0) - x) <= Abs(Product(c as real, RP(radix, f)) - x)
  {
    var t, u := InversesOf(radix, p - e0, e0 - p);
    var w := PowersProduct(radix, p, e0 - p);
    LastBelow(radix, p, e0, c, f, Pow(radix, p), u);
    CarriedBy(x, t, u, DigitsOf(x, radix, p, e0), Pow(radix, p), w, Product(c as real, RP(radix, f)));
  }

  lemma CarriedBy(x: real, t: real, u: real, n: int, q: nat, w: real, y: real)
    requires u > 0.0 && t * u == 1.0 && n == Round(Product(x, t), Nearest) && n >= q && w == Product(q as real, u)
    requires y <= Product(q as real - 1.0, u)
    ensures Abs(w - x) <= Abs(y - x)
  {
    AlmostCarried(x, t, u, n, q);
    CarriedIsClosest(x, u, q as real, w, y);
  }

  lemma AlmostCarried(x: real, t: real, u: real, n: int, q: nat)
    requires u > 0.0 && t * u == 1.0 && n == Round(Product(x, t), Nearest) && n >= q
    ensures x >= Product(q as real - 0.5, u)
  {
    var z := Product(x, t);
    WholeOrder(q, n);
    assert z >= q as real - 0.5;
    Unscaled(x, z, t, u);
    TimesOrder(q as real - 0.5, z, u);
  }

  lemma LastBelow(radix: nat, p: nat, e0: int, c: nat, f: int, q: nat, u: real)
    requires radix >= 2 && p > 0 && c < q == Pow(radix, p) && f <= e0 - p && u == RP(radix, e0 - p)
    ensures Product(c as real, RP(radix, f)) <= Product(q as real - 1.0, u)
  {
    RPPos(radix, e0 - p);
    if f == e0 - p {
      FewerUnits(c, q, u);
    } else {
      BelowDigits(c, f, radix, p, e0 - 1);
      var n := PowerMultiple(radix, p, e0 - 1, e0 - p);
      PowPos(radix, p - 1);
      MulLe(2, radix, n, n);
      FewerUnits(n, q, u);
    }
  }

  lemma FewerUnits(n: nat, q: nat, u: real)
    requires n < q && u > 0.0
    ensures Product(n as real, u) <= Product(q as real - 1.0, u)
  {
    TimesOrder(n as real, q as real - 1.0, u);
  }

  lemma CarriedIsClosest(x: real, u: real, q: real, w: real, y: real)
    requires u > 0.0 && w == Product(q, u) && y <= Product(q - 1.0, u) && x >= Product(q - 0.5, u)
    ensures Abs(w - x) <= Abs(y - x)
  {
    assert (q - 0.5) * u == q * u - 0.5 * u && (q - 1.0) * u == q * u - u;
  }

  // ---- Powers of two ----

  // Other doubles have the same gap below as above; a power of two above the smallest normal number has not.
  lemma PowerOfTwoIs(b: nat, m: nat, e: int)
    requires 0 < b < INFINITY && Unpack(b) == (m, e) && !SameGaps(b)
    ensures m == M52 && FloatValue(m, e) == Two(e - 1)
  {
    TwoAdd(e - PREC, 52);
    var n: nat := 52;
    M53Is();
    TwoNat(n);
    assert e - PREC + 52 == e - 1;
  }

  // Digits above x are not below the next number with digits from e0 on.
  lemma NotBelowNext(x: real, radix: nat, p: nat, e0: int, c: nat, f: int)
    requires radix >= 2 && RP(radix, e0 - 1) <= x < Product(c as real, RP(radix, f)) && c < Pow(radix, p)
    ensures x < NextAbove(x, radix, p, e0) <= Product(c as real, RP(radix, f))
  {
    if f < e0 - p {
      BelowDigits(c, f, radix, p, e0 - 1);
    }
    var k := MultipleOf(c, f, radix, e0 - p);
    NextIsMultiple(x, radix, p, e0, k);
  }

  lemma NextIsMultiple(x: real, radix: nat, p: nat, e0: int, k: nat)
    requires radix >= 2 && x < Product(k as real, RP(radix, e0 - p))
    ensures x < NextAbove(x, radix, p, e0) <= Product(k as real, RP(radix, e0 - p))
  {
    var t, u := InversesOf(radix, p - e0, e0 - p);
    NextMultiple(x, t, u, k);
  }

  lemma NextMultiple(x: real, t: real, u: real, k: nat)
    requires u > 0.0 && t * u == 1.0
    ensures x < Product((Product(x, t).Floor + 1) as real, u)
    ensures x < Product(k as real, u) ==> Product((Product(x, t).Floor + 1) as real, u) <= Product(k as real, u)
  {
    var z := Product(x, t);
    var n := z.Floor + 1;
    Unscaled(x, z, t, u);
    ProductOver(z, n as real, u);
    if x < Product(k as real, u) {
      ProductOver(z, k as real, u);
      assert n <= k;
      WholeOrder(n, k);
      ProductOver(n as real, k as real, u);
    }
  }

  lemma ProductOver(a: real, b: real, u: real)
    requires u > 0.0
    ensures (a <= b <==> Product(a, u) <= Product(b, u)) && (a < b <==> Product(a, u) < Product(b, u))
  {
    TimesOrder(a, b, u);
  }

  // The next number has as many digits, or is the power of the radix.
  lemma NextHasDigits(x: real, radix: nat, p: nat, e0: int) returns (c: nat, f: int)
    requires radix >= 2 && p > 0 && 0.0 < x < RP(radix, e0)
    ensures 0 < c < Pow(radix, p) && NextAbove(x, radix, p, e0) == Product(c as real, RP(radix, f))
  {
    var t, u := InversesOf(radix, p - e0, e0 - p);
    var w := PowersProduct(radix, p, e0 - p);
    var z := Product(x, t);
    AtMostPower(x, t, u, z, w, Pow(radix, p));
    c, f := z.Floor + 1, e0 - p;
    if c == Pow(radix, p) {
      PowMono(radix, 1, p);
      assert Pow(radix, 1) == radix * Pow(radix, 0);
      c, f := 1, e0;
      assert Product(1 as real, RP(radix, e0)) == RP(radix, e0);
    }
  }

  lemma AtMostPower(x: real, t: real, u: real, z: real, w: real, q: nat)
    requires u > 0.0 && t > 0.0 && t * u == 1.0 && z == Product(x, t) && 0.0 < x < w && w == Product(q as real, u)
    ensures 0 <= z.Floor < q
  {
    assert z * u == x by {
      assert x * t * u == x * (t * u);
    }
    TimesOrder(z, q as real, u);
    TimesOrder(0.0, z, u);
  }

  // ---- As few as possible ----

  // If rounding to p digits is too few, then p digits read as the double only if it is a power of two of which the
  // next number above is read as it.
  lemma FewerDigitsRead(b: nat, m: nat, e: int, radix: nat, e0: int, p: nat)
    requires Unpacked(b, m, e, radix, e0) && 1 <= p <= MaxDigits(radix) && TooFew(m, e, radix, e0, p)
    ensures SomeReads(radix, p, b)
       <==> !SameGaps(b) && IsNearest(NextAbove(ValueOf(b), radix, p, e0), b)
  {
    var x := ValueOf(b);
    UnpackIs(b);
    PackIs(m, e);
    FirstExponent(e, radix);
    LeadingPower(m, e, radix, e0);
    var n, ex := FewerDigits(m, e, radix, e0, p);
    if SomeReads(radix, p, b) {
      var c: nat, f: int :| 0 < c < Pow(radix, p) && Reads(c, f, radix, b);
      ReadsIsAbove(b, x, m, e, radix, e0, p, n, ex, c, f);
    }
    if !SameGaps(b) && IsNearest(NextAbove(x, radix, p, e0), b) {
      PowerOfTwoIs(b, m, e);
      var c, f := NextHasDigits(x, radix, p, e0);
      assert Reads(c, f, radix, b);
    }
  }

  lemma LeadingPower(m: nat, e: int, radix: nat, e0: int)
    requires Double(m, e) && radix > 0 && GoodExponent(radix, e, e0)
    ensures 0.0 < RP(radix, e0 - 1) <= FloatValue(m, e)
  {
    var n: nat := 52;
    M53Is();
    TwoNat(n);
    ScaleTwo(n, e - PREC, e - 1);
    ScaleOrder(M52 as real, m as real, e - PREC);
    RPPos(radix, e0 - 1);
  }

  lemma ReadsIsAbove(b: nat, x: real, m: nat, e: int, radix: nat, e0: int, p: nat, n: nat, ex: int, c: nat, f: int)
    requires 0 < b < INFINITY && x == ValueOf(b) == FloatValue(m, e) && Pack(m, e) == b && radix >= 2 && p > 0
    requires 0.0 < RP(radix, e0 - 1) <= x && TooFew(m, e, radix, e0, p) && Rounded(x, radix, p, e0, n, ex)
    requires 0 < c < Pow(radix, p) && Reads(c, f, radix, b)
    ensures !SameGaps(b) && IsNearest(NextAbove(x, radix, p, e0), b)
  {
    var y, z := Product(c as real, RP(radix, f)), Digital(n, radix, p, ex);
    RPPos(radix, f);
    RPPos(radix, ex - p);
    NotNegative(c as real, RP(radix, f));
    NotNegative(n as real, RP(radix, ex - p));
    ClosestDigits(x, radix, p, e0, n, ex, c, f);
    if SameGaps(b) || y <= x {
      CloserIsNearest(y, z, b, x);
    }
    NotBelowNext(x, radix, p, e0, c, f);
    CloserIsNearest(y, NextAbove(x, radix, p, e0), b, x);
  }

  // What is found has as few digits as possible just when no number with one digit less is read as the double.
  lemma FoundIsShortest(b: nat, m: nat, e: int, radix: nat, e0: int, mant: nat, p: nat, ex: int)
    requires Unpacked(b, m, e, radix, e0) && Found(m, e, radix, e0, mant, p, ex) && p > 1
    ensures SomeReads(radix, p, b)
    ensures SomeReads(radix, p - 1, b)
       <==> !SameGaps(b) && IsNearest(NextAbove(ValueOf(b), radix, p - 1, e0), b)
  {
    UnpackIs(b);
    assert Reads(mant, ex - p, radix, b);
    FewerDigitsRead(b, m, e, radix, e0, p - 1);
  }

  // ---- A power of two with a digit too many ----

  // As in DtoaText.Nine, exponents are parameters.
  lemma TenTo(k: nat)
    requires k == 23
    ensures Pow(10, k) == 100000000000000000000000 && Pow(10, k + 1) == 1000000000000000000000000
    ensures Pow(10, k - 6) == 100000000000000000 && Pow(10, k - 7) == 10000000000000000
  {
    TenDigits(10);
    PowAdd(10, 10, 6);
    PowAdd(10, 16, 1);
    PowAdd(10, 17, 6);
    assert Pow(10, 6) == 1000000 && Pow(10, 1) == 10;
    assert Pow(10, k + 1) == 10 * Pow(10, k);
  }

  lemma TwoTo78(k: nat)
    requires k == 78
    ensures Two(k) == 302231454903657293676544.0 && Two(k - 54) == 16777216.0
  {
    M53Is();
    PowAdd(2, 53, 25);
    PowAdd(2, 12, 12);
    assert Pow(2, 12) == 4096 && Pow(2, 1) == 2;
    PowAdd(2, 24, 1);
    TwoNat(78);
    TwoNat(24);
  }

  // 2^-24 is 5.9604644775390625e-8; x, u and g are 2^-24, 10^-23 and 2^-78.
  lemma Example() returns (x: real, u: real, g: real)
    ensures x == Two(-24) && u == RP(10, -23) && g == Two(-78) && 0.0 < g
    ensures x == 5960464477539062.5 * u && u / 2.0 > g && u / 2.0 < 2.0 * g
  {
    x, u, g := Two(-24), RP(10, -23), Two(-78);
    TenTo(23);
    TwoTo78(78);
    TwoInverse(24);
    TwoInverse(78);
    TwoPos(-78);
    var y, z := InversesOf(10, 23, -23);
    ExampleReals(x, u, g);
  }

  lemma ExampleReals(x: real, u: real, g: real)
    requires 16777216.0 * x == 1.0 && 100000000000000000000000.0 * u == 1.0 && 302231454903657293676544.0 * g == 1.0
    ensures x == 5960464477539062.5 * u && u / 2.0 > g && u / 2.0 < 2.0 * g
  {
  }

  const SMALL: nat := 999 * M52

  lemma ExampleDouble(e0: int)
    requires e0 == 1 + MulLog2Radix(-24, 10)
    ensures e0 == -7 && Unpacked(SMALL, M52, -23, 10, e0) && !SameGaps(SMALL) && ValueOf(SMALL) == Two(-24)
    ensures Pack(M52, -23) == SMALL && FloatValue(M52, -23) == Two(-24)
    ensures Half(SMALL) == Two(-24) + 2.0 * Two(-78) && Half(SMALL - 1) == Two(-24) - Two(-78)
  {
    UnpackIs(SMALL);
    PackIs(M52, -23);
    PowerOfTwoIs(SMALL, M52, -23);
    Gap(SMALL);
    Gap(SMALL - 1);
    TwoNext(-78);
  }

  lemma ExampleDigits(x: real, k: nat)
    requires 16777216.0 * x == 1.0 && k == 23
    ensures Round(Product(x, RP(10, k + 1)), Nearest) == 59604644775390625
    ensures Round(Product(x, RP(10, k)), Nearest) == 5960464477539062
  {
    TenTo(k);
    assert Product(x, 1000000000000000000000000.0) == 59604644775390625 as real;
    RoundInt(59604644775390625, Nearest);
    assert Product(x, 100000000000000000000000.0) == 5960464477539062.5;
    FloorIs(5960464477539062.5, 5960464477539062);
  }

  lemma ExampleRounds(e0: int)
    requires e0 == -7
    ensures DigitsOf(Two(-24), 10, 17, e0) == 59604644775390625 && DigitsOf(Two(-24), 10, 16, e0) == 5960464477539062
    ensures Pow(10, 17) == 100000000000000000 && Pow(10, 16) == 10000000000000000
  {
    TwoTo78(78);
    TwoInverse(24);
    ExampleDigits(Two(-24), 23);
    TenTo(23);
  }

  // Rounded to 16 digits it is too far below.
  lemma ExampleTooFew(e0: int)
    requires e0 == -7
    ensures TooFew(M52, -23, 10, e0, 16)
  {
    var x, u, g := Example();
    ExampleDouble(e0);
    ExampleRounds(e0);
    var z := Product(5960464477539062 as real, u);
    ExampleBelow(x, u, g, z);
    BetweenIs(z, SMALL, x - g, x + 2.0 * g);
    RoundedOnce(M52, -23, 10, e0, 16, 5960464477539062, e0);
  }

  lemma ExampleBelow(x: real, u: real, g: real, z: real)
    requires x == 5960464477539062.5 * u && u / 2.0 > g > 0.0 && z == Product(5960464477539062.0, u)
    ensures 0.0 <= z < x - g
  {
  }

  // The search does not go down to digits that are too few.
  lemma SearchStops(m: nat, e: int, radix: nat, e0: int, mant: nat, p: nat, ex: int, j: nat)
    requires 2 <= radix <= 36 && Double(m, e) && -1074 <= e - 1 <= 1023 && e0 == 1 + MulLog2Radix(e - 1, radix)
    requires Found(m, e, radix, e0, mant, p, ex) && 1 <= j <= MaxDigits(radix) && TooFew(m, e, radix, e0, j)
    ensures j < p
  {
    var n, ex1 := FewerDigits(m, e, radix, e0, j);
    assert p <= j ==> Suffices(m, e, radix, e0, j);
  }

  // All 17 digits are printed, although 16 others are read as the same double.
  lemma NotShortest(e0: int, mant: nat, p: nat, ex: int)
    requires e0 == 1 + MulLog2Radix(-24, 10) && Found(M52, -23, 10, e0, mant, p, ex)
    ensures Unpacked(SMALL, M52, -23, 10, e0) && p == 17
    ensures Reads(5960464477539063, -23, 10, SMALL) && SomeReads(10, 16, SMALL)
  {
    ExampleDouble(e0);
    ExampleTooFew(e0);
    SearchStops(M52, -23, 10, e0, mant, p, ex, 16);
    ExampleReads();
  }

  lemma ExampleReads()
    ensures Reads(5960464477539063, -23, 10, SMALL) && SomeReads(10, 16, SMALL)
  {
    var x, u, g := Example();
    ExampleDouble(-7);
    var z := Product(5960464477539063 as real, u);
    ExampleAbove(x, u, g, z);
    BetweenIs(z, SMALL, x - g, x + 2.0 * g);
    TenTo(23);
    assert Reads(5960464477539063, -23, 10, SMALL);
  }

  lemma ExampleAbove(x: real, u: real, g: real, z: real)
    requires x == 5960464477539062.5 * u && g > 0.0 && 0.0 < u / 2.0 < 2.0 * g && z == Product(5960464477539063.0, u)
    ensures x < z < x + 2.0 * g && z >= 0.0
  {
  }
}
