// Digits of a double in free format: few of them, and enough to get the double back.
module Dtoa {
  import opened Arith
  import opened Powers
  import opened RealPowers
  import opened Limbs
  import opened InvDiv
  import opened Rounding
  import opened Bignum
  import opened RadixPower
  import opened Scaling
  import opened Float64
  import opened NearestEven
  import opened RoundTrip
  import opened DigitBounds
  import opened DigitErrors
  import opened Capacity
  import opened Doubles

  // What p digits stand for when the first has weight radix^(ex - 1).
  function Digital(mant: nat, radix: nat, p: int, ex: int): real
    requires radix > 0
  {
    Product(mant as real, RP(radix, ex - p))
  }

  // What is near enough is rounded to the double.
  lemma NearIsNearest(y: real, m: nat, e: int)
    requires Double(m, e) && Near(Scale(y, PREC - e), m)
    ensures IsNearest(y, Pack(m, e))
  {
    var e0 := NearBinade(y, m, e);
    var m', e' := RoundedFrom(y, e0);
    RoundsBack(y, m, e, e0, m', e');
    PackedIsNearest(y, e0, m, e);
  }

  lemma NearBinade(y: real, m: nat, e: int) returns (e0: int)
    requires Double(m, e) && Near(Scale(y, PREC - e), m)
    ensures Binade(y, e0)
  {
    var z := Scale(y, PREC - e);
    M53Is();
    TwoNat(52);
    TwoNat(53);
    if z >= (M53 / 2) as real {
      AboveIs(y, m, e, z);
      e0 := e;
    } else {
      BelowIs(y, e, z);
      e0 := e - 1;
    }
  }

  // Rounding always has a result.
  lemma RoundedFrom(y: real, e0: int) returns (m: nat, e: int)
    requires Binade(y, e0)
    ensures RoundedAt(y, e0, Nearest, m, e)
  {
    var prec := Precision(e0);
    RoundBound(y, e0, prec, Nearest);
    var m0 := RoundScale(y, prec - e0, Nearest) * Pow(2, PREC - prec);
    m, e := if m0 >= M53 then m0 / 2 else m0, if m0 >= M53 then e0 + 1 else e0;
  }

  // ---- One try ----

  // A double and the radix in which it is printed, which is r1 * 2^s.
  ghost predicate Printable(m: nat, e: int, radix: nat, r1: nat, s: nat, e0: int) {
    Split(radix, r1, s) && Double(m, e) && e <= 1024 && GoodExponent(radix, e, e0)
  }

  // The scaled and rounded double is its digits.
  lemma DigitsAre(m: nat, e: int, radix: nat, r1: nat, s: nat, p: int, ex: int)
    requires r1 > 0 && radix == r1 * Pow(2, s) && radix > 0
    ensures RoundTimes(m, r1, p - ex, (p - ex) * s + (e - PREC), Nearest) == DigitsOf(FloatValue(m, e), radix, p, ex)
  {
    FullRadix(m, r1, s, p - ex, radix);
    RoundScaleAdd(Times(m, r1, p - ex), (p - ex) * s, e - PREC, Nearest);
    ScaledProduct(m as real, RP(radix, p - ex), e - PREC);
  }

  lemma ScaledProduct(a: real, b: real, k: int)
    ensures RoundScale(Product(a, b), k, Nearest) == Round(Product(Scale(a, k), b), Nearest)
  {
    assert a * b * Two(k) == a * Two(k) * b;
  }

  // Powers with few enough digits fit in 64 bits, even twice.
  lemma DigitsFit64(radix: nat, p: nat)
    requires 2 <= radix <= RADIX_MAX && p <= MaxDigits(radix)
    ensures 2 * Pow(radix, p) < B2
  {
    MaxDigitsEnough(radix);
    PowMono(radix, p, MaxDigits(radix));
  }

  method PowFits(radix: nat, p: nat) returns (r: nat)
    requires radix < B && p < B && Pow(radix, p) < B2
    ensures r == Pow(radix, p)
  {
    r := PowUi(radix, p);
  }

  method DigitsAt(r: Mpb, m: nat, e: int, radix: nat, r1: nat, s: nat, p: nat, e0: int, ex: int,
                  ghost f: int) returns (n: nat)
    requires Printable(m, e, radix, r1, s, e0) && 1 <= p <= MaxDigits(radix) && r.Valid() && r.tab.Length == LEN_MAX
    requires e0 <= ex <= e0 + 1 && f == DigitsOf(FloatValue(m, e), radix, p, ex) && 0 <= f < B2
    modifies r`len, r.tab
    ensures r.Valid() && n == f
  {
    PrintingFits(radix, r1, s, e, e0, p, ex);
    DigitsAre(m, e, radix, r1, s, p, ex);
    SmallDouble(m, e);
    MulPowRound(r, m, e - PREC, r1, s, p - ex, Nearest);
    Fits64(f);
    n := r.GetU64();
  }

  lemma SmallDouble(m: nat, e: int)
    requires Double(m, e)
    ensures 0 < m < B2
  {
  }

  lemma Fits64(f: int)
    requires 0 <= f < B2
    ensures f % (B * B) == f
  {
  }

  // p digits of x, with the exponent e0, or with the next one where that makes too many digits.
  predicate Chosen(x: real, radix: nat, p: nat, e0: int, mant: nat, ex: int)
    requires radix > 0
  {
    mant == DigitsOf(x, radix, p, ex) && (ex == e0 || (ex == e0 + 1 && DigitsOf(x, radix, p, e0) >= Pow(radix, p)))
  }

  lemma Tries(m: nat, e: int, radix: nat, r1: nat, s: nat, p: nat, e0: int) returns (f0: int, f1: int)
    requires Printable(m, e, radix, r1, s, e0) && 1 <= p <= MaxDigits(radix)
    ensures f0 == DigitsOf(FloatValue(m, e), radix, p, e0) && f1 == DigitsOf(FloatValue(m, e), radix, p, e0 + 1)
    ensures 1 <= f0 < B2 && Pow(radix, p) < B2 && (f0 >= Pow(radix, p) ==> 1 <= f1 < Pow(radix, p))
  {
    var x := FloatValue(m, e);
    f0, f1 := DigitsOf(x, radix, p, e0), DigitsOf(x, radix, p, e0 + 1);
    DigitsFit64(radix, p);
    DigitCount(m, e, radix, p, e0, f0, f1);
  }

  // p digits of a double.
  method RoundToDigits(r: Mpb, m: nat, e: int, radix: nat, r1: nat, s: nat, p: nat, e0: int)
    returns (mant: nat, ex: int)
    requires Printable(m, e, radix, r1, s, e0) && 1 <= p <= MaxDigits(radix) && r.Valid() && r.tab.Length == LEN_MAX
    modifies r`len, r.tab
    ensures r.Valid() && 0 < mant < Pow(radix, p) && Chosen(FloatValue(m, e), radix, p, e0, mant, ex)
  {
    ghost var f0, f1 := Tries(m, e, radix, r1, s, p, e0);
    var mantMax := PowFits(radix, p);
    ex := e0;
    while true
      invariant r.Valid() && (ex == e0 || (ex == e0 + 1 && f0 >= Pow(radix, p)))
      decreases e0 + 1 - ex
    {
      mant := DigitsAt(r, m, e, radix, r1, s, p, e0, ex, if ex == e0 then f0 else f1);
      if mant < mantMax {
        break;
      }
      ex := ex + 1;
    }
  }

  // ---- Zeros at the end ----

  lemma ZeroDropped(mant: nat, radix: nat, p: int, ex: int)
    requires radix > 0 && mant % radix == 0
    ensures Digital(mant / radix, radix, p - 1, ex) == Digital(mant, radix, p, ex)
  {
    var q, z := Parts(mant, radix);
    RPNext(radix, ex - p, RP(radix, ex - p), RP(radix, ex - (p - 1)));
    ProductReal(q, radix);
    ZeroProduct(mant as real, q as real, radix as real, RP(radix, ex - p), RP(radix, ex - (p - 1)));
  }

  lemma ZeroProduct(m: real, q: real, r: real, x: real, y: real)
    requires m == q * r && y == r * x
    ensures Product(q, y) == Product(m, x)
  {
    assert q * (r * x) == (q * r) * x;
  }

  method DropZeros(mant0: nat, p0: nat, radix: nat, ex: int) returns (mant: nat, p: nat)
    requires radix >= 2 && 0 < mant0 < Pow(radix, p0)
    ensures 1 <= p <= p0 && 0 < mant < Pow(radix, p) && mant % radix != 0
    ensures Digital(mant, radix, p, ex) == Digital(mant0, radix, p0, ex) && mant * Pow(radix, p0 - p) == mant0
    ensures mant0 % radix != 0 ==> p == p0
  {
    mant, p := mant0, p0;
    assert mant * Pow(radix, 0) == mant0;
    while mant % radix == 0
      invariant p <= p0 && 0 < mant < Pow(radix, p)
      invariant Digital(mant, radix, p, ex) == Digital(mant0, radix, p0, ex) && mant * Pow(radix, p0 - p) == mant0
      invariant mant0 % radix != 0 ==> p == p0 && mant == mant0
      decreases mant
    {
      assert p > 0;
      ZeroDropped(mant, radix, p, ex);
      OneLess(mant, radix, p, Pow(radix, p0 - p));
      mant, p := mant / radix, p - 1;
    }
  }

  lemma OneLess(mant: nat, radix: nat, p: nat, z: nat)
    requires radix >= 2 && p > 0 && 0 < mant < Pow(radix, p) && mant % radix == 0
    ensures 0 < mant / radix < mant && mant / radix < Pow(radix, p - 1) && (mant / radix) * (radix * z) == mant * z
  {
    var q, m := Parts(mant, radix);
    DivBelow(mant, radix, Pow(radix, p - 1));
    Assoc3(q, radix, z);
    if q >= mant {
      MulLe(mant, q, 2, radix);
    }
  }

  // ---- The search ----

  // x rounded to p digits.
  predicate Rounded(x: real, radix: nat, p: nat, e0: int, mant: nat, ex: int)
    requires radix > 0
  {
    Chosen(x, radix, p, e0, mant, ex) && mant < Pow(radix, p)
  }

  // Digits that stand for the double: it is rounded to p of them, and they are read as it.
  ghost predicate Prints(m: nat, e: int, radix: nat, e0: int, mant: nat, p: nat, ex: int)
    requires 2 <= radix <= RADIX_MAX
  {
    && 1 <= p <= MaxDigits(radix) && 0 < mant < Pow(radix, p) && mant % radix != 0
    && Rounded(FloatValue(m, e), radix, p, e0, mant, ex) && IsNearest(Digital(mant, radix, p, ex), Pack(m, e))
  }

  // The double rounded to so many digits is read as another one.
  ghost predicate TooFew(m: nat, e: int, radix: nat, e0: int, p: nat)
    requires radix > 0
  {
    forall mant: nat, ex :: Rounded(FloatValue(m, e), radix, p, e0, mant, ex) ==>
                              !IsNearest(Digital(mant, radix, p, ex), Pack(m, e))
  }

  lemma RoundedOnce(m: nat, e: int, radix: nat, e0: int, p: nat, mant: nat, ex: int)
    requires radix > 0 && Rounded(FloatValue(m, e), radix, p, e0, mant, ex)
    requires !IsNearest(Digital(mant, radix, p, ex), Pack(m, e))
    ensures TooFew(m, e, radix, e0, p)
  {
  }

  // The double rounded to so many digits is read as it.
  ghost predicate Suffices(m: nat, e: int, radix: nat, e0: int, p: nat)
    requires radix > 0
  {
    forall mant: nat, ex :: Rounded(FloatValue(m, e), radix, p, e0, mant, ex) ==>
                              IsNearest(Digital(mant, radix, p, ex), Pack(m, e))
  }

  // It is for all numbers of digits from p to q.
  ghost predicate AllSuffice(m: nat, e: int, radix: nat, e0: int, p: nat, q: nat)
    requires radix > 0
  {
    forall j: nat :: p <= j <= q ==> Suffices(m, e, radix, e0, j)
  }

  lemma RoundedSuffices(m: nat, e: int, radix: nat, e0: int, p: nat, mant: nat, ex: int)
    requires radix > 0 && Rounded(FloatValue(m, e), radix, p, e0, mant, ex)
    requires IsNearest(Digital(mant, radix, p, ex), Pack(m, e))
    ensures Suffices(m, e, radix, e0, p)
  {
  }

  // What the search finds: as many digits as are needed for these and any more, up to the most, to be read as the
  // double.
  ghost predicate Found(m: nat, e: int, radix: nat, e0: int, mant: nat, p: nat, ex: int)
    requires 2 <= radix <= RADIX_MAX
  {
    && Prints(m, e, radix, e0, mant, p, ex) && (p == 1 || TooFew(m, e, radix, e0, p - 1))
    && AllSuffice(m, e, radix, e0, p, MaxDigits(radix))
  }

  // ---- Rounding to fewer digits ----

  lemma RoundAtLeast(z: real, n: int)
    requires z > n as real - 0.5
    ensures Round(z, Nearest) >= n
  {
    var q := z.Floor;
    if q < n {
      WholeOrder(q, n - 1);
    }
  }

  lemma RoundedFromHalf(z: real, n: int)
    requires Round(z, Nearest) >= n
    ensures z >= n as real - 0.5
  {
    if z < n as real - 0.5 {
      WholeOrder(z.Floor + 1, n);
    }
  }

  lemma WholeOrder(a: int, b: int)
    requires a <= b
    ensures a as real <= b as real
  {
  }

  // A number whose multiple rounds to a multiple rounds to it.
  lemma RoundPart(y: real, z: real, r: nat, k: nat)
    requires r >= 2 && z == r as real * y && Round(z, Nearest) == k * r
    ensures Round(y, Nearest) == k
  {
    ProductReal(k, r);
    assert Abs(z - (k * r) as real) <= 0.5;
    CloseQuotient(y, r as real, k as real);
    CloseRounds(y, k);
  }

  lemma CloseQuotient(y: real, r: real, k: real)
    requires r >= 2.0 && Abs(r * y - k * r) <= 0.5
    ensures Abs(y - k) <= 0.25
  {
    assert r * y - k * r == Product(y - k, r);
    SmallFactor(y - k, r, Product(y - k, r));
  }

  lemma SmallFactor(d: real, r: real, x: real)
    requires r >= 2.0 && x == Product(d, r) && Abs(x) <= 0.5
    ensures Abs(d) <= 0.25
  {
    TimesOrder(0.25, d, r);
    TimesOrder(d, -0.25, r);
    assert (-0.25) * r == 0.0 - 0.25 * r;
  }

  lemma CloseRounds(y: real, k: int)
    requires Abs(y - k as real) <= 0.25
    ensures Round(y, Nearest) == k
  {
    if y.Floor < k - 1 {
      WholeOrder(y.Floor + 1, k - 1);
    }
  }

  lemma CarriedPart(y: real, z: real, r: nat, k: nat)
    requires r >= 2 && z == r as real * y && Round(z, Nearest) >= k * r
    ensures Round(y, Nearest) >= k
  {
    ProductReal(k, r);
    RoundedFromHalf(z, k * r);
    if y <= k as real - 0.5 {
      TimesOrder(y, k as real - 0.5, r as real);
    }
    RoundAtLeast(y, k);
  }

  // Digits that end with zeros are the rounding to the digits without some of them too.
  lemma RoundedShorter(x: real, radix: nat, q: nat, e0: int, n: nat, ex: int, j: nat, k: nat)
    requires radix >= 2 && Rounded(x, radix, q, e0, n, ex) && j <= q && n == k * Pow(radix, q - j)
    ensures Rounded(x, radix, j, e0, k, ex)
  {
    if j < q {
      DigitsShorter(x, radix, q, ex, n, j, k);
      PowAdd(radix, j, q - j);
      if ex == e0 + 1 {
        CarriedShorter(x, radix, q, e0, j);
      }
      if k >= Pow(radix, j) {
        MulLe(Pow(radix, j), k, Pow(radix, q - j), Pow(radix, q - j));
      }
    }
  }

  lemma PartOf(x: real, radix: nat, q: nat, ex: int, j: nat) returns (y: real, z: real, r: nat)
    requires radix >= 2 && j < q
    ensures y == Product(x, RP(radix, j - ex)) && z == Product(x, RP(radix, q - ex)) && r == Pow(radix, q - j)
    ensures r >= 2 && z == r as real * y
  {
    y, z, r := Product(x, RP(radix, j - ex)), Product(x, RP(radix, q - ex)), Pow(radix, q - j);
    RPAdd(radix, q - j, j - ex, q - ex);
    PartBy(x, RP(radix, j - ex), r as real);
    PowPos(radix, q - j - 1);
    MulLe(2, radix, 1, Pow(radix, q - j - 1));
  }

  lemma PartBy(x: real, t: real, r: real)
    ensures Product(x, Product(r, t)) == r * Product(x, t)
  {
    assert x * (r * t) == r * (x * t);
  }

  lemma DigitsShorter(x: real, radix: nat, q: nat, ex: int, n: nat, j: nat, k: nat)
    requires radix >= 2 && n == DigitsOf(x, radix, q, ex) && j < q && n == k * Pow(radix, q - j)
    ensures k == DigitsOf(x, radix, j, ex)
  {
    var y, z, r := PartOf(x, radix, q, ex, j);
    RoundPart(y, z, r, k);
  }

  lemma CarriedShorter(x: real, radix: nat, q: nat, e0: int, j: nat)
    requires radix >= 2 && j < q && DigitsOf(x, radix, q, e0) >= Pow(radix, q)
    ensures DigitsOf(x, radix, j, e0) >= Pow(radix, j)
  {
    var y, z, r := PartOf(x, radix, q, e0, j);
    PowAdd(radix, j, q - j);
    CarriedPart(y, z, r, Pow(radix, j));
  }

  // So they all are read as the double when one of them is.
  lemma ShorterSuffice(m: nat, e: int, radix: nat, e0: int, q: nat, n: nat, ex: int, mant: nat, p: nat)
    requires radix >= 2 && Rounded(FloatValue(m, e), radix, q, e0, n, ex) && p <= q && n == mant * Pow(radix, q - p)
    requires IsNearest(Digital(mant, radix, p, ex), Pack(m, e))
    ensures AllSuffice(m, e, radix, e0, p, q) && Rounded(FloatValue(m, e), radix, p, e0, mant, ex)
  {
    forall j: nat | p <= j <= q
      ensures Suffices(m, e, radix, e0, j)
    {
      var k := WithZeros(mant, radix, p, j, q, ex);
      RoundedShorter(FloatValue(m, e), radix, q, e0, n, ex, j, k);
      RoundedSuffices(m, e, radix, e0, j, k, ex);
    }
    RoundedShorter(FloatValue(m, e), radix, q, e0, n, ex, p, mant);
  }

  lemma WithZeros(mant: nat, radix: nat, p: nat, j: nat, q: nat, ex: int) returns (k: nat)
    requires radix > 0 && p <= j <= q
    ensures k * Pow(radix, q - j) == mant * Pow(radix, q - p) && Digital(k, radix, j, ex) == Digital(mant, radix, p, ex)
  {
    k := mant * Pow(radix, j - p);
    PowAdd(radix, j - p, q - j);
    Assoc3(mant, Pow(radix, j - p), Pow(radix, q - j));
    RPAdd(radix, j - p, ex - j, ex - p);
    ProductReal(mant, Pow(radix, j - p));
    Reassociated(mant as real, Pow(radix, j - p) as real, RP(radix, ex - j));
  }

  lemma Reassociated(a: real, b: real, c: real)
    ensures Product(a * b, c) == Product(a, Product(b, c))
  {
  }

  // All digits always work.
  lemma AllDigitsWork(m: nat, e: int, radix: nat, r1: nat, s: nat, e0: int, mant: nat, ex: int)
    requires Printable(m, e, radix, r1, s, e0) && Chosen(FloatValue(m, e), radix, MaxDigits(radix), e0, mant, ex)
    ensures IsNearest(Digital(mant, radix, MaxDigits(radix), ex), Pack(m, e))
  {
    var p := MaxDigits(radix);
    MaxDigitsEnough(radix);
    if ex == e0 {
      FirstNear(m, e, radix, p, e0, mant);
    } else {
      SecondNear(m, e, radix, p, e0, DigitsOf(FloatValue(m, e), radix, p, e0), mant);
    }
    NearIsNearest(Digital(mant, radix, p, ex), m, e);
  }

  // One round of the search: i digits without the zeros at the end, and whether they read back as the double. The first
  // round is not in doubt.
  method Try(r: Mpb, m: nat, e: int, radix: nat, r1: nat, s: nat, e0: int, i: nat, first: bool)
    returns (mant: nat, p: nat, ex: int, same: bool)
    requires Printable(m, e, radix, r1, s, e0) && r.Valid() && r.tab.Length == LEN_MAX
    requires 1 <= i <= MaxDigits(radix) && (first ==> i == MaxDigits(radix))
    modifies r`len, r.tab
    ensures r.Valid() && (first ==> same)
    ensures if same then p <= i && Prints(m, e, radix, e0, mant, p, ex) && AllSuffice(m, e, radix, e0, p, i)
            else TooFew(m, e, radix, e0, i)
  {
    var mant0;
    mant0, ex := RoundToDigits(r, m, e, radix, r1, s, i, e0);
    mant, p := DropZeros(mant0, i, radix, ex);
    if first {
      same := true;
      AllDigitsWork(m, e, radix, r1, s, e0, mant0, ex);
    } else {
      same := CheckBack(r, m, e, radix, r1, s, e0, mant, p, ex);
    }
    if same {
      ShorterSuffice(m, e, radix, e0, i, mant0, ex, mant, p);
    } else {
      RoundedOnce(m, e, radix, e0, i, mant0, ex);
    }
  }

  // Digits and exponent in free format: from the most digits on down, as long as they read back as the double.
  method FreeFormat(r: Mpb, m: nat, e: int, radix: nat, r1: nat, s: nat, e0: int) returns (mant: nat, p: nat, ex: int)
    requires Printable(m, e, radix, r1, s, e0) && r.Valid() && r.tab.Length == LEN_MAX
    modifies r`len, r.tab
    ensures r.Valid() && Found(m, e, radix, e0, mant, p, ex)
  {
    mant, p, ex := 0, 0, 0;
    var i := MaxDigits(radix);
    MaxDigitsEnough(radix);
    while true
      invariant r.Valid() && 1 <= i <= MaxDigits(radix)
      invariant if p == 0 then i == MaxDigits(radix)
                else i == p - 1 && Prints(m, e, radix, e0, mant, p, ex)
                     && AllSuffice(m, e, radix, e0, p, MaxDigits(radix))
      decreases i
    {
      var mant1, p1, ex1, same := Try(r, m, e, radix, r1, s, e0, i, p == 0);
      if !same {
        break;
      }
      p, ex, mant := p1, ex1, mant1;
      if p1 == 1 {
        break;
      }
      i := p1 - 1;
    }
  }

  // A number rounds to a double just when that is the nearest one.
  lemma RoundedBack(y: real, e0: int, m1: nat, e1: int, m: nat, e: int)
    requires RoundedAt(y, e0, Nearest, m1, e1) && Double(m, e) && e <= 1024
    ensures m1 == m && e1 == e <==> IsNearest(y, Pack(m, e))
  {
    PackedIsNearest(y, e0, m1, e1);
    if IsNearest(y, Pack(m, e)) {
      NearestUnique(y, Pack(m1, e1), Pack(m, e));
      RoundedIsDouble(y, e0, m1, e1);
      PackIs(m, e);
      SameBits(m1, e1, m, e);
    }
  }

  // Different mantissas and exponents make different bits.
  lemma SameBits(m1: nat, e1: int, m: nat, e: int)
    requires (m1 == 0 || Double(m1, e1)) && Double(m, e) && e <= 1024 && Pack(m1, e1) == Pack(m, e)
    ensures m1 == m && e1 == e
  {
    PackIs(m, e);
    TwoPos(e - PREC);
    TimesOrder(0.0, m as real, Two(e - PREC));
    ZeroValue();
    if m1 != 0 && e1 <= 1024 {
      PackIs(m1, e1);
      if e1 < e {
        SmallerExponent(m1, e1, m, e);
      } else if e < e1 {
        SmallerExponent(m, e, m1, e1);
      } else if m1 < m {
        ScaleOrder(m1 as real, m as real, e - PREC);
      } else if m < m1 {
        ScaleOrder(m as real, m1 as real, e - PREC);
      }
    }
  }

  lemma SmallerExponent(m1: nat, e1: int, m: nat, e: int)
    requires Double(m1, e1) && Double(m, e) && e1 < e
    ensures FloatValue(m1, e1) < FloatValue(m, e)
  {
    TwoNext(e1 - PREC);
    TwoPos(e1 - PREC);
    TwoMono(e1 - PREC + 1, e - PREC);
    LessScaled(m1, m, Two(e1 - PREC), Two(e - PREC));
  }

  lemma LessScaled(m1: nat, m: nat, t: real, s: real)
    requires 0.0 < t && 2.0 * t <= s && m1 < 2 * m
    ensures m1 as real * t < m as real * s
  {
    DoubleUnit(m1, m, t);
    Raise(m as real, 2.0 * t, s, m1 as real * t);
  }

  lemma Raise(m: real, u: real, s: real, x: real)
    requires m >= 0.0 && u <= s && x < m * u
    ensures x < m * s
  {
    assert m * s - m * u == m * (s - u);
    assert m * (s - u) >= 0.0;
  }

  // Do the digits convert back to the double?
  method CheckBack(r: Mpb, m: nat, e: int, radix: nat, r1: nat, s: nat, e0: int, mant: nat, p: nat,
                   ex: int) returns (same: bool)
    requires Printable(m, e, radix, r1, s, e0) && 1 <= p <= MaxDigits(radix) && r.Valid() && r.tab.Length == LEN_MAX
    requires 0 < mant < Pow(radix, p) && e0 <= ex <= e0 + 1
    modifies r`len, r.tab
    ensures r.Valid() && (same <==> IsNearest(Digital(mant, radix, p, ex), Pack(m, e)))
  {
    DigitsFit64(radix, p);
    r.SetU64(mant);
    ParsingFits(radix, r1, s, e, e0, p, ex);
    FullRadix(mant, r1, s, ex - p, radix);
    var m1, e1;
    ghost var e2;
    m1, e1, e2 := MulPowRoundToD(r, r1, s, ex - p, Nearest);
    same := m1 == m && e1 == e;
    RoundedBack(Digital(mant, radix, p, ex), e2, m1, e1, m, e);
  }
}
