// The bound for the length of a text in free format that callers allocate, and why every text is within it. The only
// bound that is not plain arithmetic is that of subnormal doubles without an exponent: their zeros behind the dot are
// more than the bound counts, but then the digits are so few that the last one is not far behind 2^-1074.
module DtoaLength {
  import opened Powers
  import opened RealPowers
  import opened RadixPower
  import opened Float64
  import opened NearestEven
  import opened RoundTrip
  import opened DigitBounds
  import opened DigitErrors
  import opened Capacity
  import opened Doubles
  import opened Halfway
  import opened Dtoa
  import opened Log2Radix
  import opened DtoaText

  const SIGN: nat := 0x8000_0000_0000_0000

  // At most so many characters for the double with the bits a.
  function MaxLength(a: nat, radix: nat, mode: ExponentMode): nat
    requires 2 <= radix <= RADIX_MAX
  {
    var e := a % SIGN / M52;
    var n := if mode != Disabled then MaxDigits(radix) + 8
             else if e == 0x7ff then 0
             else MaxDigits(radix) + 10 + Magnitude(MulLog2Radix(e - 1024, radix));
    if n < 9 then 9 else n
  }

  function Magnitude(k: int): nat {
    if k < 0 then -k else k
  }

  // ---- A number close to a double ----

  lemma CloseIsNearest(y: real, a: nat)
    requires a < INFINITY && y >= 0.0 && Abs(y - ValueOf(a)) < Two(-1075)
    ensures IsNearest(y, a)
  {
    forall b: nat | b < INFINITY
      ensures Over(y, b) <==> b < a
    {
      Spacing(b);
      if b + 1 < a {
        ValueOrder(b + 1, a);
      } else if b > a {
        ValueOrder(a, b);
      }
    }
    NearestIsRank(y, a);
  }

  // Digits down to a last place below 2^-1074 are read as the double.
  lemma FineIsNearest(m: nat, e: int, radix: nat, p: nat, e0: int, mant: nat, ex: int)
    requires radix > 0 && Double(m, e) && e <= 1024 && Rounded(FloatValue(m, e), radix, p, e0, mant, ex)
    requires RP(radix, ex - p) < Two(-1074)
    ensures IsNearest(Digital(mant, radix, p, ex), Pack(m, e))
  {
    var t, u := InversesOf(radix, p - ex, ex - p);
    ErrorBound(FloatValue(m, e), mant, t, u);
    TwoNext(-1075);
    PackIs(m, e);
    TimesOrder(0.0, mant as real + 1.0, u);
    NotNegative(mant as real, u);
    CloseIsNearest(Digital(mant, radix, p, ex), Pack(m, e));
  }

  lemma NotNegative(x: real, u: real)
    requires x >= 0.0 && u > 0.0
    ensures Product(x, u) >= 0.0
  {
  }

  // ---- Logarithms ----

  lemma ExponentOrder(radix: nat, i: int, j: int)
    requires radix >= 2 && RP(radix, i) < RP(radix, j)
    ensures i < j
  {
    if i >= j {
      RPMono(radix, j, i);
    }
  }

  // The exponent of the power of the radix at or below 2^a.
  predicate IsLog(k: int, a: int, radix: nat)
    requires radix > 0
  {
    RP(radix, k) <= Two(a) < RP(radix, k + 1)
  }

  lemma LogOf(a: int, radix: nat) returns (k: int)
    requires 2 <= radix <= RADIX_MAX && -2048 <= a <= 2048
    ensures k == MulLog2Radix(a, radix) && IsLog(k, a, radix)
  {
    k := MulLog2Radix(a, radix);
    LogIsExact(a, radix);
  }

  lemma LogStep(a: int, radix: nat, i: int, j: int)
    requires radix >= 2 && IsLog(i, a - 1, radix) && IsLog(j, a, radix)
    ensures i <= j <= i + 1
  {
    TwoNext(a - 1);
    TwoPos(a - 1);
    NextPower(radix, i + 1, Two(a - 1), RP(radix, i + 1));
    ExponentOrder(radix, i, j + 1);
    ExponentOrder(radix, j, i + 2);
  }

  lemma NextPower(radix: nat, k: int, x: real, y: real)
    requires radix >= 2 && 0.0 < x < y == RP(radix, k)
    ensures 2.0 * x < RP(radix, k + 1)
  {
    RPNext(radix, k, y, RP(radix, k + 1));
    RadixTimes(radix as real, x, y);
  }

  lemma RadixTimes(r: real, x: real, y: real)
    requires r >= 2.0 && 0.0 < x < y
    ensures 2.0 * x < r * y
  {
    TimesOrder(2.0, r, y);
  }

  // A last place that is so far behind the logarithm of 2^-1024 is below 2^-1074.
  lemma LastPlaceBelow(radix: nat, p: nat, k: int)
    requires 2 <= radix <= RADIX_MAX && p == MaxDigits(radix) - 1 && IsLog(k, -1024, radix)
    ensures RP(radix, k - p) < Two(-1074)
  {
    MaxDigitsEnough(radix);
    M53Is();
    FarBelow(radix, p, k, 53);
  }

  lemma FarBelow(radix: nat, p: nat, k: int, n: nat)
    requires radix >= 2 && IsLog(k, -1024, radix) && Pow(2, n) <= Pow(radix, p) && n == 53
    ensures RP(radix, k - p) < Two(-1074)
  {
    var x, y := InversesOf(radix, p, 0 - p);
    TwoNat(n);
    var a, b := TwoInverses(n);
    InverseOrder(a, b, x, y);
    RPPos(radix, k);
    var z := PowersProduct(radix, k, 0 - p);
    var w := TwoProduct(-1024, 0 - n);
    ProductOrder(RP(radix, k), Two(-1024), y, b, z, w);
    TwoMono(-1024 - n, -1075);
    TwoNext(-1075);
    TwoPos(-1075);
  }

  lemma TwoInverses(n: nat) returns (a: real, b: real)
    ensures a == Two(n) && b == Two(0 - n) && a > 0.0 && b > 0.0 && a * b == 1.0
  {
    a, b := Two(n), Two(0 - n);
    TwoInverse(n);
    TwoPos(n);
    TwoPos(0 - n);
  }

  lemma ProductOrder(a: real, b: real, x: real, y: real, z: real, w: real)
    requires 0.0 <= a <= b && 0.0 <= x <= y && z == Product(a, x) && w == Product(b, y)
    ensures z <= w
  {
    RealMulLe(a, b, x, y);
  }

  lemma InverseOrder(a: real, b: real, x: real, y: real)
    requires a * b == 1.0 && x * y == 1.0 && 0.0 < a <= x && y > 0.0
    ensures y <= b
  {
    if y > b {
      TimesOrder(b, y, a);
      TimesOrder(a, x, y);
    }
  }

  // ---- The text fits ----

  // The first digits of a double, with the exponent that is tried first.
  ghost predicate Unpacked(b: nat, m: nat, e: int, radix: nat, e0: int) {
    && 0 < b < INFINITY && Unpack(b) == (m, e) && 2 <= radix <= RADIX_MAX && -1074 <= e - 1 <= 1023
    && e0 == 1 + MulLog2Radix(e - 1, radix)
  }

  lemma NormalFits(b: nat, m: nat, e: int, radix: nat, e0: int, p: nat, ex: int)
    requires Unpacked(b, m, e, radix, e0) && b >= M52 && 1 <= p <= MaxDigits(radix) && e0 <= ex <= e0 + 1
    ensures 1 + TextLength(p, ex, false) <= MaxLength(b, radix, Disabled)
  {
    var d := b / M52;
    assert e - 1 == d - 1023 && 1 <= d < 0x7ff;
    var k := LogOf(d - 1024, radix);
    LengthIs(b, radix, k);
    var j := LogOf(e - 1, radix);
    LogStep(e - 1, radix, k, j);
    WithinBound(p, ex, e0, k, MaxDigits(radix));
  }

  lemma WithinBound(p: nat, ex: int, e0: int, k: int, max: nat)
    requires p <= max && e0 <= ex <= e0 + 1 && k <= e0 - 1 <= k + 1
    ensures 1 + TextLength(p, ex, false) <= max + 10 + Magnitude(k)
  {
  }

  lemma SubnormalFits(b: nat, m: nat, e: int, radix: nat, e0: int, p: nat, ex: int)
    requires Unpacked(b, m, e, radix, e0) && b < M52 && 1 <= p <= MaxDigits(radix) && e0 <= ex <= e0 + 1
    requires Double(m, e) && (p == 1 || TooFew(m, e, radix, e0, p - 1))
    ensures 1 + TextLength(p, ex, false) <= MaxLength(b, radix, Disabled)
  {
    assert e <= 0;
    var k := LogOf(b / M52 - 1024, radix);
    LengthIs(b, radix, k);
    var j := LogOf(e - 1, radix);
    var mant, ex1 := FewerDigits(m, e, radix, e0, if p > 1 then p - 1 else 1);
    DigitsAreFew(m, e, radix, e0, p, ex, k, mant, ex1);
  }

  lemma LengthIs(b: nat, radix: nat, k: int)
    requires 2 <= radix <= RADIX_MAX && b < INFINITY && k == MulLog2Radix(b / M52 - 1024, radix)
    ensures MaxLength(b, radix, Disabled) == MaxDigits(radix) + 10 + Magnitude(k)
  {
    assert b % SIGN == b && b / M52 < 0x7ff;
  }

  lemma DigitsAreFew(m: nat, e: int, radix: nat, e0: int, p: nat, ex: int, k: int, mant: nat, ex1: int)
    requires 2 <= radix <= RADIX_MAX && 1 <= p <= MaxDigits(radix) && e0 <= ex <= e0 + 1 && -1073 <= e <= 0
    requires Double(m, e) && IsLog(k, -1024, radix) && IsLog(e0 - 1, e - 1, radix)
    requires p > 1 ==> TooFew(m, e, radix, e0, p - 1)
    requires p > 1 ==> e0 <= ex1 <= e0 + 1 && Rounded(FloatValue(m, e), radix, p - 1, e0, mant, ex1)
    ensures 1 + TextLength(p, ex, false) <= MaxDigits(radix) + 10 + Magnitude(k)
  {
    var d := MaxDigits(radix) - 1;
    MaxDigitsEnough(radix);
    LastPlaceBelow(radix, d, k);
    TwoMono(-1074, e - 1);
    ExponentOrder(radix, k - d, e0);
    BelowOne(radix, e, e0 - 1);
    if p > 1 {
      LastPlaceCoarse(m, e, radix, e0, p - 1, mant, ex1);
      ExponentOrder(radix, k - d, ex1 - (p - 1));
    }
  }

  lemma LastPlaceCoarse(m: nat, e: int, radix: nat, e0: int, p: nat, mant: nat, ex: int)
    requires radix > 0 && Double(m, e) && e <= 1024 && TooFew(m, e, radix, e0, p)
    requires Rounded(FloatValue(m, e), radix, p, e0, mant, ex)
    ensures RP(radix, ex - p) >= Two(-1074)
  {
    if RP(radix, ex - p) < Two(-1074) {
      FineIsNearest(m, e, radix, p, e0, mant, ex);
    }
  }

  // The logarithm of a number below 1 is negative.
  lemma BelowOne(radix: nat, e: int, k: int)
    requires radix >= 2 && e <= 0 && IsLog(k, e - 1, radix)
    ensures k < 0
  {
    TwoMono(e - 1, -1);
    TwoNext(-1);
    TwoPos(-1);
    assert Two(0) == 1.0 && RP(radix, 0) == 1.0;
    ExponentOrder(radix, k, 0);
  }

  lemma FewerDigits(m: nat, e: int, radix: nat, e0: int, p: nat) returns (mant: nat, ex: int)
    requires 2 <= radix <= RADIX_MAX && 1 <= p <= MaxDigits(radix) && Double(m, e) && -1074 <= e - 1 <= 1023
    requires e0 == 1 + MulLog2Radix(e - 1, radix)
    ensures e0 <= ex <= e0 + 1 && Rounded(FloatValue(m, e), radix, p, e0, mant, ex)
  {
    var x := FloatValue(m, e);
    var f0, f1 := DigitsOf(x, radix, p, e0), DigitsOf(x, radix, p, e0 + 1);
    FirstExponent(e, radix);
    DigitCount(m, e, radix, p, e0, f0, f1);
    if f0 < Pow(radix, p) {
      mant, ex := f0, e0;
    } else {
      mant, ex := f1, e0 + 1;
    }
  }

  // The text of a double that has digits and an exponent.
  lemma TextFits(b: nat, m: nat, e: int, radix: nat, e0: int, p: nat, ex: int, mode: ExponentMode)
    requires Unpacked(b, m, e, radix, e0) && 1 <= p <= MaxDigits(radix) && e0 <= ex <= e0 + 1
    requires Double(m, e) && (p == 1 || TooFew(m, e, radix, e0, p - 1))
    ensures 1 + TextLength(p, ex, Scientific(mode, ex, radix)) <= MaxLength(b, radix, mode)
  {
    if mode == Disabled {
      if b >= M52 {
        NormalFits(b, m, e, radix, e0, p, ex);
      } else {
        SubnormalFits(b, m, e, radix, e0, p, ex);
      }
    }
  }
}
