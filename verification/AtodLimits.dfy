// Where the conversion of text to a double does not give the nearest double: sizes beyond 32 bits, and digits that are
// left out.
module AtodLimits {
  import opened Arith
  import opened Powers
  import opened RealPowers
  import opened RadixPower
  import opened Bignum
  import opened Float64
  import opened NearestEven
  import opened Capacity
  import opened Doubles
  import opened Halfway
  import opened Digits
  import opened AtodTables
  import opened Numerals
  import opened AtodRounding
  import opened Log2Radix
  import opened Atod

  // What Parse gives.
  predicate WellFormed(x: Numeral, radix: nat) {
    && x.Numeral? && 2 <= radix <= RADIX_MAX && AllDigits(x.digits, radix) && Significant(x.digits) != ""
    && (x.binary ==> PowerOfTwo(radix))
  }

  // ---- The size of a numeral, and of one that has been turned ----

  // The powers around numbers of a size.
  function Low(radix: nat, size: int): real
    requires 2 <= radix <= RADIX_MAX
  {
    if PowerOfTwo(radix) then Two(size - RadixBits(radix)) else RP(radix, size - 1)
  }

  function High(radix: nat, size: int): real
    requires 2 <= radix <= RADIX_MAX
  {
    if PowerOfTwo(radix) then Two(size) else RP(radix, size)
  }

  predicate HasSize(x: real, radix: nat, size: int)
    requires 2 <= radix <= RADIX_MAX
  {
    Low(radix, size) <= x < High(radix, size)
  }

  lemma ValueBySize(x: Numeral, radix: nat)
    requires WellFormed(x, radix)
    ensures HasSize(Value(x, radix), radix, Size(x, radix))
  {
    SignificantDigits(x.digits, radix);
    if PowerOfTwo(radix) {
      SignificantNumber(x.digits, radix);
      BinarySize(Significant(x.digits), x.fraction, x.expn, x.binary, radix);
    } else {
      OtherSize(x.digits, |Significant(x.digits)|, x.fraction, x.expn, radix);
    }
  }

  lemma BinarySize(t: string, fraction: nat, expn: int, binary: bool, radix: nat)
    requires PowerOfTwo(radix) && AllDigits(t, radix) && t != "" && ToDigit(t[0]) != 0
    ensures HasSize(Literal(NumberOf(t, radix), fraction, expn, binary, radix), radix,
                    TopExponent(|t|, fraction, expn, binary, radix))
  {
    var k := RadixBits(radix);
    var e := if binary then expn else expn * k;
    var y := Literal(NumberOf(t, radix), fraction, expn, binary, radix);
    var size := TopExponent(|t|, fraction, expn, binary, radix);
    BinaryLiteral(NumberOf(t, radix), fraction, expn, binary, radix, k);
    SizeSteps(e, |t|, fraction, |t|, fraction, k);
    assert y == Scale(NumberOf(t, radix) as real, size - |t| * k);
    BinaryMagnitude(t, radix, k, size, y);
  }

  lemma OtherSize(digits: string, l: nat, fraction: nat, expn: int, radix: nat)
    requires 2 <= radix <= RADIX_MAX && !PowerOfTwo(radix) && AllDigits(digits, radix) && l == |Significant(digits)| > 0
    ensures HasSize(Literal(KeptNumber(digits, radix), fraction, expn, false, radix), radix, expn + l - fraction)
  {
    var n, count, kept := FirstDigits(digits, radix, l);
    OtherSizeBy(n, l, count, fraction, expn, radix, kept);
  }

  lemma FirstDigits(digits: string, radix: nat, l: nat) returns (n: nat, count: nat, kept: nat)
    requires 2 <= radix <= RADIX_MAX && !PowerOfTwo(radix) && AllDigits(digits, radix) && l == |Significant(digits)| > 0
    ensures kept == KeptNumber(digits, radix) && 0 < count <= l && kept == n * Pow(radix, l - count)
    ensures Pow(radix, count - 1) <= n < Pow(radix, count)
  {
    var t := Significant(digits);
    SignificantDigits(digits, radix);
    KeptAgain(digits, radix);
    count := Min(l, AtodMaxDigits(radix));
    n, kept := NumberOf(t[..count], radix), KeptNumber(digits, radix);
    KeptOf("", t, radix, count);
    assert "" + t == t;
    assert t[..count][0] == t[0];
    LeadingDigit(t[..count], radix);
  }

  lemma OtherSizeBy(n: nat, l: nat, count: nat, fraction: nat, expn: int, radix: nat, kept: nat)
    requires 2 <= radix <= RADIX_MAX && !PowerOfTwo(radix) && 0 < count <= l
    requires Pow(radix, count - 1) <= n < Pow(radix, count)
    requires kept == n * Pow(radix, l - count)
    ensures HasSize(Literal(kept, fraction, expn, false, radix), radix, expn + l - fraction)
  {
    OtherLiteral(n, l - count, fraction, expn, radix);
    var f := expn - (fraction - (l - count));
    Magnitude(n, radix, count, f);
    assert f + count == expn + l - fraction;
  }

  lemma KeptAgain(digits: string, radix: nat)
    requires 2 <= radix <= RADIX_MAX
    ensures KeptNumber(Significant(digits), radix) == KeptNumber(digits, radix)
    ensures Significant(Significant(digits)) == Significant(digits)
  {
    SignificantAgain(digits);
    SignificantNumber(digits, radix);
  }

  lemma {:induction false} SignificantAgain(digits: string)
    ensures Significant(Significant(digits)) == Significant(digits)
  {
    if digits != "" && digits[0] == '0' {
      SignificantAgain(digits[1..]);
    }
  }

  lemma TurnedBySize(x: real, radix: nat, size: int, d: int)
    requires 2 <= radix <= RADIX_MAX && HasSize(x, radix, size)
    ensures HasSize(Turned(x, radix, d), radix, size + d)
  {
    if PowerOfTwo(radix) {
      MagnitudeBy(x, size - RadixBits(radix), size, d);
    } else {
      var lo := PowersProduct(radix, size - 1, d);
      var hi := PowersProduct(radix, size, d);
      RPPos(radix, d);
      assert size - 1 + d == size + d - 1;
      Between(RP(radix, size - 1), x, RP(radix, size), RP(radix, d), lo, hi);
    }
  }

  // Sizes at the ends of the 32-bit range and beyond.
  lemma LargeSize(radix: nat, size: int, x: real)
    requires 2 <= radix <= RADIX_MAX && size >= 2000 && x >= Low(radix, size)
    ensures x >= Two(1024)
  {
    if PowerOfTwo(radix) {
      TwoMono(1024, size - RadixBits(radix));
    } else {
      OtherLimits(radix);
      OverLimit(radix, size - 1, x);
    }
  }

  lemma SmallSize(radix: nat, size: int, x: real)
    requires 2 <= radix <= RADIX_MAX && size <= -2000 && HasSize(x, radix, size)
    ensures 0.0 < x < Two(-1075)
  {
    if PowerOfTwo(radix) {
      TwoMono(size, -1075);
      TwoPos(size - RadixBits(radix));
    } else {
      OtherLimits(radix);
      UnderLimit(radix, size, x);
      RPPos(radix, size - 1);
    }
  }

  // ---- Where 32 bits are not enough ----

  // Numbers that round to zero.
  lemma ZeroIsNearest(x: real)
    requires x >= 0.0
    ensures IsNearest(x, 0) <==> x <= Two(-1075)
  {
    TwoNext(-1075);
    TwoPos(-1075);
    ZeroValue();
    OneValue();
    if x <= Two(-1075) {
      if x < Two(-1075) {
        TinyIsZero(x);
      } else {
        TieIsZero(x);
      }
    } else if x < Overflow() {
      assert !NoNearer(x, 0, 1);
    }
  }

  lemma OneValue()
    ensures ValueOf(1) == Two(Q_MIN)
  {
    OneTimes(Two(Q_MIN), Two(Q_MIN));
  }

  lemma TieIsZero(x: real)
    requires x == Two(-1075)
    ensures IsNearest(x, 0)
  {
    TwoMono(-1075, 969);
    TwoNext(969);
    TwoPos(969);
    ScaleOrder(1.0, (2 * M53 - 1) as real, 970);
    OneTimes(Two(970), Two(970));
    TwoNext(-1075);
    TwoPos(-1075);
    ZeroValue();
    forall b: nat | b < INFINITY
      ensures NoNearer(x, 0, b)
    {
      if b > 0 {
        LeastValue(b);
      }
    }
  }

  // A size beyond 32 bits comes out right only if what is left of it is as large, or as small.
  lemma WrapsRight(x: Numeral, radix: nat, a: nat)
    requires WellFormed(x, radix) && Wraps(x, radix) && IsResult(x, radix, Bits(a))
    ensures IsNearest(Value(x, radix), a)
       <==> var w := Wrapped(Value(x, radix), radix, Size(x, radix));
            if Size(x, radix) > 0 then w >= Overflow() else w <= Two(-1075)
  {
    var v, size := Value(x, radix), Size(x, radix);
    var w := Wrapped(v, radix, size);
    ValueBySize(x, radix);
    TurnedBySize(v, radix, size, Int32(size) - size);
    LowPositive(radix, Int32(size));
    OutOfRange(size);
    if size > 0 {
      LargeSize(radix, size, v);
      BigIsInfinite(v);
      if a != INFINITY && IsNearest(v, a) {
        NearestUnique(v, a, INFINITY);
      }
    } else {
      SmallSize(radix, size, v);
      TinyIsZero(v);
      ZeroIsNearest(w);
      if IsNearest(v, a) {
        NearestUnique(v, a, 0);
      }
      if IsNearest(w, 0) {
        NearestUnique(w, a, 0);
      }
    }
  }

  // The guards of the code on the size of a literal.
  predicate IsOver(radix: nat, size: int)
    requires 2 <= radix <= RADIX_MAX
  {
    if PowerOfTwo(radix) then size >= 1024 + RadixBits(radix) else size >= MaxExponent(radix) + 1
  }

  predicate IsUnder(radix: nat, size: int)
    requires 2 <= radix <= RADIX_MAX
  {
    if PowerOfTwo(radix) then size <= -1075 else size <= MinExponent(radix)
  }

  // Sizes of which all numbers are above 0 and finite when they are rounded. Between this and the guards there is one
  // size on the side of 0, or two on the other side; as many as a digit has bits if the radix is a power of two.
  predicate IsInside(radix: nat, size: int)
    requires 2 <= radix <= RADIX_MAX
  {
    if PowerOfTwo(radix) then -1074 + RadixBits(radix) <= size <= 1023
    else MinExponent(radix) + 2 <= size <= MaxExponent(radix) - 2
  }

  // Whether a numeral with a size beyond 32 bits is read right, by the guards that its size meets.
  lemma WrapsBySize(x: Numeral, radix: nat, a: nat)
    requires WellFormed(x, radix) && Wraps(x, radix) && IsResult(x, radix, Bits(a))
    ensures var size, left := Size(x, radix), Int32(Size(x, radix));
      && ((if size > 0 then IsOver(radix, left) else IsUnder(radix, left)) ==> IsNearest(Value(x, radix), a))
      && ((if size > 0 then IsUnder(radix, left) else IsOver(radix, left)) || IsInside(radix, left) ==>
            !IsNearest(Value(x, radix), a))
  {
    var v, size, left := Value(x, radix), Size(x, radix), Int32(Size(x, radix));
    var w := Wrapped(v, radix, size);
    ValueBySize(x, radix);
    TurnedBySize(v, radix, size, left - size);
    WrapsRight(x, radix, a);
    SizeDecides(w, radix, left);
  }

  lemma SizeDecides(w: real, radix: nat, size: int)
    requires 2 <= radix <= RADIX_MAX && HasSize(w, radix, size)
    ensures IsOver(radix, size) ==> w >= Overflow() && w > Two(-1075)
    ensures IsUnder(radix, size) ==> w <= Two(-1075) && w < Overflow()
    ensures IsInside(radix, size) ==> Two(-1075) < w < Overflow()
  {
    OverflowBetween();
    TwoMono(-1075, 1023);
    if PowerOfTwo(radix) {
      BinaryDecides(w, size, RadixBits(radix));
    } else {
      OtherDecides(w, radix, size);
    }
  }

  lemma OverflowBetween()
    ensures Two(1023) < Overflow() < Two(1024)
  {
    var n: nat := 53;
    M53Is();
    TwoAdd(970, n);
    TwoNat(n);
    TwoNext(1023);
    TwoPos(970);
    TimesOrder(M53 as real, (2 * M53 - 1) as real, Two(970));
    TimesOrder((2 * M53 - 1) as real, (2 * M53) as real, Two(970));
    assert Two(1024) == (2 * M53) as real * Two(970);
  }

  lemma BinaryDecides(w: real, size: int, bits: nat)
    requires Two(size - bits) <= w < Two(size)
    ensures size >= 1024 + bits ==> w >= Two(1024)
    ensures size <= -1075 ==> w < Two(-1075)
    ensures size <= 1023 ==> w < Two(1023)
    ensures size - bits >= -1074 ==> w > Two(-1075)
  {
    if size - bits >= 1024 {
      TwoMono(1024, size - bits);
    }
    if size <= -1075 {
      TwoMono(size, -1075);
    }
    if size <= 1023 {
      TwoMono(size, 1023);
    }
    if size - bits >= -1074 {
      TwoMono(-1074, size - bits);
      TwoNext(-1075);
      TwoPos(-1075);
    }
  }

  lemma OtherDecides(w: real, radix: nat, size: int)
    requires 2 <= radix <= RADIX_MAX && !PowerOfTwo(radix) && RP(radix, size - 1) <= w < RP(radix, size)
    ensures size - 1 >= MaxExponent(radix) ==> w >= Two(1024)
    ensures size <= MinExponent(radix) ==> w < Two(-1075)
    ensures size + 1 <= MaxExponent(radix) - 1 ==> w < Two(1023)
    ensures size - 1 >= MinExponent(radix) + 1 ==> w > Two(-1075)
  {
    LimitsAreExact(radix);
    if size - 1 >= MaxExponent(radix) {
      RPMono(radix, MaxExponent(radix), size - 1);
    }
    if size <= MinExponent(radix) {
      RPMono(radix, size, MinExponent(radix));
    }
    if size + 1 <= MaxExponent(radix) - 1 {
      RPMono(radix, size + 1, MaxExponent(radix) - 1);
      Halves(radix, size, RP(radix, size), RP(radix, size + 1));
    }
    if size - 1 >= MinExponent(radix) + 1 {
      RPMono(radix, MinExponent(radix) + 1, size - 1);
    }
  }

  lemma Halves(radix: nat, size: int, x: real, y: real)
    requires radix >= 2 && x == RP(radix, size) && y == RP(radix, size + 1) && y <= Two(1024)
    ensures x <= Two(1023)
  {
    RPNext(radix, size, x, y);
    RPPos(radix, size);
    TwoNext(1023);
    AtMostHalf(radix as real, x, y, Two(1023));
  }

  lemma AtMostHalf(r: real, x: real, y: real, t: real)
    requires r >= 2.0 && x > 0.0 && y == r * x && y <= 2.0 * t
    ensures x <= t
  {
    TimesOrder(2.0, r, x);
  }

  lemma LowPositive(radix: nat, size: int)
    requires 2 <= radix <= RADIX_MAX
    ensures Low(radix, size) > 0.0
  {
    if PowerOfTwo(radix) {
      TwoPos(size - RadixBits(radix));
    } else {
      RPPos(radix, size - 1);
    }
  }

  lemma OutOfRange(size: int)
    requires Int32(size) != size
    ensures size > INT32_MAX || size < -INT32_MAX - 1
  {
    if -INT32_MAX - 1 <= size <= INT32_MAX {
      Int32Same(size);
    }
  }

  lemma TenDigitsOf(x: Numeral, zeros: string)
    requires zeros == "00000000000000000000" && x == Numeral(zeros + "1", 20, -2147483639, false)
    ensures AllDigits(x.digits, 10) && Significant(x.digits) == "1" && WellFormed(x, 10)
  {
    SignificantOf(zeros, "1");
  }

  lemma TenSize(x: Numeral)
    requires x == Numeral("000000000000000000001", 20, -2147483639, false) && Significant(x.digits) == "1"
    ensures Size(x, 10) == -2147483658 && Int32(Size(x, 10)) == 2147483638
  {
  }

  // What should be zero is infinite when its size wraps around to a large one.
  lemma WrapsUp(x: Numeral, radix: nat)
    requires WellFormed(x, radix) && Wraps(x, radix) && Size(x, radix) <= -2000 && Int32(Size(x, radix)) >= 2000
    ensures IsNearest(Value(x, radix), 0) && forall r :: IsResult(x, radix, r) ==> r == Bits(INFINITY)
  {
    var v, size := Value(x, radix), Size(x, radix);
    ValueBySize(x, radix);
    SmallSize(radix, size, v);
    TinyIsZero(v);
    TurnedBySize(v, radix, size, Int32(size) - size);
    var w := Wrapped(v, radix, size);
    LargeSize(radix, Int32(size), w);
    BigIsInfinite(w);
    forall r | IsResult(x, radix, r)
      ensures r == Bits(INFINITY)
    {
      NearestUnique(w, r.a, INFINITY);
    }
  }

  // 0.00000000000000000001e-2147483639 in decimal: it should be zero and is infinite.
  lemma WrapsToInfinity(x: Numeral)
    requires x == Numeral("000000000000000000001", 20, -2147483639, false)
    ensures WellFormed(x, 10) && Wraps(x, 10) && IsNearest(Value(x, 10), 0)
    ensures forall r :: IsResult(x, 10, r) ==> r == Bits(INFINITY)
  {
    TenDigitsOf(x, "00000000000000000000");
    TenSize(x);
    WrapsUp(x, 10);
  }

  // ---- Exponents over the limit ----

  lemma KeptBounds(digits: string, radix: nat)
    requires 2 <= radix <= RADIX_MAX && AllDigits(digits, radix) && Significant(digits) != ""
    ensures 1 <= KeptNumber(digits, radix) < Pow(radix, |digits|)
  {
    var t, n := Significant(digits), AtodMaxDigits(radix);
    SignificantNumber(digits, radix);
    SignificantDigits(digits, radix);
    PowMono(radix, |t|, |digits|);
    DigitsBounds(t, radix);
    if !PowerOfTwo(radix) && |t| > n {
      CutDigits(t, radix, n);
    }
  }

  lemma DigitsBounds(t: string, radix: nat)
    requires radix > 0 && AllDigits(t, radix) && t != "" && ToDigit(t[0]) != 0
    ensures 1 <= NumberOf(t, radix) < Pow(radix, |t|)
  {
    LeadingDigit(t, radix);
    PowPos(radix, |t| - 1);
  }

  lemma CutDigits(t: string, radix: nat, n: nat)
    requires radix > 0 && AllDigits(t, radix) && 0 < n < |t| && ToDigit(t[0]) != 0
    ensures 1 <= NumberOf(t[..n], radix) * Pow(radix, |t| - n) < Pow(radix, |t|)
  {
    assert t[..n][0] == t[0];
    DigitsBounds(t[..n], radix);
    PowAdd(radix, n, |t| - n);
    PowPos(radix, |t| - n);
    CutBounds(NumberOf(t[..n], radix), Pow(radix, n), Pow(radix, |t| - n));
  }

  lemma CutBounds(x: nat, p: nat, q: nat)
    requires 1 <= x < p && q >= 1
    ensures 1 <= x * q < p * q
  {
    MulLe(x + 1, p, q, q);
    MulPos(x, q);
  }

  const LONG: nat := 0x1000_0000

  lemma HugeLiteral(n: nat, fraction: nat, expn: int, binary: bool, radix: nat)
    requires 2 <= radix <= RADIX_MAX && (binary ==> PowerOfTwo(radix)) && n >= 1 && fraction < LONG
    requires expn >= EXPONENT_LIMIT
    ensures Literal(n, fraction, expn, binary, radix) >= Two(1024)
  {
    if binary {
      var k := RadixBits(radix);
      BinaryLiteral(n, fraction, expn, binary, radix, k);
      MulLe(fraction, LONG, k, 5);
      AtLeastTwo(n, Two(expn - fraction * k), expn - fraction * k);
    } else {
      var j: nat := expn - fraction;
      PowBase(2, radix, j);
      TwoNat(j);
      AtLeastTwo(n, RP(radix, j), j);
    }
  }

  lemma AtLeastTwo(n: nat, t: real, j: int)
    requires n >= 1 && t >= Two(j) && j >= 1024
    ensures Product(n as real, t) >= Two(1024)
  {
    TwoMono(1024, j);
    TwoPos(j);
    TimesOrder(1.0, n as real, t);
  }

  lemma TinyLiteral(n: nat, len: nat, fraction: nat, expn: int, binary: bool, radix: nat)
    requires 2 <= radix <= RADIX_MAX && (binary ==> PowerOfTwo(radix)) && n < Pow(radix, len) && len < LONG
    requires expn <= -EXPONENT_LIMIT
    ensures 0.0 <= Literal(n, fraction, expn, binary, radix) < Two(-1075)
  {
    if binary {
      var k := RadixBits(radix);
      BinaryLiteral(n, fraction, expn, binary, radix, k);
      TwoOfRadix(radix, k, len);
      MulLe(len, LONG, k, 5);
      TinyScale(n as real, len * k, expn - fraction * k);
    } else {
      var y := PowersProduct(radix, len, expn - fraction);
      var j: nat := 0 - (len + (expn - fraction));
      PowBase(2, radix, j);
      TwoNat(j);
      InverseBelow(radix, j, j);
      RPPos(radix, expn - fraction);
      BelowPower(n as real, Pow(radix, len) as real, RP(radix, expn - fraction), y, 0 - j);
    }
  }

  lemma TinyScale(n: real, bits: int, j: int)
    requires 0.0 <= n < Two(bits) && bits + j <= -1075
    ensures 0.0 <= Scale(n, j) < Two(-1075)
  {
    var y := TwoProduct(bits, j);
    BelowPower(n, Two(bits), Two(j), y, bits + j);
  }

  lemma BelowPower(n: real, p: real, t: real, y: real, j: int)
    requires 0.0 <= n < p && t > 0.0 && y == Product(p, t) && y <= Two(j) && j <= -1075
    ensures 0.0 <= Product(n, t) < Two(-1075)
  {
    TwoMono(j, -1075);
    TimesOrder(n, p, t);
    TimesOrder(0.0, n, t);
  }

  // The code gives up on such an exponent and takes the number to be infinite, or zero.
  lemma BeyondRight(x: Numeral, radix: nat, a: nat)
    requires WellFormed(x, radix) && Beyond(x) && IsResult(x, radix, Bits(a))
    ensures IsNearest(Value(x, radix), a)
       <==> if x.expn > 0 then Value(x, radix) >= Overflow() else Value(x, radix) <= Two(-1075)
  {
    LiteralOrder(0, KeptNumber(x.digits, radix), x.fraction, x.expn, x.binary, radix);
    ZeroIsNearest(Value(x, radix));
  }

  // This is right unless the text is so long that its digits make up for the exponent.
  lemma BeyondFits(x: Numeral, radix: nat, a: nat)
    requires WellFormed(x, radix) && Beyond(x) && IsResult(x, radix, Bits(a)) && x.fraction <= |x.digits| < LONG
    ensures IsNearest(Value(x, radix), a)
  {
    KeptBounds(x.digits, radix);
    if x.expn > 0 {
      HugeLiteral(KeptNumber(x.digits, radix), x.fraction, x.expn, x.binary, radix);
      BigIsInfinite(Value(x, radix));
    } else {
      TinyLiteral(KeptNumber(x.digits, radix), |x.digits|, x.fraction, x.expn, x.binary, radix);
      TinyIsZero(Value(x, radix));
    }
  }

  // ---- Where digits are left out ----

  // The digits that are not taken do not change the number just when they are zeros.
  lemma KeptIsAll(digits: string, radix: nat)
    requires 2 <= radix <= RADIX_MAX && AllDigits(digits, radix)
    ensures var t, n := Significant(digits), AtodMaxDigits(radix);
      KeptNumber(digits, radix) == NumberOf(digits, radix)
      <==> PowerOfTwo(radix) || |t| <= n || NumberOf(t[n..], radix) == 0
    ensures KeptNumber(digits, radix) <= NumberOf(digits, radix)
  {
    var t, n := Significant(digits), AtodMaxDigits(radix);
    SignificantNumber(digits, radix);
    if !PowerOfTwo(radix) && |t| > n {
      assert t == t[..n] + t[n..];
      NumberConcat(t[..n], t[n..], radix);
    }
  }

  // What a numeral stands for with all its digits.
  function Whole(x: Numeral, radix: nat): real
    requires x.Numeral? && radix > 0
  {
    Literal(NumberOf(x.digits, radix), x.fraction, x.expn, x.binary, radix)
  }

  lemma LiteralOrder(m: nat, n: nat, fraction: nat, expn: int, binary: bool, radix: nat)
    requires m <= n && radix > 0
    ensures 0.0 <= Literal(m, fraction, expn, binary, radix) <= Literal(n, fraction, expn, binary, radix)
  {
    if binary {
      var p := RP(radix, 0 - fraction);
      RPPos(radix, 0 - fraction);
      TwoPos(expn);
      RealMulLe(m as real, n as real, p, p);
      RealMulLe(m as real * p, n as real * p, Two(expn), Two(expn));
    } else {
      var p := RP(radix, expn - fraction);
      RPPos(radix, expn - fraction);
      RealMulLe(m as real, n as real, p, p);
    }
  }

  // The double that is read is the nearest one to the whole numeral just when no halfway point is between the digits
  // that are taken and all digits.
  lemma ReadsWhole(x: Numeral, radix: nat, a: nat)
    requires WellFormed(x, radix) && InRange(x, radix) && IsResult(x, radix, Bits(a))
    ensures IsNearest(Whole(x, radix), a)
       <==> forall b: nat :: b < INFINITY && Over(Whole(x, radix), b) ==> Over(Value(x, radix), b)
  {
    KeptIsAll(x.digits, radix);
    LiteralOrder(KeptNumber(x.digits, radix), NumberOf(x.digits, radix), x.fraction, x.expn, x.binary, radix);
    SameNearest(Value(x, radix), Whole(x, radix), a);
  }

  lemma LongDigits(head: string, zeros: string, digits: string)
    requires head == "9007199254740993" && zeros == ZeroDigits(22) && digits == head + zeros + "1"
    ensures AllDigits(digits, 10) && |digits| == 39 && Significant(digits) == digits && digits[..38] == head + zeros
  {
  }

  lemma LongNumber(head: string, zeros: string, digits: string, n: nat)
    requires head == "9007199254740993" && zeros == ZeroDigits(22) && digits == head + zeros + "1" && n == 22
    ensures NumberOf(digits, 10) == NumberOf(head, 10) * Pow(10, n + 1) + 1
    ensures KeptNumber(digits, 10) == NumberOf(head, 10) * Pow(10, n + 1)
  {
    LongDigits(head, zeros, digits);
    NumberZeros(n, 10);
    NumberConcat(head, zeros, 10);
    NumberConcat(head + zeros, "1", 10);
    NumberOne('1', 10);
    TenMore(NumberOf(head, 10), n);
  }

  lemma TenMore(h: nat, n: nat)
    ensures (h * Pow(10, n)) * Pow(10, 1) == h * Pow(10, n + 1)
  {
    assert Pow(10, 1) == 10;
    Assoc3(h, Pow(10, n), 10);
  }

  lemma HeadNumber(head: string)
    requires head == "9007199254740993"
    ensures NumberOf(head, 10) == 2 * M52 + 1
  {
    var a, b := "90071992", "54740993";
    assert head == a + b;
    NumberConcat(a, b, 10);
    EightDigits(a);
    EightDigits(b);
    assert Pow(10, 8) == 100000000;
  }

  lemma EightDigits(s: string)
    requires |s| == 8
    ensures NumberOf(s, 10) == (NumberOf(s[..4], 10) * 10000) + NumberOf(s[4..], 10)
    ensures NumberOf(s[..4], 10) == ToDigit(s[0]) * 1000 + ToDigit(s[1]) * 100 + ToDigit(s[2]) * 10 + ToDigit(s[3])
    ensures NumberOf(s[4..], 10) == ToDigit(s[4]) * 1000 + ToDigit(s[5]) * 100 + ToDigit(s[6]) * 10 + ToDigit(s[7])
  {
    assert s == s[..4] + s[4..];
    NumberConcat(s[..4], s[4..], 10);
    assert Pow(10, 4) == 10000;
    FourDigits(s[..4]);
    FourDigits(s[4..]);
  }

  lemma FourDigits(s: string)
    requires |s| == 4
    ensures NumberOf(s, 10) == ToDigit(s[0]) * 1000 + ToDigit(s[1]) * 100 + ToDigit(s[2]) * 10 + ToDigit(s[3])
  {
    assert s == [s[0]] + ([s[1]] + ([s[2]] + [s[3]]));
    NumberFront(s[0], [s[1]] + ([s[2]] + [s[3]]), 10);
    NumberFront(s[1], [s[2]] + [s[3]], 10);
    NumberFront(s[2], [s[3]], 10);
    NumberOne(s[3], 10);
    assert Pow(10, 1) == 10 && Pow(10, 2) == 100 && Pow(10, 3) == 1000;
  }

  // 2^53 + 1 and what is a little above it are between two doubles.
  lemma AboveHalfway(x: real, y: real)
    requires x == (2 * M52 + 1) as real && x < y < x + 1.0
    ensures IsNearest(x, 1076 * M52) && IsNearest(y, 1076 * M52 + 1)
  {
    var a := 1076 * M52;
    assert Two(1) == 2.0;
    assert ValueOf(a) == (2 * M52) as real && ValueOf(a + 1) == (2 * M52 + 2) as real;
    TwoMono(1, 970);
    ScaleOrder((2 * M53 - 1) as real, 0.0, 970);
    RealMulLe((2 * M53 - 1) as real, (2 * M53 - 1) as real, Two(1), Two(970));
    NearestOfTwo(x, a);
    NearestOfTwo(y, a);
  }

  lemma OverPower(h: nat, p: nat, u: real)
    requires p > 1 && u == 1.0 / p as real
    ensures Product((h * p) as real, u) == h as real && h as real < Product((h * p + 1) as real, u) < h as real + 1.0
  {
    ProductReal(h, p);
    assert (h as real * p as real) * u == h as real * (p as real * u);
    assert (h as real * p as real + 1.0) * u == (h as real * p as real) * u + u;
    TimesOrder(1.0, p as real, u);
  }

  // The first 38 digits are halfway between two doubles and round down to the even one, but the 39th is above.
  lemma LeavesOutDigits(x: Numeral, head: string)
    requires head == "9007199254740993" && x == Numeral(head + ZeroDigits(22) + "1", 23, 0, false)
    ensures WellFormed(x, 10)
    ensures IsNearest(Whole(x, 10), 1076 * M52 + 1)
    ensures forall r :: IsResult(x, 10, r) ==> r == Bits(1076 * M52)
  {
    var n: nat := 23;
    LongDigits(head, ZeroDigits(22), x.digits);
    LongNumber(head, ZeroDigits(22), x.digits, n - 1);
    HeadNumber(head);
    PowMono(10, 1, n);
    OverPower(2 * M52 + 1, Pow(10, n), RP(10, 0 - n));
    AboveHalfway(Value(x, 10), Whole(x, 10));
    assert Size(x, 10) == 16;
    forall r | IsResult(x, 10, r)
      ensures r == Bits(1076 * M52)
    {
      NearestUnique(Value(x, 10), r.a, 1076 * M52);
    }
  }
}
