// The last step from digits to a double: scaling, rounding and the limits of the exponent.
module AtodRounding {
  import opened Arith
  import opened Powers
  import opened RealPowers
  import opened Limbs
  import opened Rounding
  import opened Bignum
  import opened RadixPower
  import opened Scaling
  import opened Float64
  import opened NearestEven
  import opened DigitErrors
  import opened Capacity
  import opened Doubles
  import opened Digits
  import opened Log2Radix
  import opened AtodTables

  // ---- Exponents are 32-bit integers that wrap around ----

  const TWO32: int := 0x1_0000_0000
  const INT32_MAX: int := 0x7fff_ffff

  function Int32(x: int): int {
    (x + 0x8000_0000) % TWO32 - 0x8000_0000
  }

  lemma Int32Turns(x: int) returns (q: int)
    ensures Int32(x) == x + q * TWO32
  {
    q := 0 - (x + 0x8000_0000) / TWO32;
  }

  lemma Int32Period(x: int, y: int, q: int)
    requires y == x + q * TWO32
    ensures Int32(y) == Int32(x)
  {
  }

  lemma Int32Add(a: int, b: int)
    ensures Int32(Int32(a) + b) == Int32(a + b)
  {
    var q := Int32Turns(a);
    Int32Period(a + b, Int32(a) + b, q);
  }

  lemma Int32Sub(a: int, b: int)
    ensures Int32(Int32(a) - Int32(b)) == Int32(a - b)
  {
    var p := Int32Turns(a);
    var q := Int32Turns(b);
    Int32Period(a - b, Int32(a) - Int32(b), p - q);
  }

  lemma Int32Same(x: int)
    requires -INT32_MAX - 1 <= x <= INT32_MAX
    ensures Int32(x) == x
  {
  }

  // ---- Beyond the limits ----

  lemma BigIsInfinite(x: real)
    requires x >= Two(1024)
    ensures IsNearest(x, INFINITY)
  {
    TwoAdd(970, 54);
    var k: nat := 54;
    TwoNat(k);
    M53Is();
    assert Pow(2, 54) == 2 * Pow(2, 53);
    TwoPos(970);
    ScaleOrder((2 * M53 - 1) as real, (2 * M53) as real, 970);
  }

  lemma TinyIsZero(x: real)
    requires 0.0 <= x < Two(-1075)
    ensures IsNearest(x, 0)
  {
    TwoMono(-1075, 970);
    TwoPos(970);
    TwoNext(-1075);
    ScaleOrder(1.0, (2 * M53 - 1) as real, 970);
    OneTimes(Two(970), Two(970));
    ZeroValue();
    forall b: nat | b < INFINITY
      ensures NoNearer(x, 0, b)
    {
      if b > 0 {
        LeastValue(b);
      }
    }
  }

  lemma LeastValue(b: nat)
    requires 0 < b < INFINITY
    ensures ValueOf(b) >= Two(Q_MIN)
  {
    SignificandIs(b);
    TwoMono(Q_MIN, LastPlace(b));
    TwoPos(Q_MIN);
    RealMulLe(1.0, Significand(b) as real, Two(Q_MIN), Two(LastPlace(b)));
  }

  // ---- The size of a number from its digits ----

  lemma LeadingDigit(t: string, radix: nat)
    requires AllDigits(t, radix) && t != "" && ToDigit(t[0]) != 0
    ensures Pow(radix, |t| - 1) <= NumberOf(t, radix) < Pow(radix, |t|)
  {
    assert t == [t[0]] + t[1..];
    NumberFront(t[0], t[1..], radix);
    NumberBound(t, radix);
    MulLe(1, ToDigit(t[0]), Pow(radix, |t| - 1), Pow(radix, |t| - 1));
  }

  // n has count digits, and n * radix^f is between two powers.
  lemma Magnitude(n: nat, radix: nat, count: nat, f: int)
    requires radix > 0 && count > 0 && Pow(radix, count - 1) <= n < Pow(radix, count)
    ensures RP(radix, f + count - 1) <= Product(n as real, RP(radix, f)) < RP(radix, f + count)
  {
    var x := PowersProduct(radix, count - 1, f);
    var y := PowersProduct(radix, count, f);
    RPPos(radix, f);
    Between(Pow(radix, count - 1) as real, n as real, Pow(radix, count) as real, RP(radix, f), x, y);
  }

  lemma Between(a: real, n: real, b: real, t: real, x: real, y: real)
    requires t > 0.0 && a <= n < b && x == Product(a, t) && y == Product(b, t)
    ensures x <= Product(n, t) < y
  {
    TimesOrder(a, n, t);
    TimesOrder(n, b, t);
  }

  // ---- A radix that is no power of two ----

  lemma OverLimit(radix: nat, k: int, x: real)
    requires 2 <= radix <= RADIX_MAX && !PowerOfTwo(radix) && k >= MaxExponent(radix) && x >= RP(radix, k)
    ensures x >= Two(1024)
  {
    LimitsAreExact(radix);
    RPMono(radix, MaxExponent(radix), k);
  }

  lemma UnderLimit(radix: nat, k: int, x: real)
    requires 2 <= radix <= RADIX_MAX && !PowerOfTwo(radix) && k <= MinExponent(radix) && x < RP(radix, k)
    ensures x < Two(-1075)
  {
    LimitsAreExact(radix);
    RPMono(radix, k, MinExponent(radix));
  }

  // The limits keep the powers within the buffer.
  lemma LimitLimbs(radix: nat, r1: nat, s: nat)
    requires Split(radix, r1, s) && r1 > 1
    ensures -MinExponent(radix) - 1 + AtodMaxDigits(radix) <= 43 * DigitsPerLimb(r1)
    ensures MaxExponent(radix) - 1 <= 43 * DigitsPerLimb(r1)
  {
    assert Pow(2, 1) == 2 && Pow(2, 2) == 4 && Pow(2, 3) == 8 && Pow(2, 4) == 16;
    if s == 0 {
      LimitWhole(radix);
    } else if s == 1 {
      assert radix == 2 * r1;
    } else if s == 2 {
      assert radix == 4 * r1;
    } else if s == 3 {
      assert radix == 8 * r1;
    } else {
      PowMono(2, 4, s);
      MulLe(3, r1, 16, Pow(2, s));
    }
  }

  lemma LimitWhole(radix: nat)
    requires radix % 2 == 1 && 3 <= radix < RADIX_MAX
    ensures -MinExponent(radix) - 1 + AtodMaxDigits(radix) <= 43 * DigitsPerLimb(radix)
    ensures MaxExponent(radix) - 1 <= 43 * DigitsPerLimb(radix)
  {
  }

  lemma AtodFits(radix: nat, r1: nat, s: nat, f: int, count: nat)
    requires Split(radix, r1, s) && r1 > 1 && 0 < count <= AtodMaxDigits(radix)
    requires MinExponent(radix) < f + count <= MaxExponent(radix)
    ensures 4 + LimbsNeeded(r1, s, f, false, 55) + 2 <= LEN_MAX
  {
    LimitLimbs(radix, r1, s);
    if f >= 0 {
      LimbsAtMost(r1, f, 43);
    } else {
      LimbsAtMost(r1, -f, 43);
      FewLimbs(ExtraBits(r1, s, -f, false, 55, 0));
    }
  }

  // The double for r * radix^(expn1 - count), where r has count digits. Within the limits f is that exponent.
  method RoundOther(r: Mpb, radix: nat, r1: nat, s: nat, count: nat, f: int, expn1: int) returns (a: nat)
    requires Split(radix, r1, s) && r1 > 1 && 0 < count <= AtodMaxDigits(radix)
    requires r.Valid() && r.Normal() && r.len <= 4 && r.tab.Length == LEN_MAX
    requires Pow(radix, count - 1) <= r.Value() < Pow(radix, count)
    requires MinExponent(radix) < expn1 <= MaxExponent(radix) ==> f == expn1 - count
    modifies r`len, r.tab
    ensures IsNearest(Product(old(r.Value()) as real, RP(radix, expn1 - count)), a)
  {
    ghost var v := r.Value();
    ghost var x := Product(v as real, RP(radix, expn1 - count));
    OddPart(radix, r1, s);
    Magnitude(v, radix, count, expn1 - count);
    if expn1 >= MaxExponent(radix) + 1 {
      OverLimit(radix, expn1 - 1, x);
      BigIsInfinite(x);
      return INFINITY;
    }
    if expn1 <= MinExponent(radix) {
      UnderLimit(radix, expn1, x);
      RPPos(radix, expn1 - 1);
      TinyIsZero(x);
      return 0;
    }
    AtodFits(radix, r1, s, f, count);
    PowPos(radix, count - 1);
    FullRadix(v, r1, s, f, radix);
    var m, e;
    ghost var e0;
    m, e, e0 := MulPowRoundToD(r, r1, s, f, Nearest);
    PackedIsNearest(x, e0, m, e);
    a := Pack(m, e);
  }

  lemma OddPart(radix: nat, r1: nat, s: nat)
    requires Split(radix, r1, s) && r1 > 1
    ensures !PowerOfTwo(radix)
  {
    EvenFactor(radix, r1, s);
  }

  lemma {:induction false} EvenFactor(radix: nat, r1: nat, s: nat)
    requires r1 % 2 == 1 && r1 > 1 && radix == r1 * Pow(2, s)
    ensures !PowerOfTwo(radix)
    decreases s
  {
    if s > 0 {
      assert radix == 2 * (r1 * Pow(2, s - 1)) by {
        assert Pow(2, s) == 2 * Pow(2, s - 1);
        Assoc3(r1, 2, Pow(2, s - 1));
        Assoc3(2, r1, Pow(2, s - 1));
      }
      EvenFactor(radix / 2, r1, s - 1);
      PowPos(2, s - 1);
      MulLe(3, r1, 1, Pow(2, s - 1));
    } else {
      assert Pow(2, 0) == 1;
    }
  }

  // ---- A radix that is a power of two ----

  // Setting the lowest bit.
  function WithLowBit(v: nat): nat {
    if v % 2 == 0 then v + 1 else v
  }

  method SetLowBit(r: Mpb)
    requires r.Valid() && r.Normal()
    modifies r.tab
    ensures r.Valid() && r.Normal() && r.Value() == WithLowBit(old(r.Value()))
  {
    ghost var was := r.tab[..r.len];
    r.tab[0] := if r.tab[0] % 2 == 0 then r.tab[0] + 1 else r.tab[0];
    assert r.tab[..r.len] == [r.tab[0]] + was[1..];
    ValFront(r.tab[0], was[1..]);
    LowParity(was[0], Val(was[1..]));
  }

  lemma LowParity(a: nat, x: nat)
    ensures (a + B * x) % 2 == a % 2
  {
    EvenPart(a, 0x8000_0000 * x);
  }

  // The lowest bit stands for the digits that have been left out.
  lemma StickyDigits(n: nat, rest: nat, p: nat, all: nat, y: real)
    requires p > 0 && all == n * p + rest && rest < p && y * p as real == all as real
    ensures rest == 0 ==> n as real == y
    ensures rest > 0 ==> Sticky(y) == WithLowBit(n) && y >= 0.0
  {
    ProductReal(n, p);
    BetweenWhole(n as real, y, p as real, n as real * p as real, all as real, rest as real);
    if rest > 0 {
      FloorIs(y, n);
    }
  }

  lemma BetweenWhole(n: real, y: real, p: real, np: real, yp: real, rest: real)
    requires p > 0.0 && np == n * p && yp == y * p && yp == np + rest && 0.0 <= rest < p
    ensures n <= y < n + 1.0 && (rest == 0.0 <==> y == n)
  {
    TimesOrder(n, y, p);
    TimesOrder(y, n, p);
    TimesOrder(n + 1.0, y, p);
    assert (n + 1.0) * p == np + p;
  }

  // Left out digits come after at least 55 bits.
  lemma ManyBits(radix: nat, n: nat)
    requires PowerOfTwo(radix) && n >= Pow(radix, AtodMaxDigits(radix) - 1)
    ensures n >= Pow(2, 55)
  {
    RadixBitsIs(radix);
    var k, d := RadixBits(radix), AtodMaxDigits(radix) - 1;
    PowPow(2, k, d);
    PowMono(2, 55, k * d);
  }

  // The double for the digits with expn1 bits in front of the point, where the digits beyond count have made extra.
  // Within the limits e is the power of two for the digits that count.
  method RoundBinary(r: Mpb, radix: nat, k: nat, count: nat, extra: bool, e: int, expn1: int, ghost sig: string,
                     ghost x: real)
    returns (a: nat)
    requires PowerOfTwo(radix) && k == RadixBits(radix) && AllDigits(sig, radix) && sig != "" && ToDigit(sig[0]) != 0
    requires 0 < count <= |sig| && (count < |sig| ==> count == AtodMaxDigits(radix))
    requires r.Valid() && r.Normal() && r.len <= 4 && r.tab.Length == LEN_MAX
    requires r.Value() == NumberOf(sig[..count], radix)
    requires (extra <==> NumberOf(sig[count..], radix) != 0)
    requires x == Scale(NumberOf(sig, radix) as real, expn1 - |sig| * k)
    requires -1075 < expn1 < 1024 + k ==> e == expn1 - count * k
    modifies r`len, r.tab
    ensures IsNearest(x, a)
  {
    BinaryMagnitude(sig, radix, k, expn1, x);
    if extra {
      SetLowBit(r);
    }
    if expn1 >= 1024 + k {
      TwoMono(1024, expn1 - k);
      BigIsInfinite(x);
      return INFINITY;
    }
    if expn1 <= -1075 {
      TwoMono(expn1, -1075);
      TwoPos(expn1 - k);
      TinyIsZero(x);
      return 0;
    }
    TwoPos(expn1 - k);
    TwoOfRadix(radix, k, |sig| - count);
    BitsLeft(|sig|, count, k, e, expn1);
    BinaryValue(sig, radix, count, e, (|sig| - count) * k, x);
    var m, e1;
    ghost var e0;
    m, e1, e0 := RoundToD(r, 0 - e, Nearest, x);
    PackedIsNearest(x, e0, m, e1);
    a := Pack(m, e1);
  }

  lemma BitsLeft(l: nat, count: nat, k: nat, e: int, expn1: int)
    requires e == expn1 - count * k && count <= l
    ensures e - (l - count) * k == expn1 - l * k
  {
  }

  lemma BinaryValue(sig: string, radix: nat, count: nat, e: int, j: nat, x: real)
    requires PowerOfTwo(radix) && AllDigits(sig, radix) && sig != "" && ToDigit(sig[0]) != 0
    requires 0 < count <= |sig| && (count < |sig| ==> count == AtodMaxDigits(radix))
    requires x == Scale(NumberOf(sig, radix) as real, e - j) && Pow(radix, |sig| - count) as real == Two(j)
    ensures StickyOf(NumberOf(sig[..count], radix), NumberOf(sig[count..], radix), Scale(x, 0 - e))
  {
    SplitDigits(sig, radix, count);
    BinaryBy(NumberOf(sig[..count], radix), NumberOf(sig[count..], radix), NumberOf(sig, radix),
             Pow(radix, |sig| - count), e, j, x, Scale(x, 0 - e));
  }

  lemma BinaryBy(n: nat, rest: nat, all: nat, p: nat, e: int, j: nat, x: real, y: real)
    requires all == n * p + rest && rest < p && (rest > 0 ==> n >= Pow(2, 55))
    requires x == Scale(all as real, e - j) && p as real == Two(j) && y == Scale(x, 0 - e)
    ensures StickyOf(n, rest, y)
  {
    Unscaled(all, e, j, x, p);
    StickyDigits(n, rest, p, all, y);
  }

  // n is y, or its floor with many bits.
  predicate StickyOf(n: nat, rest: nat, y: real) {
    if rest == 0 then n as real == y else Sticky(y) == WithLowBit(n) && y >= 0.0 && n >= Pow(2, 55)
  }

  lemma TwoOfRadix(radix: nat, k: nat, c: nat)
    requires PowerOfTwo(radix) && k == RadixBits(radix)
    ensures Pow(radix, c) as real == Two(c * k)
  {
    RadixIsTwo(radix, k, c);
  }

  lemma SplitDigits(sig: string, radix: nat, count: nat)
    requires PowerOfTwo(radix) && AllDigits(sig, radix) && sig != "" && ToDigit(sig[0]) != 0
    requires 0 < count <= |sig| && (count < |sig| ==> count == AtodMaxDigits(radix))
    ensures var n, rest, p := NumberOf(sig[..count], radix), NumberOf(sig[count..], radix), Pow(radix, |sig| - count);
      NumberOf(sig, radix) == n * p + rest && rest < p && (rest > 0 ==> n >= Pow(2, 55))
  {
    assert sig == sig[..count] + sig[count..];
    NumberConcat(sig[..count], sig[count..], radix);
    NumberBound(sig[count..], radix);
    LeadingDigit(sig[..count], radix);
    if count == |sig| {
      assert sig[count..] == "";
    } else {
      ManyBits(radix, NumberOf(sig[..count], radix));
    }
  }

  lemma Unscaled(all: nat, e: int, c: nat, x: real, p: nat)
    requires x == Scale(all as real, e - c) && p as real == Two(c)
    ensures Scale(x, 0 - e) * p as real == all as real
  {
    ScaleAdd(all as real, e - c, 0 - e);
    assert e - c + (0 - e) == 0 - c;
    ScaleCancels(all as real, c, p as real);
  }

  lemma ScaleCancels(a: real, k: nat, p: real)
    requires p == Two(k)
    ensures Scale(a, 0 - k) * p == a
  {
    TwoInverse(k);
    assert a * Two(0 - k) * p == a * (p * Two(0 - k));
  }

  lemma BinaryMagnitude(sig: string, radix: nat, k: nat, expn1: int, x: real)
    requires PowerOfTwo(radix) && k == RadixBits(radix) && AllDigits(sig, radix) && sig != "" && ToDigit(sig[0]) != 0
    requires x == Scale(NumberOf(sig, radix) as real, expn1 - |sig| * k)
    ensures Two(expn1 - k) <= x < Two(expn1)
  {
    BitsOfDigits(sig, radix, k, |sig| * k);
    MagnitudeBy(NumberOf(sig, radix) as real, |sig| * k - k, |sig| * k, expn1 - |sig| * k);
  }

  lemma BitsOfDigits(sig: string, radix: nat, k: nat, bits: int)
    requires PowerOfTwo(radix) && k == RadixBits(radix) && AllDigits(sig, radix) && sig != "" && ToDigit(sig[0]) != 0
    requires bits == |sig| * k
    ensures Two(bits - k) <= NumberOf(sig, radix) as real < Two(bits)
  {
    LeadingDigit(sig, radix);
    TwoOfRadix(radix, k, |sig| - 1);
    TwoOfRadix(radix, k, |sig|);
    assert (|sig| - 1) * k == |sig| * k - k;
  }

  lemma MagnitudeBy(n: real, lo: int, hi: int, j: int)
    requires Two(lo) <= n < Two(hi)
    ensures Two(lo + j) <= Scale(n, j) < Two(hi + j)
  {
    ScaleOrder(Two(lo), n, j);
    ScaleOrder(n, Two(hi), j);
    ScaleTwo(lo, j, lo + j);
    ScaleTwo(hi, j, hi + j);
  }
}
