// 64-bit floating point numbers as bits, and what it is for one of them to be the rounded value of a real.
module Doubles {
  import opened Arith
  import opened Powers
  import opened Rounding
  import opened Bignum
  import opened Float64
  import opened NearestEven
  import opened RoundTrip

  const M52: nat := 0x10_0000_0000_0000
  const INFINITY: nat := 0x7ff0_0000_0000_0000

  // ---- What finite bits without a sign stand for ----

  function Significand(a: nat): nat {
    if a / M52 == 0 then a else M52 + a % M52
  }

  function LastPlace(a: nat): int {
    if a / M52 == 0 then Q_MIN else a / M52 - 1075
  }

  function ValueOf(a: nat): real {
    Scale(Significand(a) as real, LastPlace(a))
  }

  // Section 3.4 of IEEE 754-2019: a fraction of 52 bits behind a 1, or behind a 0 with the exponent of the smallest
  // normal numbers.
  lemma ValueIs(a: nat)
    requires a < INFINITY
    ensures var e, f := a / M52, (a % M52) as real / 4503599627370496.0;
      ValueOf(a) == if e == 0 then f * Two(-1022) else (1.0 + f) * Two(e - 1023)
  {
    var e := a / M52;
    var q := LastPlace(a);
    var n: nat := 52;
    M53Is();
    TwoNat(n);
    TwoAdd(q, n);
    if e == 0 {
      Fraction(a as real, Two(q));
    } else {
      Fraction((M52 + a % M52) as real, Two(q));
    }
  }

  lemma Fraction(m: real, t: real)
    ensures m * t == m / 4503599627370496.0 * (t * 4503599627370496.0)
  {
  }

  // Half a unit above the largest finite number.
  function Overflow(): real {
    Scale((2 * M53 - 1) as real, 970)
  }

  // a is the double nearest to x, an even one if two are equally near, and infinity above them all:
  // section 4.3.1 of IEEE 754-2019.
  ghost predicate IsNearest(x: real, a: nat) {
    if x >= Overflow() then a == INFINITY
    else a < INFINITY && forall b: nat :: b < INFINITY ==> NoNearer(x, a, b)
  }

  predicate NoNearer(x: real, a: nat, b: nat) {
    var v, w := ValueOf(a), ValueOf(b);
    Abs(x - v) <= Abs(x - w) && (Abs(x - v) == Abs(x - w) && v != w ==> a % 2 == 0)
  }

  // ---- Taking them apart and putting them together ----

  // Mantissa and exponent of a finite number other than zero.
  function Unpack(a: nat): (r: (nat, int)) {
    var e, m := a / M52, a % M52;
    if e == 0 then
      var l := 64 - BitLen(m) - 11;
      (if l >= 0 then m * Pow(2, l) else m, 1 - l - 1022)
    else
      (m + M52, e - 1022)
  }

  // The bits for a rounded mantissa and exponent.
  function Pack(m: nat, e: int): nat {
    if m == 0 then 0
    else if e > 1024 then INFINITY
    else if e < -1073 then 0
    else if e < -1021 then
      PowPos(2, -e - 1021);
      m / Pow(2, -e - 1021)
    else (e + 1022) * M52 + m % M52
  }

  lemma UnpackIs(a: nat)
    requires 0 < a < INFINITY
    ensures var (m, e) := Unpack(a); Double(m, e) && e <= 1024 && Pack(m, e) == a
  {
    M53Is();
    var (m, e) := Unpack(a);
    if a / M52 == 0 {
      SubnormalUnpacks(a, m, e);
    } else {
      assert m % M52 == a % M52;
    }
  }

  lemma SubnormalUnpacks(a: nat, m: nat, e: int)
    requires 0 < a < M52 && Unpack(a) == (m, e)
    ensures Double(m, e) && e < E_MIN && Pack(m, e) == a
  {
    M53Is();
    BitLenIs(a);
    var n := BitLen(a);
    if n > 52 {
      PowMono(2, 52, n - 1);
    }
    var l := 53 - n;
    assert a % M52 == a && e + l + 1021 == 0;
    PowPos(2, l);
    PowAdd(2, n - 1, l);
    PowAdd(2, n, l);
    MulLe(Pow(2, n - 1), a, Pow(2, l), Pow(2, l));
    LessTimes(Pow(2, l), a, Pow(2, n));
    DivModIs(a * Pow(2, l), Pow(2, l), a, 0);
  }

  // ---- A rounded number is a double ----

  lemma RoundedIsDouble(x: real, e0: int, m: nat, e: int)
    requires RoundedAt(x, e0, Nearest, m, e)
    ensures m == 0 || Double(m, e)
  {
    var prec := Precision(e0);
    RoundBound(x, e0, prec, Nearest);
    DoubleBy(RoundScale(x, prec - e0, Nearest), e0, prec, m, e);
  }

  lemma DoubleBy(n: int, e0: int, prec: int, m: nat, e: int)
    requires prec == Precision(e0) && Mantissa(n, e0, m, e)
    requires (prec < 0 ==> n == 0) && (prec >= 0 ==> 0 <= n <= Pow(2, prec)) && (prec > 0 ==> n >= Pow(2, prec - 1))
    ensures m == 0 || Double(m, e)
  {
    M53Is();
    MantissaFits(n, prec);
    if prec >= 0 && n > 0 {
      var p := Pow(2, PREC - prec);
      PowPos(2, PREC - prec);
      if n * p >= M53 {
        CarriedDouble(m, e);
      } else if prec > 0 {
        PowAdd(2, prec - 1, PREC - prec);
        MulLe(Pow(2, prec - 1), n, p, p);
        DivModIs(m, p, n, 0);
      }
    }
  }

  lemma CarriedDouble(m: nat, e: int)
    requires m == M53 / 2 && e >= -1073
    ensures Double(m, e)
  {
    if e < E_MIN {
      var d := E_MIN - e;
      M53Is();
      PowAdd(2, 52 - d, d);
      PowPos(2, d);
      DivModIs(m, Pow(2, d), Pow(2, 52 - d), 0);
    }
  }

  // The bits have the value of the mantissa, and its last bit.
  lemma PackIs(m: nat, e: int)
    requires Double(m, e) && e <= 1024
    ensures Pack(m, e) < INFINITY && ValueOf(Pack(m, e)) == FloatValue(m, e) && Pack(m, e) % 2 == LastUnits(m, e) % 2
  {
    M53Is();
    if e < E_MIN {
      SubnormalPack(m, e, E_MIN - e);
    } else {
      var a := Pack(m, e);
      DivModIs(a, M52, e + 1022, m - M52);
      assert Significand(a) == m;
    }
  }

  lemma SubnormalPack(m: nat, e: int, d: nat)
    requires Double(m, e) && e < E_MIN && d == E_MIN - e
    ensures Pack(m, e) < M52 && ValueOf(Pack(m, e)) == FloatValue(m, e) && Pack(m, e) == LastUnits(m, e)
  {
    var k := Pack(m, e);
    PowPos(2, d);
    WholeParts(m, Pow(2, d));
    assert Pow(2, d) == 2 * Pow(2, d - 1);
    PowPos(2, d - 1);
    Halved(k, Pow(2, d - 1), m);
    DivModIs(k, M52, 0, k);
    TwoNat(d);
    ProductReal(k, Pow(2, d));
    ScaleAdd(k as real, d, e - PREC);
    assert d + (e - PREC) == Q_MIN;
  }

  lemma Halved(k: nat, p: nat, m: nat)
    requires k * (2 * p) == m && p > 0 && m < M53
    ensures k < M52
  {
    if k >= M52 {
      MulLe(M52, k, 2, 2 * p);
    }
  }

  lemma SignificandIs(b: nat)
    requires b < INFINITY
    ensures Significand(b) < M53 && LastPlace(b) >= Q_MIN
  {
  }

  // ---- Rounding a mantissa and packing it gives the nearest double ----

  lemma PackedIsNearest(x: real, e0: int, m: nat, e: int)
    requires RoundedAt(x, e0, Nearest, m, e)
    ensures IsNearest(x, Pack(m, e))
  {
    RoundedIsDouble(x, e0, m, e);
    var a := Pack(m, e);
    OverflowsWhen(x, e0, m, e);
    if m == 0 || e <= 1024 {
      FiniteValue(x, e0, m, e);
      forall b: nat | b < INFINITY
        ensures NoNearer(x, a, b)
      {
        SignificandIs(b);
        RoundsToNearestEven(x, e0, m, e, Significand(b), LastPlace(b));
      }
    }
  }

  lemma FiniteValue(x: real, e0: int, m: nat, e: int)
    requires (m == 0 || Double(m, e)) && (m == 0 || e <= 1024)
    ensures Pack(m, e) < INFINITY && ValueOf(Pack(m, e)) == FloatValue(m, e)
    ensures LastUnits(m, e) % 2 == 0 ==> Pack(m, e) % 2 == 0
  {
    if m == 0 {
      ZeroScale(e - PREC);
      ZeroScale(Q_MIN);
    } else {
      PackIs(m, e);
    }
  }

  lemma ZeroScale(k: int)
    ensures Scale(0 as real, k) == 0.0
  {
  }

  lemma ZeroValue()
    ensures ValueOf(0) == 0.0
  {
    ZeroScale(Q_MIN);
  }

  // The exponent is beyond the range for numbers that are nearer to the next power of two, or halfway.
  lemma OverflowsWhen(x: real, e0: int, m: nat, e: int)
    requires RoundedAt(x, e0, Nearest, m, e) && (m == 0 || Double(m, e))
    ensures x >= Overflow() <==> m > 0 && e > 1024
  {
    var w0, w1 := Scale((M53 - 1) as real, 971), Scale((M53 / 2) as real, 972);
    RoundsToNearestEven(x, e0, m, e, M53 - 1, 971);
    RoundsToNearestEven(x, e0, m, e, M53 / 2, 972);
    HalfwayPoint(w0, w1);
    if m > 0 && e > 1024 {
      HighValue(m, e);
      FarFromLow(x, FloatValue(m, e), w0, w1);
    } else {
      LowValue(m, e);
      FarFromHigh(x, FloatValue(m, e), w0, w1, LastUnits(m, e));
    }
  }

  lemma HalfwayPoint(w0: real, w1: real)
    requires w0 == Scale((M53 - 1) as real, 971) && w1 == Scale((M53 / 2) as real, 972)
    ensures w0 < w1 && Overflow() == (w0 + w1) / 2.0
  {
    TwoNext(970);
    TwoNext(971);
    TwoPos(970);
    Multiples(Two(970));
  }

  lemma FarFromLow(x: real, v: real, w0: real, w1: real)
    requires w0 < w1 <= v && Abs(x - v) <= Abs(x - w0)
    ensures x >= (w0 + w1) / 2.0
  {
  }

  lemma FarFromHigh(x: real, v: real, w0: real, w1: real, u: nat)
    requires v <= w0 < w1 && (v == w0 ==> u % 2 == 1)
    requires Abs(x - v) <= Abs(x - w1) && (Abs(x - v) == Abs(x - w1) && v != w1 ==> u % 2 == 0)
    ensures x < (w0 + w1) / 2.0
  {
  }

  lemma Multiples(t: real)
    ensures (M53 - 1) as real * (2.0 * t) == (2 * M53 - 2) as real * t
    ensures (M53 / 2) as real * (2.0 * (2.0 * t)) == (2 * M53) as real * t
    ensures ((2 * M53 - 2) as real * t + (2 * M53) as real * t) / 2.0 == (2 * M53 - 1) as real * t
  {
  }

  lemma HighValue(m: nat, e: int)
    requires Double(m, e) && e > 1024
    ensures FloatValue(m, e) >= Scale((M53 / 2) as real, 972)
  {
    TwoMono(972, e - PREC);
    TwoPos(972);
    RealMulLe((M53 / 2) as real, m as real, Two(972), Two(e - PREC));
  }

  lemma RealMulLe(a: real, b: real, x: real, y: real)
    requires 0.0 <= a <= b && 0.0 <= x <= y
    ensures a * x <= b * y
  {
    assert a * x <= a * y;
  }

  // The largest finite number has an odd significand.
  lemma LowValue(m: nat, e: int)
    requires m == 0 || (Double(m, e) && e <= 1024)
    ensures var w := Scale((M53 - 1) as real, 971);
      FloatValue(m, e) <= w && (FloatValue(m, e) == w ==> LastUnits(m, e) % 2 == 1)
  {
    TwoPos(971);
    if m == 0 {
      ZeroScale(e - PREC);
    } else if e == 1024 {
      ScaleOrder(m as real, (M53 - 1) as real, 971);
    } else {
      TwoMono(e - PREC, 970);
      TwoNext(970);
      TwoPos(e - PREC);
      RealMulLe(m as real, M53 as real, Two(e - PREC), Two(970));
    }
  }

  // ---- Bits are in the order of what they stand for ----

  lemma NextValue(a: nat)
    requires a + 1 < INFINITY
    ensures ValueOf(a) < ValueOf(a + 1)
  {
    var q := LastPlace(a);
    TwoPos(q);
    if LastPlace(a + 1) == q {
      SamePlace(a);
      ScaleOrder(Significand(a) as real, Significand(a + 1) as real, q);
    } else {
      NextPlace(a);
      TwoNext(q);
      DoubleUnit(Significand(a), M52, Two(q));
    }
  }

  lemma SamePlace(a: nat)
    requires LastPlace(a + 1) == LastPlace(a)
    ensures Significand(a + 1) == Significand(a) + 1
  {
  }

  lemma NextPlace(a: nat)
    requires LastPlace(a + 1) != LastPlace(a)
    ensures LastPlace(a + 1) == LastPlace(a) + 1 && Significand(a) == M53 - 1 && Significand(a + 1) == M52
  {
  }

  lemma DoubleUnit(m: nat, n: nat, t: real)
    requires t > 0.0 && m < 2 * n
    ensures m as real * t < n as real * (2.0 * t)
  {
    TimesOrder(m as real, 2.0 * n as real, t);
  }

  lemma {:induction false} ValueOrder(a: nat, b: nat)
    requires a < b < INFINITY
    ensures ValueOf(a) < ValueOf(b)
    decreases b
  {
    NextValue(b - 1);
    if a < b - 1 {
      ValueOrder(a, b - 1);
    }
  }

  // There is only one nearest double.
  lemma NearestUnique(x: real, a: nat, b: nat)
    requires IsNearest(x, a) && IsNearest(x, b)
    ensures a == b
  {
    if a < b {
      LowerNearest(x, a, b);
    } else if b < a {
      LowerNearest(x, b, a);
    }
  }

  // Of two doubles that are equally near with even bits, one in between is nearer.
  lemma LowerNearest(x: real, a: nat, b: nat)
    requires a < b && IsNearest(x, a)
    ensures !IsNearest(x, b)
  {
    if x < Overflow() && b < INFINITY {
      ValueOrder(a, b);
      assert NoNearer(x, a, b) && NoNearer(x, a, a + 1);
      NextValue(a);
      if a + 1 < b {
        ValueOrder(a + 1, b);
      }
      assert !NoNearer(x, b, a);
    }
  }

  predicate Around(x: real, a: nat) {
    a + 1 < INFINITY && ValueOf(a) <= x <= ValueOf(a + 1)
  }

  lemma LowerNearer(x: real, a: nat, b: nat)
    requires Around(x, a) && b < INFINITY
    requires x - ValueOf(a) < ValueOf(a + 1) - x || (x - ValueOf(a) == ValueOf(a + 1) - x && a % 2 == 0)
    ensures NoNearer(x, a, b)
  {
    if b < a {
      ValueOrder(b, a);
    } else if b > a + 1 {
      ValueOrder(a + 1, b);
    }
  }

  lemma UpperNearer(x: real, a: nat, b: nat)
    requires Around(x, a) && b < INFINITY
    requires x - ValueOf(a) > ValueOf(a + 1) - x || (x - ValueOf(a) == ValueOf(a + 1) - x && a % 2 == 1)
    ensures NoNearer(x, a + 1, b)
  {
    if b < a {
      ValueOrder(b, a);
    } else if b > a + 1 {
      ValueOrder(a + 1, b);
    }
  }

  // Between two successive doubles the nearer one is nearest, and of two that are equally near the even one.
  lemma NearestOfTwo(x: real, a: nat)
    requires Around(x, a) && x < Overflow()
    ensures var d, e := x - ValueOf(a), ValueOf(a + 1) - x;
      IsNearest(x, if d < e || (d == e && a % 2 == 0) then a else a + 1)
  {
    var d, e := x - ValueOf(a), ValueOf(a + 1) - x;
    if d < e || (d == e && a % 2 == 0) {
      forall b: nat | b < INFINITY
        ensures NoNearer(x, a, b)
      {
        LowerNearer(x, a, b);
      }
    } else {
      var c := a + 1;
      forall b: nat | b < INFINITY
        ensures NoNearer(x, c, b)
      {
        UpperNearer(x, a, b);
      }
    }
  }
}
