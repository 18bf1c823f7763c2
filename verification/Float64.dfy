// Rounding to 64-bit floating point numbers.
module Float64 {
  import opened Arith
  import opened Powers
  import opened Rounding
  import opened Bignum
  import opened InvDiv
  import opened RadixPower
  import opened Scaling

  const PREC: nat := 53
  const E_MIN: int := -1021
  const M53: nat := 0x20_0000_0000_0000

  lemma M53Is()
    ensures Pow(2, 53) == M53 && Pow(2, 52) == M53 / 2
  {
    assert Pow(2, 13) == 8192;
    PowAdd(2, 13, 13);
    PowAdd(2, 26, 26);
    assert Pow(2, 53) == 2 * Pow(2, 52);
  }

  // ---- The result of a rounding ----

  // x lies between two successive powers of two.
  predicate Binade(x: real, e: int) {
    Two(e - 1) <= x < Two(e)
  }

  // Bits of precision that are left for a number with this exponent; none or less for the smallest.
  function Precision(e: int): int {
    if e < E_MIN then PREC - (E_MIN - e) else PREC
  }

  function RoundProduct(x: real, t: real, mode: Mode): int {
    Round(x * t, mode)
  }

  // x * 2^k rounded to an integer.
  function RoundScale(x: real, k: int, mode: Mode): int {
    RoundProduct(x, Two(k), mode)
  }

  // n units of the last bit that is kept, as a 53-bit mantissa and an exponent.
  predicate Mantissa(n: int, e0: int, m: nat, e: int) {
    var prec := Precision(e0);
    && n >= 0 && (prec < 0 ==> n == 0)
    && var m0 := n * Pow(2, PREC - prec);
       (m == if m0 >= M53 then m0 / 2 else m0) && (e == if m0 >= M53 then e0 + 1 else e0)
  }

  // m * 2^(e - 53) is x rounded, where x has exponent e0.
  predicate RoundedAt(x: real, e0: int, mode: Mode, m: nat, e: int) {
    Binade(x, e0) && Mantissa(RoundScale(x, Precision(e0) - e0, mode), e0, m, e)
  }

  // ---- Values that stand for a real number up to a sticky bit ----

  // a is y, or its sticky floor.
  predicate StandsFor(a: nat, y: real) {
    a as real == y || (a == Sticky(y) && y >= 0.0)
  }

  // x * 2^k
  function Scale(x: real, k: int): real {
    x * Two(k)
  }

  lemma ScaleAdd(x: real, j: int, k: int)
    ensures Scale(x, j + k) == Scale(Scale(x, j), k)
  {
    var z := TwoAddTo(j, k, Two(j), Two(k));
    RScale(x, Two(j), Two(k), z);
  }

  // The exponent of the stand-in is that of the number.
  lemma SameBinade(a: nat, y: real, g: nat)
    requires StandsFor(a, y) && (a as real == y || a >= Pow(2, 55))
    requires Pow(2, g) <= a < Pow(2, g + 1)
    ensures Two(g) <= y < Two(g + 1)
  {
    TwoNat(g);
    TwoNat(g + 1);
    if a as real != y {
      PositiveLog(a, g);
      StickyBetween(y, Pow(2, g), Pow(2, g + 1), a);
    }
  }

  lemma PositiveLog(a: nat, g: nat)
    requires Pow(2, 55) <= a < Pow(2, g + 1)
    ensures Pow(2, g) % 2 == 0
  {
    if g == 0 {
      PowMono(2, 1, 55);
    } else {
      assert Pow(2, g) == 2 * Pow(2, g - 1);
    }
  }

  // An even lower bound and any upper bound hold for the number when they hold for its sticky floor.
  lemma StickyBetween(y: real, lo: nat, hi: nat, a: int)
    requires a == Sticky(y) && lo <= a < hi && lo % 2 == 0
    ensures lo as real <= y < hi as real
  {
    var k := y.Floor;
    assert k as real <= y < (k + 1) as real;
    assert lo <= k < hi;
  }

  // Scaling keeps the order and moves powers of two.
  lemma ScaleOrder(a: real, b: real, k: int)
    ensures (a <= b <==> Scale(a, k) <= Scale(b, k)) && (a < b <==> Scale(a, k) < Scale(b, k))
  {
    TwoPos(k);
    TimesOrder(a, b, Two(k));
  }

  lemma TimesOrder(a: real, b: real, t: real)
    requires t > 0.0
    ensures (a <= b <==> a * t <= b * t) && (a < b <==> a * t < b * t)
  {
    assert b * t - a * t == (b - a) * t;
    if a < b {
      RealMulPos(b - a, t);
    } else if b < a {
      RealMulPos(a - b, t);
    }
  }

  lemma ScaleTwo(j: int, k: int, n: int)
    requires j + k == n
    ensures Scale(Two(j), k) == Two(n)
  {
    TwoAdd(j, k);
  }

  lemma BinadeShift(x: real, k: int, g: int)
    requires Two(g) <= Scale(x, k) < Two(g + 1)
    ensures Binade(x, g + 1 - k)
  {
    ScaleTwo(g - k, k, g);
    ScaleTwo(g + 1 - k, k, g + 1);
    ScaleOrder(Two(g - k), x, k);
    ScaleOrder(x, Two(g + 1 - k), k);
    SameTwo(g - k, g + 1 - k - 1);
  }

  lemma SameTwo(j: int, k: int)
    requires j == k
    ensures Two(j) == Two(k)
  {
  }

  // Rounding the stand-in is rounding the number, when enough bits are dropped or nothing was lost.
  lemma RoundStandIn(a: nat, y: real, shift: int, mode: Mode)
    requires StandsFor(a, y) && (shift >= 2 || a as real == y)
    ensures RoundShifted(a, shift, mode) == RoundScale(y, -shift, mode)
  {
    if a as real != y {
      DivisibleBy4(shift);
      TwoNat(shift);
      TwoInverse(shift);
      StickyScaled(a, y, Pow(2, shift), Two(shift), Two(-shift), mode);
    }
  }

  lemma StickyScaled(a: nat, y: real, d: nat, t: real, u: real, mode: Mode)
    requires y >= 0.0 && d > 0 && d % 4 == 0 && t == d as real && t * u == 1.0 && a == Sticky(y)
    ensures RoundBy(a, u, mode) == RoundProduct(y, u, mode)
  {
    Cancel(y, u, t);
    Cancel(a as real, u, t);
    StickyRound(y, d, y * u, a as real * u, mode);
  }

  lemma RScale(x: real, t: real, u: real, tu: real)
    requires tu == t * u
    ensures x * tu == (x * t) * u
  {
  }

  lemma DivisibleBy4(s: nat)
    requires s >= 2
    ensures Pow(2, s) % 4 == 0 && Pow(2, s) > 0
  {
    PowPos(2, s);
    assert Pow(2, s) == 2 * (2 * Pow(2, s - 2));
  }

  lemma RoundScaleAdd(x: real, j: int, k: int, mode: Mode)
    ensures RoundScale(Scale(x, j), k, mode) == RoundScale(x, j + k, mode)
  {
    ScaleAdd(x, j, k);
  }

  // ---- The methods ----

  // m * radix^f * 2^j, rounded.
  function RoundTimes(m: nat, radix: nat, f: int, j: int, mode: Mode): int
    requires radix > 0
  {
    RoundScale(Times(m, radix, f), j, mode)
  }

  function LimbsToRound(radix: nat, shift: nat, f: int, e: int): nat
    requires 1 <= radix <= RADIX_MAX
  {
    2 + LimbsNeeded(radix, shift, f, true, e) + if (f >= 0 || radix == 1) && f * shift + e > 0 then Extra(f * shift + e)
                                                else 0
  }

  // r := round(m * 2^e * (radix * 2^shift)^f)
  method MulPowRound(r: Mpb, m: nat, e: int, radix: nat, shift: nat, f: int, mode: Mode)
    requires OddRadix(radix) && r.Valid() && 0 < m < B2
    requires LimbsToRound(radix, shift, f, e) <= r.tab.Length
    modifies r`len, r.tab
    ensures r.Valid() && r.Value() == RoundTimes(m, radix, f, f * shift + e, mode)
    ensures r.Value() > 0 ==> r.Normal()
  {
    r.SetU64(m);
    ghost var k;
    var eOffset;
    eOffset, k := MulPow(r, radix, shift, f, true, e);
    StandInOf(r.Value(), m, radix, f, k);
    RoundedStandIn(r.Value(), m, radix, f, k, eOffset - e, mode);
    assert eOffset < e ==> e - eOffset == f * shift + e;
    r.ShrRound(eOffset - e, mode);
  }

  // What MulPow leaves stands for the scaled number.
  lemma StandInOf(a: nat, m: nat, radix: nat, f: int, k: nat)
    requires radix > 0 && a == StickyTimes(m, radix, f, k)
    ensures StandsFor(a, Scale(Times(m, radix, f), k))
  {
    TimesPos(m, radix, f);
    ScalePos(Times(m, radix, f), k);
  }

  lemma RoundedStandIn(a: nat, m: nat, radix: nat, f: int, k: nat, s: int, mode: Mode)
    requires radix > 0 && StandsFor(a, Scale(Times(m, radix, f), k))
    requires s >= 2 || (k == 0 && a as real == Times(m, radix, f))
    ensures RoundShifted(a, s, mode) == RoundTimes(m, radix, f, k - s, mode)
  {
    ExactScale(Times(m, radix, f));
    RoundStandIn(a, Scale(Times(m, radix, f), k), s, mode);
    RoundScaleAdd(Times(m, radix, f), k, -s, mode);
  }

  lemma TimesPos(m: nat, radix: nat, f: int)
    requires radix > 0
    ensures Times(m, radix, f) >= 0.0 && (m > 0 ==> Times(m, radix, f) > 0.0)
  {
    PowPos(radix, if f >= 0 then f else -f);
    if m > 0 && f >= 0 {
      MulPos(m, Pow(radix, f));
    }
  }

  lemma ScalePos(x: real, k: int)
    requires x >= 0.0
    ensures Scale(x, k) >= 0.0 && (x > 0.0 ==> Scale(x, k) > 0.0)
  {
    TwoPos(k);
    if x > 0.0 {
      RealMulPos(x, Two(k));
    }
  }

  lemma RealMulPos(a: real, b: real)
    requires a > 0.0 && b > 0.0
    ensures a * b > 0.0
  {
  }

  lemma ExactScale(x: real)
    ensures Scale(x, 0) == x
  {
    assert Two(0) == 1.0;
  }

  // ---- Rounding to a mantissa ----

  lemma ScaleBelow(x: real, e0: int, prec: int)
    requires Binade(x, e0)
    ensures Two(prec - 1) <= Scale(x, prec - e0) < Two(prec)
  {
    ScaleOrder(Two(e0 - 1), x, prec - e0);
    ScaleOrder(x, Two(e0), prec - e0);
    ScaleTwo(e0 - 1, prec - e0, prec - 1);
    ScaleTwo(e0, prec - e0, prec);
  }

  // The rounded number has at most prec bits, or is the next power of two.
  lemma RoundBound(x: real, e0: int, prec: int, mode: Mode)
    requires Binade(x, e0)
    ensures var n := RoundScale(x, prec - e0, mode);
      && (prec < 0 ==> n == 0) && (prec >= 0 ==> 0 <= n <= Pow(2, prec)) && (prec > 0 ==> n >= Pow(2, prec - 1))
  {
    ScaleBelow(x, e0, prec);
    var y := Scale(x, prec - e0);
    TwoPos(prec - 1);
    if prec < 0 {
      TwoMono(prec, -1);
      assert Two(-1) == 0.5;
      RoundBetween(y, 0, 0, mode);
    } else {
      TwoNat(prec);
      if prec > 0 {
        TwoNat(prec - 1);
        RoundBetween(y, Pow(2, prec - 1), Pow(2, prec), mode);
      } else {
        RoundBetween(y, 0, Pow(2, prec), mode);
      }
    }
    RoundScaleIs(x, prec - e0, mode);
  }

  lemma RoundScaleIs(x: real, k: int, mode: Mode)
    ensures RoundScale(x, k, mode) == Round(Scale(x, k), mode)
  {
  }

  lemma RoundBetween(y: real, lo: int, hi: int, mode: Mode)
    requires lo as real <= y && (y <= hi as real || (hi == lo && y < lo as real + 0.5))
    ensures lo <= Round(y, mode) <= hi
  {
  }

  // (m, e) with m * 2^(e - 53) = round(a / 2^eOffset), a standing for x * 2^eOffset; 2^52 <= m < 2^53 or m = 0.
  method RoundToD(a: Mpb, eOffset: int, mode: Mode, ghost x: real) returns (m: nat, e: int, ghost e0: int)
    requires a.Valid() && a.Normal() && a.len + 2 <= a.tab.Length && x >= 0.0
    requires StandsFor(a.Value(), Scale(x, eOffset))
    requires (a.Value() as real == Scale(x, eOffset) || a.Value() >= Pow(2, 55))
    modifies a`len, a.tab
    ensures if x == 0.0 then m == 0 && e == 0 else RoundedAt(x, e0, mode, m, e)
    ensures a.Valid()
  {
    ZeroStandIn(a.Value(), x, eOffset);
    var g := a.FloorLog2();
    if g == -1 {
      return 0, 0, 0;
    }
    e := g + 1 - eOffset;
    e0 := e;
    var prec := Precision(e);
    RoundedMantissa(a.Value(), x, eOffset, g, prec, mode);
    m, e := ShiftToMantissa(a, g + 1 - prec, prec, e, mode);
  }

  // The bits of a that are kept, as a mantissa.
  method ShiftToMantissa(a: Mpb, shift: int, prec: int, e0: int, mode: Mode) returns (m: nat, e: int)
    requires a.Valid() && a.len + 2 <= a.tab.Length && prec == Precision(e0) && shift + PREC >= 0
    requires var n := RoundShifted(a.Value(), shift, mode);
      (prec < 0 ==> n == 0) && (prec >= 0 ==> 0 <= n <= Pow(2, prec))
    modifies a`len, a.tab
    ensures a.Valid() && Mantissa(RoundShifted(old(a.Value()), shift, mode), e0, m, e)
  {
    FewExtra(0 - shift);
    a.ShrRound(shift, mode);
    MantissaFits(a.Value(), prec);
    var n := a.GetU64();
    m, e := ToMantissa(n, prec, e0);
  }

  // Fill up the mantissa with zeros; it may have overflowed by one.
  method ToMantissa(n: nat, prec: int, e0: int) returns (m: nat, e: int)
    requires prec == Precision(e0) && n * Pow(2, PREC - prec) <= M53 && (prec < 0 ==> n == 0)
    ensures Mantissa(n, e0, m, e)
  {
    m, e := n * Pow(2, PREC - prec) % B2, e0;
    if m >= M53 {
      m, e := m / 2, e + 1;
    }
  }

  // What the shift with rounding leaves.
  lemma RoundedMantissa(v: nat, x: real, eOffset: int, g: nat, prec: int, mode: Mode)
    requires StandsFor(v, Scale(x, eOffset)) && (v as real == Scale(x, eOffset) || v >= Pow(2, 55))
    requires Pow(2, g) <= v < Pow(2, g + 1) && prec <= PREC
    ensures var e0 := g + 1 - eOffset;
      && Binade(x, e0) && RoundShifted(v, g + 1 - prec, mode) == RoundScale(x, prec - e0, mode)
    ensures var n := RoundShifted(v, g + 1 - prec, mode);
      (prec < 0 ==> n == 0) && (prec >= 0 ==> 0 <= n <= Pow(2, prec))
  {
    SameBinade(v, Scale(x, eOffset), g);
    BinadeShift(x, eOffset, g);
    EnoughBits(v, g, prec, Scale(x, eOffset));
    RoundStandIn(v, Scale(x, eOffset), g + 1 - prec, mode);
    RoundScaleAdd(x, eOffset, prec - g - 1, mode);
    RoundBound(x, g + 1 - eOffset, prec, mode);
    assert eOffset + (prec - g - 1) == prec - (g + 1 - eOffset) && -(g + 1 - prec) == prec - g - 1;
  }

  lemma ZeroStandIn(v: nat, x: real, k: int)
    requires x >= 0.0 && StandsFor(v, Scale(x, k)) && (v as real == Scale(x, k) || v >= Pow(2, 55))
    ensures v == 0 <==> x == 0.0
  {
    ScalePos(x, k);
    PowPos(2, 55);
    if x == 0.0 {
      assert Scale(0.0, k) == 0.0;
      assert Sticky(0.0) == 0;
    }
  }

  // A stand-in that lost something has bits to spare.
  lemma EnoughBits(v: nat, g: nat, prec: int, y: real)
    requires Pow(2, g) <= v < Pow(2, g + 1) && prec <= PREC && (v as real == y || v >= Pow(2, 55))
    ensures g + 1 - prec >= 2 || v as real == y
  {
    if v as real != y && g < 55 {
      PowMono(2, g + 1, 55);
    }
  }

  lemma FewExtra(n: int)
    requires n <= PREC
    ensures n >= 0 ==> Extra(n) <= 2
  {
  }

  lemma MantissaFits(n: nat, prec: int)
    requires prec <= PREC && (prec < 0 ==> n == 0) && (prec >= 0 ==> n <= Pow(2, prec))
    ensures n < B2 && n * Pow(2, PREC - prec) <= M53
  {
    M53Is();
    if prec >= 0 {
      PowMono(2, prec, PREC);
      PowAdd(2, prec, PREC - prec);
      PowPos(2, PREC - prec);
      MulLe(n, Pow(2, prec), Pow(2, PREC - prec), Pow(2, PREC - prec));
    }
  }

  // ---- The whole: a * (radix * 2^shift)^f rounded to a mantissa ----

  method MulPowRoundToD(a: Mpb, radix: nat, shift: nat, f: int, mode: Mode) returns (m: nat, e: int, ghost e0: int)
    requires OddRadix(radix) && a.Valid() && a.Normal() && a.Value() > 0
    requires a.len + LimbsNeeded(radix, shift, f, false, 55) + 2 <= a.tab.Length
    modifies a`len, a.tab
    ensures a.Valid() && RoundedAt(Scale(Times(old(a.Value()), radix, f), f * shift), e0, mode, m, e)
  {
    ghost var v, x := a.Value(), Scale(Times(a.Value(), radix, f), f * shift);
    TimesPos(v, radix, f);
    ScalePos(Times(v, radix, f), f * shift);
    ghost var k;
    var eOffset;
    eOffset, k := MulPow(a, radix, shift, f, false, 55);
    StandInOf(a.Value(), v, radix, f, k);
    ScaleAdd(Times(v, radix, f), f * shift, eOffset);
    ExactScale(Times(v, radix, f));
    m, e, e0 := RoundToD(a, eOffset, mode, x);
  }
}
