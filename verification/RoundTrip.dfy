// A real number that is near enough to a 64-bit floating point number rounds to it.
module RoundTrip {
  import opened Powers
  import opened Rounding
  import opened Bignum
  import opened Float64

  // m * 2^(e - 53) is a finite double other than zero, written with a full mantissa: that of a subnormal
  // number ends in zeros.
  predicate Double(m: nat, e: int) {
    && M53 / 2 <= m < M53 && -1073 <= e
    && (e < E_MIN ==> Pow(2, E_MIN - e) > 0 && m % Pow(2, E_MIN - e) == 0)
  }

  // y, in units of the last place of m, is less than half a unit off; a quarter is enough below a power of two.
  predicate Near(y: real, m: nat) {
    (m as real - 0.25 <= y || (m > M53 / 2 && m as real - 0.5 < y)) && y < m as real + 0.5
  }

  lemma RoundsBack(y: real, m: nat, e: int, e0: int, m': nat, e': int)
    requires Double(m, e) && Near(Scale(y, PREC - e), m) && RoundedAt(y, e0, Nearest, m', e')
    ensures m' == m && e' == e
  {
    var z := Scale(y, PREC - e);
    M53Is();
    TwoNat(52);
    TwoNat(53);
    if z >= (M53 / 2) as real {
      AboveIs(y, m, e, z);
      OneBinade(y, e0, e);
      SameExponent(y, m, e, z);
      MantissaOf(m, e, m', e');
    } else {
      BelowIs(y, e, z);
      OneBinade(y, e0, e - 1);
      LowerExponent(y, e, z);
      CarriedMantissa(e, m', e');
    }
  }

  // The exponent of a number is unique.
  lemma OneBinade(y: real, e0: int, e: int)
    requires Binade(y, e0) && Binade(y, e)
    ensures e0 == e
  {
    if e0 < e {
      TwoMono(e0, e - 1);
    } else if e < e0 {
      TwoMono(e, e0 - 1);
    }
  }

  lemma AboveIs(y: real, m: nat, e: int, z: real)
    requires z == Scale(y, PREC - e) && (M53 / 2) as real <= z < m as real + 0.5 && m < M53
    requires Two(52) == (M53 / 2) as real && Two(53) == M53 as real
    ensures Binade(y, e)
  {
    assert z < M53 as real;
    BinadeShift(y, PREC - e, 52);
    assert 52 + 1 - (PREC - e) == e;
  }

  lemma BelowIs(y: real, e: int, z: real)
    requires z == Scale(y, PREC - e) && (M53 / 2) as real - 0.5 < z < (M53 / 2) as real
    requires Two(52) == (M53 / 2) as real
    ensures Binade(y, e - 1)
  {
    assert Two(52) == 2.0 * Two(51);
    assert Two(51) <= z;
    BinadeShift(y, PREC - e, 51);
    assert 51 + 1 - (PREC - e) == e - 1;
  }

  // Units of m that are kept when the precision of a subnormal number is less.
  function Kept(m: nat, e: int): nat
    requires Double(m, e)
  {
    if e < E_MIN then m / Pow(2, E_MIN - e) else m
  }

  lemma SameExponent(y: real, m: nat, e: int, z: real)
    requires Double(m, e) && z == Scale(y, PREC - e) && Near(z, m)
    ensures RoundScale(y, Precision(e) - e, Nearest) == Kept(m, e)
  {
    if e >= E_MIN {
      RoundScaleIs(y, PREC - e, Nearest);
      HalfOff(z, m);
    } else {
      SubnormalKept(y, m, e, z, E_MIN - e);
    }
  }

  lemma SubnormalKept(y: real, m: nat, e: int, z: real, d: nat)
    requires Double(m, e) && z == Scale(y, PREC - e) && Near(z, m) && e < E_MIN && d == E_MIN - e
    ensures RoundScale(y, Precision(e) - e, Nearest) == Kept(m, e)
  {
    RoundScaleAdd(y, PREC - e, 0 - d, Nearest);
    TwoNat(d);
    TwoInverse(d);
    WholeParts(m, Pow(2, d));
    Fewer(z, m, Kept(m, e), Pow(2, d), Two(d), Two(0 - d));
    assert PREC - e + (0 - d) == Precision(e) - e;
  }

  lemma HalfOff(z: real, n: nat)
    requires n as real - 0.5 < z < n as real + 0.5
    ensures Round(z, Nearest) == n
  {
  }

  // Less than half a unit off is much less than half of a larger unit off.
  lemma Fewer(z: real, m: nat, n: nat, p: nat, t: real, u: real)
    requires p > 0 && m == n * p && t == p as real && t * u == 1.0
    requires m as real - 0.5 < z < m as real + 0.5
    ensures RoundProduct(z, u, Nearest) == n
  {
    InverseBounds(t, u);
    ProductReal(n, p);
    Cancel(n as real, u, t);
    assert m as real * u == n as real by {
      assert (n as real * t) * u == (n as real * u) * t;
    }
    TimesOrder(m as real - 0.5, z, u);
    TimesOrder(z, m as real + 0.5, u);
    Apart(m as real, u, n as real);
    HalfOff(z * u, n);
  }

  lemma InverseBounds(t: real, u: real)
    requires t >= 1.0 && t * u == 1.0
    ensures 0.0 < u <= 1.0
  {
    TimesOrder(0.0, u, t);
    TimesOrder(u, 1.0, t);
  }

  lemma Apart(m: real, u: real, n: real)
    requires m * u == n
    ensures (m - 0.5) * u == n - 0.5 * u && (m + 0.5) * u == n + 0.5 * u
  {
  }

  lemma MantissaOf(m: nat, e: int, m': nat, e': int)
    requires Double(m, e) && Mantissa(Kept(m, e), e, m', e')
    ensures m' == m && e' == e
  {
    if e >= E_MIN {
      assert Pow(2, 0) == 1;
    } else {
      assert PREC - Precision(e) == E_MIN - e;
      WholeParts(m, Pow(2, E_MIN - e));
    }
  }

  lemma WholeParts(m: nat, p: nat)
    requires p > 0 && m % p == 0
    ensures m / p * p == m
  {
  }

  // Just below a power of two the number rounds up to it.
  lemma LowerExponent(y: real, e: int, z: real)
    requires e >= -1073 && z == Scale(y, PREC - e) && (M53 / 2) as real - 0.25 <= z < (M53 / 2) as real
    ensures var p := Precision(e - 1); p >= 0 && RoundScale(y, p - (e - 1), Nearest) == Pow(2, p)
  {
    var p := Precision(e - 1);
    if p == 53 {
      M53Is();
      RoundScaleAdd(y, PREC - e, 1, Nearest);
      RoundScaleIs(z, 1, Nearest);
      assert Two(1) == 2.0;
      TieUp(Scale(z, 1));
      assert PREC - e + 1 == p - (e - 1);
    } else {
      LowerSubnormal(y, e, z, 52 - p);
    }
  }

  lemma LowerSubnormal(y: real, e: int, z: real, d: nat)
    requires e >= -1073 && z == Scale(y, PREC - e) && (M53 / 2) as real - 0.25 <= z < (M53 / 2) as real
    requires Precision(e - 1) < 53 && d == 52 - Precision(e - 1)
    ensures var p := Precision(e - 1); p >= 0 && RoundScale(y, p - (e - 1), Nearest) == Pow(2, p)
  {
    var p := Precision(e - 1);
    RoundScaleAdd(y, PREC - e, 0 - d, Nearest);
    TwoNat(d);
    TwoInverse(d);
    M53Is();
    PowAdd(2, p, d);
    PowPos(2, d);
    Fewer(z, M53 / 2, Pow(2, p), Pow(2, d), Two(d), Two(0 - d));
    assert PREC - e + (0 - d) == p - (e - 1);
  }

  lemma TieUp(z: real)
    requires M53 as real - 0.5 <= z < M53 as real
    ensures Round(z, Nearest) == M53
  {
    FloorIs(z, M53 - 1);
  }

  lemma CarriedMantissa(e: int, m': nat, e': int)
    requires e >= -1073 && Precision(e - 1) >= 0 && Mantissa(Pow(2, Precision(e - 1)), e - 1, m', e')
    ensures m' == M53 / 2 && e' == e
  {
    var p := Precision(e - 1);
    M53Is();
    PowAdd(2, p, PREC - p);
  }
}
