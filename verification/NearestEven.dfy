// What a rounded mantissa and exponent mean: section 4.3.1 of IEEE 754-2019, round to nearest with ties to
// even, over all numbers with a 53-bit significand and an exponent that is bounded below.
module NearestEven {
  import opened Arith
  import opened Powers
  import opened Rounding
  import opened Bignum
  import opened Float64

  // The exponent of the last bit of the smallest numbers.
  const Q_MIN: int := -1074

  function Abs(x: real): real {
    if x >= 0.0 then x else -x
  }

  // The significand of m * 2^(e - 53) in units of its last place.
  function LastUnits(m: nat, e: int): nat {
    if e >= E_MIN then m
    else
      PowPos(2, E_MIN - e);
      m / Pow(2, E_MIN - e)
  }

  function FloatValue(m: nat, e: int): real {
    Scale(m as real, e - PREC)
  }

  // The result is at least as near to x as any representable number k * 2^q, and has an even significand when
  // another one is just as near.
  lemma RoundsToNearestEven(x: real, e0: int, m: nat, e: int, k: nat, q: int)
    requires RoundedAt(x, e0, Nearest, m, e)
    requires k < M53 && q >= Q_MIN
    ensures var v, w := FloatValue(m, e), Scale(k as real, q);
      && Abs(x - v) <= Abs(x - w)
      && (Abs(x - v) == Abs(x - w) && v != w ==> LastUnits(m, e) % 2 == 0)
  {
    var prec := Precision(e0);
    var n, u := RoundScale(x, prec - e0, Nearest), e0 - prec;
    RoundBound(x, e0, prec, Nearest);
    MantissaIs(n, e0, m, e);
    var y, z := Scale(x, -u), Scale(Scale(k as real, q), -u);
    RoundScaleIs(x, -u, Nearest);
    ScaleBelow(x, e0, prec);
    ScaledCandidate(k, q, e0, prec, y, n, z);
    UnscaleDistance(x, y, n as real, u);
    UnscaleDistance(x, y, z, u);
    ScaleBack(Scale(k as real, q), -u);
    UnscaleOrder(Abs(y - n as real), Abs(y - z), u);
    if n % 2 == 0 {
      EvenUnits(n, e0, m, e);
    }
  }

  // In units of the last place: n against the candidate z.
  lemma ScaledCandidate(k: nat, q: int, e0: int, prec: int, y: real, n: int, z: real)
    requires k < M53 && q >= Q_MIN && prec == Precision(e0) && z == Scale(Scale(k as real, q), -(e0 - prec))
    requires Two(prec - 1) <= y && n == Round(y, Nearest)
    ensures Abs(y - n as real) <= Abs(y - z)
    ensures Abs(y - n as real) == Abs(y - z) && z != n as real ==> n % 2 == 0
  {
    var u := e0 - prec;
    ScaleAdd(k as real, q, -u);
    assert z == Scale(k as real, q - u);
    if q >= u {
      WholeCandidate(k, q - u, y, n, z);
    } else {
      TwoNat(52);
      M53Is();
      LowCandidate(k, q - u, y, n, z);
    }
  }

  lemma WholeCandidate(k: nat, j: nat, y: real, n: int, z: real)
    requires n == Round(y, Nearest) && z == Scale(k as real, j)
    ensures Abs(y - n as real) <= Abs(y - z)
    ensures Abs(y - n as real) == Abs(y - z) && z != n as real ==> n % 2 == 0
  {
    WholeScale(k, j, k * Pow(2, j));
    NearestInteger(y, n, k * Pow(2, j));
  }

  lemma WholeScale(k: nat, j: nat, kp: nat)
    requires kp == k * Pow(2, j)
    ensures Scale(k as real, j) == kp as real
  {
    TwoNat(j);
    ProductReal(k, Pow(2, j));
  }

  // A number with a smaller last place lies below the binade.
  lemma LowCandidate(k: nat, j: int, y: real, n: int, z: real)
    requires k < M53 && j < 0 && (M53 / 2) as real <= y && n == Round(y, Nearest) && z == Scale(k as real, j)
    ensures Abs(y - n as real) < Abs(y - z)
  {
    TwoMono(j, -1);
    assert Two(-1) == 0.5;
    TwoPos(j);
    HalfTimes(k as real, Two(j), M53 as real);
    var half: nat := M53 / 2;
    assert half * 2 == M53 && half as real * 2.0 == M53 as real;
    assert z < half as real;
    NearestInteger(y, n, M53 / 2);
    assert Abs(y - n as real) <= y - (M53 / 2) as real < y - z;
  }

  lemma HalfTimes(k: real, t: real, b: real)
    requires 0.0 <= k < b && 0.0 < t <= 0.5
    ensures k * t < b / 2.0
  {
    assert k * (0.5 - t) >= 0.0;
  }

  lemma NearestInteger(y: real, n: int, k: int)
    requires n == Round(y, Nearest)
    ensures Abs(y - n as real) <= Abs(y - k as real)
    ensures (Abs(y - n as real) == Abs(y - k as real) && n != k ==> n % 2 == 0)
  {
  }

  lemma ScaleBack(x: real, k: int)
    ensures Scale(Scale(x, k), -k) == x && Scale(Scale(x, -k), k) == x
  {
    ScaleAdd(x, k, -k);
    ScaleAdd(x, -k, k);
    ExactScale(x);
  }

  // Distances scale.
  lemma UnscaleDistance(x: real, y: real, z: real, u: int)
    requires y == Scale(x, -u)
    ensures Abs(x - Scale(z, u)) == Scale(Abs(y - z), u)
  {
    ScaleBack(x, u);
    TwoPos(u);
    DistanceTimes(y, z, Two(u));
  }

  lemma DistanceTimes(y: real, z: real, t: real)
    requires t > 0.0
    ensures Abs(y * t - z * t) == Abs(y - z) * t
  {
    assert y * t - z * t == (y - z) * t;
    TimesOrder(y, z, t);
  }

  lemma UnscaleOrder(a: real, b: real, u: int)
    ensures (a <= b <==> Scale(a, u) <= Scale(b, u)) && (a == b <==> Scale(a, u) == Scale(b, u))
  {
    ScaleOrder(a, b, u);
    ScaleOrder(b, a, u);
  }

  // The mantissa is n units of the last place.
  lemma MantissaIs(n: int, e0: int, m: nat, e: int)
    requires Mantissa(n, e0, m, e) && (Precision(e0) >= 0 ==> n <= Pow(2, Precision(e0)))
    ensures FloatValue(m, e) == Scale(n as real, e0 - Precision(e0))
  {
    var prec := Precision(e0);
    var m0 := n * Pow(2, PREC - prec);
    MantissaFits(n, prec);
    UnitsScaled(n, PREC - prec, m0, e0 - PREC, e0 - prec);
    if m0 >= M53 {
      assert m0 == 2 * m;
      TwiceScaled(m, m0, e0 - PREC);
    }
  }

  lemma UnitsScaled(n: nat, k: nat, m: nat, j: int, i: int)
    requires m == n * Pow(2, k) && i == k + j
    ensures Scale(m as real, j) == Scale(n as real, i)
  {
    WholeScale(n, k, m);
    ScaleAdd(n as real, k, j);
  }

  lemma TwiceScaled(m: nat, m0: nat, j: int)
    requires m0 == 2 * m
    ensures Scale(m as real, j + 1) == Scale(m0 as real, j)
  {
    ScaleAdd(m as real, 1, j);
    assert Two(1) == 2.0;
  }

  // An even number of units makes an even significand.
  lemma EvenUnits(n: int, e0: int, m: nat, e: int)
    requires Mantissa(n, e0, m, e) && (Precision(e0) >= 0 ==> n <= Pow(2, Precision(e0)))
    requires n % 2 == 0
    ensures LastUnits(m, e) % 2 == 0
  {
    var prec := Precision(e0);
    MantissaFits(n, prec);
    M53Is();
    assert Pow(2, 0) == 1;
    if n * Pow(2, PREC - prec) >= M53 {
      if e < E_MIN {
        PowPos(2, PREC - prec - 1);
        assert Pow(2, PREC - prec) == 2 * Pow(2, PREC - prec - 1);
        HalfOf(n, Pow(2, PREC - prec - 1), m);
      }
    } else if e < E_MIN {
      PowPos(2, PREC - prec);
      DivModIs(m, Pow(2, PREC - prec), n, 0);
    }
  }

  lemma HalfOf(n: nat, p: nat, m: nat)
    requires p > 0 && m == (n * (2 * p)) / 2
    ensures m / p == n
  {
    assert n * (2 * p) == 2 * (n * p);
    DivModIs(m, p, n, 0);
  }
}
