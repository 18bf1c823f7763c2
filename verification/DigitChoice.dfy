// The digits that are printed are the ones that should be shown: those that the search finds, and those of integers,
// for which there is no search.
module DigitChoice {
  import opened Arith
  import opened Powers
  import opened RealPowers
  import opened Rounding
  import opened Bignum
  import opened Float64
  import opened NearestEven
  import opened RoundTrip
  import opened DigitBounds
  import opened DigitErrors
  import opened Doubles
  import opened Halfway
  import opened Dtoa
  import opened DtoaLength
  import opened NumberText
  import opened Shortest
  import opened Log2Radix
  import opened RadixPower
  import opened Digits
  import opened AtodRounding
  import opened Atod
  import DtoaText

  // ---- The digits of the search ----

  // The first digit of a number rounded to digits is not zero.
  lemma RoundedLeads(x: real, radix: nat, p: nat, e0: int, n: nat, ex: int)
    requires radix >= 2 && p > 0 && RP(radix, e0 - 1) <= x && Rounded(x, radix, p, e0, n, ex)
    ensures n >= Pow(radix, p - 1)
  {
    if ex == e0 {
      LeadsFirst(x, radix, p, e0);
    } else {
      LeadsSecond(x, radix, p, e0);
    }
  }

  lemma LeadsFirst(x: real, radix: nat, p: nat, e0: int)
    requires radix >= 2 && p > 0 && RP(radix, e0 - 1) <= x
    ensures DigitsOf(x, radix, p, e0) >= Pow(radix, p - 1)
  {
    RPPos(radix, p - e0);
    RPAdd(radix, e0 - 1, p - e0, p - 1);
    LeadsAtOnce(RP(radix, e0 - 1), x, RP(radix, p - e0), Pow(radix, p - 1));
  }

  lemma LeadsAtOnce(y: real, x: real, t: real, q: nat)
    requires y <= x && t > 0.0 && q as real == Product(y, t)
    ensures Round(Product(x, t), Nearest) >= q
  {
    TimesOrder(y, x, t);
    RoundAtLeast(Product(x, t), q);
  }

  lemma LeadsSecond(x: real, radix: nat, p: nat, e0: int)
    requires radix >= 2 && p > 0 && DigitsOf(x, radix, p, e0) >= Pow(radix, p)
    ensures DigitsOf(x, radix, p, e0 + 1) >= Pow(radix, p - 1)
  {
    var u, t := RP(radix, p - (e0 + 1)), RP(radix, p - e0);
    RPNext(radix, p - (e0 + 1), u, t);
    LeadsOne(x, radix, u, t, Pow(radix, p - 1), Pow(radix, p));
  }

  lemma LeadsOne(x: real, radix: nat, u: real, t: real, q: nat, qr: nat)
    requires radix >= 2 && t == radix as real * u && qr == radix * q && Round(Product(x, t), Nearest) >= qr
    ensures Round(Product(x, u), Nearest) >= q
  {
    ProductReal(radix, q);
    RoundedFromHalf(Product(x, t), qr);
    LeadsBy(x, radix as real, u, t, Product(x, t), Product(x, u), q as real);
    RoundAtLeast(Product(x, u), q);
  }

  lemma LeadsBy(x: real, r: real, u: real, t: real, z: real, y: real, q: real)
    requires r >= 2.0 && t == r * u && z == Product(x, t) && y == Product(x, u) && z >= r * q - 0.5
    ensures y > q - 0.5
  {
    assert z == r * y;
    assert r * (q - 0.5) == r * q - 0.5 * r;
    if y <= q - 0.5 {
      TimesOrder(y, q - 0.5, r);
    }
  }

  lemma RoundedIsClosest(x: real, radix: nat, e0: int, mant: nat, p: nat, ex: int)
    requires radix >= 2 && p > 0 && RP(radix, e0 - 1) <= x && Rounded(x, radix, p, e0, mant, ex)
    ensures IsClosest(mant, ex - p, radix, p, x)
  {
    forall d: nat, g: int | d < Pow(radix, p)
      ensures Distance(mant, ex - p, radix, x) <= Distance(d, g, radix, x)
    {
      ClosestDigits(x, radix, p, e0, mant, ex, d, g);
    }
  }

  lemma DoubleLeads(b: nat, m: nat, e: int, radix: nat, e0: int, x: real)
    requires Unpacked(b, m, e, radix, e0) && x == FloatValue(m, e)
    ensures x == ValueOf(b) && RP(radix, e0 - 1) <= x
  {
    UnpackIs(b);
    PackIs(m, e);
    FirstExponent(e, radix);
    LeadingPower(m, e, radix, e0);
  }

  lemma EnoughIs(b: nat, m: nat, e: int, radix: nat, e0: int, p: nat)
    requires Unpacked(b, m, e, radix, e0)
    ensures IsEnough(b, p, radix) <==> Suffices(m, e, radix, e0, p)
    ensures NotEnough(b, p, radix) <==> TooFew(m, e, radix, e0, p)
  {
    UnpackIs(b);
    PackIs(m, e);
    forall s: nat, n: int
      ensures IsRounding(s, p, n, radix, b) <==> Rounded(FloatValue(m, e), radix, p, e0, s, n)
    {
    }
    if IsEnough(b, p, radix) {
      forall s: nat, n: int | Rounded(FloatValue(m, e), radix, p, e0, s, n)
        ensures IsNearest(Digital(s, radix, p, n), Pack(m, e))
      {
        assert IsRounding(s, p, n, radix, b);
      }
    }
    if NotEnough(b, p, radix) {
      forall s: nat, n: int | Rounded(FloatValue(m, e), radix, p, e0, s, n)
        ensures !IsNearest(Digital(s, radix, p, n), Pack(m, e))
      {
        assert IsRounding(s, p, n, radix, b);
      }
    }
  }

  // What the search finds is what should be shown.
  lemma FoundIsShown(b: nat, m: nat, e: int, radix: nat, e0: int, mant: nat, p: nat, ex: int)
    requires Unpacked(b, m, e, radix, e0) && Found(m, e, radix, e0, mant, p, ex)
    ensures IsShown(mant, p, ex, radix, b)
  {
    var x := FloatValue(m, e);
    UnpackIs(b);
    DoubleLeads(b, m, e, radix, e0, x);
    RoundedLeads(x, radix, p, e0, mant, ex);
    RoundedIsClosest(x, radix, e0, mant, p, ex);
    if p > 1 {
      EnoughIs(b, m, e, radix, e0, p - 1);
    }
    forall j: nat | p <= j <= MaxDigits(radix)
      ensures IsEnough(b, j, radix)
    {
      EnoughIs(b, m, e, radix, e0, j);
    }
  }

  // ---- The digits of integers ----

  lemma {:induction false} ZerosAtEnd(n: nat, radix: nat) returns (s: nat, z: nat)
    requires 2 <= radix <= RADIX_MAX && n > 0
    ensures n == s * Pow(radix, z) && s % radix != 0
    ensures Representation(n, radix) == Representation(s, radix) + ZeroDigits(z)
    decreases n
  {
    if n % radix != 0 {
      s, z := n, 0;
      assert Representation(n, radix) + ZeroDigits(0) == Representation(n, radix);
      assert Pow(radix, 0) == 1;
    } else {
      var q := TenthOf(n, radix);
      var z1;
      s, z1 := ZerosAtEnd(q, radix);
      z := z1 + 1;
      MoreZeros(s, Pow(radix, z1), radix, q);
      assert ZeroDigits(z1) + "0" == ZeroDigits(z);
      assert Representation(s, radix) + ZeroDigits(z) == (Representation(s, radix) + ZeroDigits(z1)) + "0";
    }
  }

  lemma TenthOf(n: nat, radix: nat) returns (q: nat)
    requires 2 <= radix <= RADIX_MAX && n > 0 && n % radix == 0
    ensures 0 < q < n && n == q * radix && Representation(n, radix) == Representation(q, radix) + "0"
  {
    var r;
    q, r := Parts(n, radix);
    if q >= n {
      MulLe(n, q, 2, radix);
    }
    OneDigitMore(q, 0, n, radix);
  }

  lemma MoreZeros(s: nat, p: nat, radix: nat, q: nat)
    requires q == s * p
    ensures q * radix == s * (radix * p)
  {
    Assoc3(s, radix, p);
    Assoc3(s, p, radix);
    Commute(p, radix);
  }

  // How many digits a number has.
  lemma DigitsHave(n: nat, radix: nat)
    requires 2 <= radix <= RADIX_MAX && n > 0
    ensures var k := |Representation(n, radix)|; 0 < k && Pow(radix, k - 1) <= n < Pow(radix, k)
  {
    RepresentationNumber(n, radix);
    var ds := Representation(n, radix);
    LetterIsNoZero(ds[0], radix);
    LeadingDigit(ds, radix);
  }

  // Fewer digits differ from the integer,
  lemma FewerDiffer(s: nat, z: nat, radix: nat, c: nat, f: nat)
    requires radix >= 2 && s % radix != 0 && c < s
    ensures c * Pow(radix, f) != s * Pow(radix, z)
  {
    PowPos(radix, f);
    PowPos(radix, z);
    if f <= z {
      PowAdd(radix, z - f, f);
      PowPos(radix, z - f);
      BelowMultiple(c, s, Pow(radix, z - f), Pow(radix, f), Pow(radix, z));
    } else {
      PowAdd(radix, f - z, z);
      NoMultiple(c, s, radix, Pow(radix, f - z - 1), Pow(radix, f - z), Pow(radix, z), Pow(radix, f));
    }
  }

  lemma BelowMultiple(c: nat, s: nat, p: nat, q: nat, pq: nat)
    requires c < s && p > 0 && q > 0 && pq == p * q
    ensures c * q != s * pq
  {
    Assoc3(s, p, q);
    MulAtLeast(s, p);
    LessTimes(q, c, s * p);
  }

  lemma NoMultiple(c: nat, s: nat, radix: nat, p: nat, q: nat, t: nat, qt: nat)
    requires radix >= 2 && s % radix != 0 && q == radix * p && t > 0 && qt == q * t
    ensures c * qt != s * t
  {
    Assoc3(c, q, t);
    NotMultiple(s, c, p, radix, q);
    Cancel(c * q, s, t);
  }

  lemma NotMultiple(s: nat, c: nat, p: nat, radix: nat, q: nat)
    requires radix >= 2 && s % radix != 0 && q == radix * p
    ensures c * q != s
  {
    Assoc3(c, radix, p);
    Assoc3(c, p, radix);
    Commute(radix, p);
    if c * q == s {
      DivModIs(s, radix, c * p, 0);
    }
  }

  lemma Cancel(a: nat, b: nat, p: nat)
    requires p > 0 && a != b
    ensures a * p != b * p
  {
    if a < b {
      LessTimes(p, a, b);
    } else {
      LessTimes(p, b, a);
    }
  }

  // ... by 1 at least.
  lemma FewerFar(n: nat, s: nat, z: nat, k: nat, radix: nat, c: nat, f: int)
    requires radix >= 2 && n == s * Pow(radix, z) && s % radix != 0 && k > 1 && Pow(radix, k - 1) <= s
    requires c < Pow(radix, k - 1)
    ensures Distance(c, f, radix, n as real) >= 1.0
  {
    PowPos(radix, z);
    if f >= 0 {
      WholeFar(n, s, z, radix, c, f);
    } else {
      MulAtLeast(s, Pow(radix, z));
      BelowDigits(c, f, radix, k - 1, k - 2);
      PowerFar(n, k - 2, radix, Product(c as real, RP(radix, f)));
    }
  }

  lemma WholeFar(n: nat, s: nat, z: nat, radix: nat, c: nat, f: nat)
    requires radix >= 2 && n == s * Pow(radix, z) && s % radix != 0 && c < s
    ensures Distance(c, f, radix, n as real) >= 1.0
  {
    FewerDiffer(s, z, radix, c, f);
    ProductApart(c, Pow(radix, f), n);
  }

  lemma ProductApart(c: nat, p: nat, n: nat)
    requires c * p != n
    ensures Abs(Product(c as real, p as real) - n as real) >= 1.0
  {
    ProductReal(c, p);
    WholeApart(c * p, n);
  }

  lemma PowerFar(n: nat, k: nat, radix: nat, y: real)
    requires radix >= 2 && Pow(radix, k + 1) <= n && y < RP(radix, k)
    ensures Abs(y - n as real) >= 1.0
  {
    PowPos(radix, k);
    MulLe(2, radix, Pow(radix, k), Pow(radix, k));
    WholeAbove(y, Pow(radix, k), n);
  }

  lemma WholeApart(a: int, b: int)
    requires a != b
    ensures Abs(a as real - b as real) >= 1.0
  {
  }

  lemma WholeAbove(y: real, p: nat, n: nat)
    requires y < p as real && p < n
    ensures Abs(y - n as real) >= 1.0
  {
  }

  // A number that is 1 or more away from an integer that is a double is read as another double.
  lemma IntegerAlone(b: nat, n: nat, y: real)
    requires 0 < b < INFINITY && ValueOf(b) == n as real && n < M53 && y >= 0.0 && Abs(y - n as real) >= 1.0
    ensures !IsNearest(y, b)
  {
    IntegerPlace(b, n);
    Gap(b);
    Gap(b - 1);
    TwoMono(LastPlace(b) - 1, -1);
    TwoMono(LastPlace(b - 1) - 1, -1);
    assert Two(-1) == 0.5;
    BetweenIs(y, b, Half(b - 1), Half(b));
  }

  lemma IntegerPlace(b: nat, n: nat)
    requires 0 < b < INFINITY && ValueOf(b) == n as real && n < M53
    ensures LastPlace(b - 1) <= LastPlace(b) <= 0
  {
    if LastPlace(b) > 0 {
      M53Is();
      TwoMono(1, LastPlace(b));
      assert Two(1) == 2.0;
      RealMulLe(M52 as real, Significand(b) as real, 2.0, Two(LastPlace(b)));
    }
  }

  lemma FewerRead(b: nat, n: nat, s: nat, z: nat, k: nat, radix: nat, c: nat, f: int)
    requires 0 < b < INFINITY && ValueOf(b) == n as real && n < M53 && radix >= 2 && n == s * Pow(radix, z)
    requires s % radix != 0 && k > 1 && Pow(radix, k - 1) <= s && c < Pow(radix, k - 1)
    ensures !Reads(c, f, radix, b)
  {
    FewerFar(n, s, z, k, radix, c, f);
    RPPos(radix, f);
    NotNegative(c as real, RP(radix, f));
    IntegerAlone(b, n, Product(c as real, RP(radix, f)));
  }

  lemma IntegerNeedsAll(b: nat, n: nat, s: nat, z: nat, k: nat, radix: nat, p: nat)
    requires 0 < b < INFINITY && ValueOf(b) == n as real && n < M53 && 2 <= radix <= 36 && n == s * Pow(radix, z)
    requires s % radix != 0 && k > 1 && p == k - 1 && Pow(radix, p) <= s
    ensures NotEnough(b, p, radix)
  {
    forall c: nat, ex: int | IsRounding(c, p, ex, radix, b)
      ensures !Reads(c, ex - p, radix, b)
    {
      FewerRead(b, n, s, z, k, radix, c, ex - p);
    }
  }

  lemma UnpackedBits(b: nat, radix: nat) returns (m: nat, e: int, e0: int)
    requires 0 < b < INFINITY && 2 <= radix <= RADIX_MAX
    ensures Unpacked(b, m, e, radix, e0) && Double(m, e) && e <= 1024
  {
    UnpackIs(b);
    m, e := Unpack(b).0, Unpack(b).1;
    e0 := 1 + MulLog2Radix(e - 1, radix);
  }

  // Some digits are the rounding.
  lemma SomeRounding(b: nat, p: nat, radix: nat) returns (s: nat, n: int)
    requires 0 < b < INFINITY && 2 <= radix <= RADIX_MAX && 1 <= p <= MaxDigits(radix)
    ensures IsRounding(s, p, n, radix, b)
  {
    var m, e, e0 := UnpackedBits(b, radix);
    PackIs(m, e);
    UnpackIs(b);
    s, n := FewerDigits(m, e, radix, e0, p);
  }

  // A double that has digits is rounded to itself.
  lemma ExactRounds(b: nat, s: nat, z: int, radix: nat, k: nat, p: nat, c: nat, ex: int)
    requires 0 < b < INFINITY && 2 <= radix <= RADIX_MAX && 0 < k <= p && s < Pow(radix, k)
    requires Product(s as real, RP(radix, z)) == ValueOf(b) && IsRounding(c, p, ex, radix, b)
    ensures Digital(c, radix, p, ex) == ValueOf(b)
  {
    var x := ValueOf(b);
    var e0 := LeadingBits(b, radix, x);
    PowMono(radix, k, p);
    ClosestDigits(x, radix, p, e0, c, ex, s, z);
  }

  lemma LeadingBits(b: nat, radix: nat, x: real) returns (e0: int)
    requires 0 < b < INFINITY && 2 <= radix <= RADIX_MAX && x == ValueOf(b)
    ensures e0 == 1 + MulLog2Radix(Unpack(b).1 - 1, radix) && RP(radix, e0 - 1) <= x
  {
    var m, e;
    m, e, e0 := UnpackedBits(b, radix);
    PackIs(m, e);
    UnpackIs(b);
    DoubleLeads(b, m, e, radix, e0, x);
  }

  lemma RoundingHas(b: nat, c: nat, k: nat, ex: int, radix: nat)
    requires 0 < b < INFINITY && 2 <= radix <= RADIX_MAX && k > 0 && IsRounding(c, k, ex, radix, b)
    ensures Pow(radix, k - 1) <= c < Pow(radix, k)
  {
    var e0 := LeadingBits(b, radix, ValueOf(b));
    RoundedLeads(ValueOf(b), radix, k, e0, c, ex);
  }

  lemma ExactIsEnough(b: nat, s: nat, z: int, radix: nat, k: nat, p: nat)
    requires 0 < b < INFINITY && 2 <= radix <= RADIX_MAX && 0 < k <= p && s < Pow(radix, k)
    requires Product(s as real, RP(radix, z)) == ValueOf(b)
    ensures IsEnough(b, p, radix)
  {
    SelfNearest(b);
    forall c: nat, ex: int | IsRounding(c, p, ex, radix, b)
      ensures Reads(c, ex - p, radix, b)
    {
      ExactRounds(b, s, z, radix, k, p, c, ex);
    }
  }

  lemma ExactIsRounding(b: nat, s: nat, z: int, radix: nat, k: nat)
    requires 0 < b < INFINITY && 2 <= radix <= RADIX_MAX && 0 < k <= MaxDigits(radix)
    requires Pow(radix, k - 1) <= s < Pow(radix, k) && Product(s as real, RP(radix, z)) == ValueOf(b)
    ensures IsRounding(s, k, k + z, radix, b)
  {
    var c, ex := SomeRounding(b, k, radix);
    RoundingHas(b, c, k, ex, radix);
    ExactRounds(b, s, z, radix, k, k, c, ex);
    SameDigits(c, ex - k, s, z, radix, k);
    assert ex == k + z;
  }

  // A number has its digits in one way only.
  lemma SameDigits(c: nat, f: int, d: nat, g: int, radix: nat, k: nat)
    requires radix >= 2 && k > 0 && Pow(radix, k - 1) <= c < Pow(radix, k) && Pow(radix, k - 1) <= d < Pow(radix, k)
    requires Product(c as real, RP(radix, f)) == Product(d as real, RP(radix, g))
    ensures c == d && f == g
  {
    AtodRounding.Magnitude(c, radix, k, f);
    AtodRounding.Magnitude(d, radix, k, g);
    ExponentOrder(radix, f + k - 1, g + k);
    ExponentOrder(radix, g + k - 1, f + k);
    RPPos(radix, f);
    SameFactor(c as real, d as real, RP(radix, f));
  }

  lemma SameFactor(a: real, b: real, t: real)
    requires t > 0.0 && Product(a, t) == Product(b, t)
    ensures a == b
  {
    TimesOrder(a, b, t);
  }

  lemma ExactIsClosest(s: nat, f: int, radix: nat, digits: nat, x: real)
    requires radix > 0 && Product(s as real, RP(radix, f)) == x
    ensures IsClosest(s, f, radix, digits, x)
  {
  }

  lemma IntegerDigits(n: nat, radix: nat) returns (s: nat, z: nat, k: nat)
    requires 2 <= radix <= RADIX_MAX && n > 0
    ensures n == s * Pow(radix, z) && s % radix != 0 && k > 0 && Pow(radix, k - 1) <= s < Pow(radix, k)
    ensures |Representation(n, radix)| == k + z
    ensures Representation(n, radix) == Positional(Representation(s, radix), k + z)
  {
    s, z := ZerosAtEnd(n, radix);
    k := |Representation(s, radix)|;
    DigitsHave(s, radix);
  }

  lemma ShownBy(b: nat, n: nat, s: nat, z: nat, k: nat, radix: nat)
    requires 0 < b < INFINITY && ValueOf(b) == n as real && n < M53 && 2 <= radix <= RADIX_MAX && n == s * Pow(radix, z)
    requires s % radix != 0 && 0 < k <= MaxDigits(radix) && Pow(radix, k - 1) <= s < Pow(radix, k)
    ensures IsShown(s, k, k + z, radix, b)
  {
    ExactReads(b, n, s, z, radix, k);
    if k > 1 {
      IntegerNeedsAll(b, n, s, z, k, radix, k - 1);
    }
    ExactIsRounding(b, s, z, radix, k);
    forall p: nat | k <= p <= MaxDigits(radix)
      ensures IsEnough(b, p, radix)
    {
      ExactIsEnough(b, s, z, radix, k, p);
    }
  }

  // All digits of an integer without the zeros at the end are what should be shown.
  lemma IntegerIsShown(b: nat, n: nat, radix: nat) returns (s: nat, k: nat, l: nat)
    requires 0 < b < INFINITY && ValueOf(b) == n as real && 0 < n < M53 && 2 <= radix <= RADIX_MAX
    ensures IsShown(s, k, l, radix, b) && 0 < l < MaxDigits(radix)
    ensures Representation(n, radix) == Positional(Representation(s, radix), l)
  {
    var z;
    s, z, k := IntegerDigits(n, radix);
    l := k + z;
    IntegerFits(n, radix);
    ShownBy(b, n, s, z, k, radix);
  }

  lemma ExactReads(b: nat, n: nat, s: nat, z: nat, radix: nat, k: nat)
    requires b < INFINITY && ValueOf(b) == n as real && n == s * Pow(radix, z) && radix > 0
    ensures Product(s as real, RP(radix, z)) == ValueOf(b)
    ensures Reads(s, z, radix, b) && IsClosest(s, z, radix, k, n as real)
  {
    ProductReal(s, Pow(radix, z));
    SelfNearest(b);
    ExactIsClosest(s, z, radix, k, n as real);
  }

  lemma IntegerFits(n: nat, radix: nat)
    requires 0 < n < M53 && 2 <= radix <= RADIX_MAX
    ensures |Representation(n, radix)| < MaxDigits(radix)
  {
    DigitsHave(n, radix);
    MaxDigitsEnough(radix);
    LengthBelow(n, radix, |Representation(n, radix)|, MaxDigits(radix));
  }

  lemma LengthBelow(n: nat, radix: nat, k: nat, max: nat)
    requires radix > 0 && n < M53 && 0 < k && 0 < max && Pow(radix, k - 1) <= n && M53 <= Pow(radix, max - 1)
    ensures k < max
  {
    if k >= max {
      PowMono(radix, max - 1, k - 1);
    }
  }

  // An integer needs no exponent.
  lemma IntegerLayout(ds: string, n: int, radix: nat, mode: DtoaText.ExponentMode)
    requires 2 <= radix <= RADIX_MAX && ds != "" && 0 < n < MaxDigits(radix) && mode != DtoaText.Enabled
    ensures Layout(ds, n, radix, mode) == Positional(ds, n)
  {
  }

  // A double is nearest to itself.
  lemma SelfNearest(a: nat)
    requires a < INFINITY
    ensures IsNearest(ValueOf(a), a)
  {
    BelowOverflow(a);
    forall b: nat | b < INFINITY
      ensures NoNearer(ValueOf(a), a, b)
    {
    }
  }

  // ---- There is only one text ----

  lemma EnoughOrNot(b: nat, p: nat, radix: nat)
    requires 0 < b < INFINITY && 2 <= radix <= RADIX_MAX && 1 <= p <= MaxDigits(radix)
    ensures !(IsEnough(b, p, radix) && NotEnough(b, p, radix))
  {
    var s, n := SomeRounding(b, p, radix);
  }

  lemma FewerNotShown(b: nat, radix: nat, s: nat, k: nat, n: int, s': nat, k': nat, n': int)
    requires 0 < b < INFINITY && 2 <= radix <= RADIX_MAX
    requires IsShown(s, k, n, radix, b) && IsShown(s', k', n', radix, b)
    ensures k >= k'
  {
    if k < k' {
      EnoughOrNot(b, k' - 1, radix);
    }
  }

  // The digits that should be shown are unique,
  lemma ShownUnique(b: nat, radix: nat, s: nat, k: nat, n: int, s': nat, k': nat, n': int)
    requires 0 < b < INFINITY && 2 <= radix <= RADIX_MAX
    requires IsShown(s, k, n, radix, b) && IsShown(s', k', n', radix, b)
    ensures s == s' && k == k' && n == n'
  {
    FewerNotShown(b, radix, s, k, n, s', k', n');
    FewerNotShown(b, radix, s', k', n', s, k, n);
  }

  // ... and so is the text of a double.
  lemma TextUnique(t: string, u: string, a: nat, radix: nat, mode: DtoaText.ExponentMode, minusZero: bool)
    requires 2 <= radix <= RADIX_MAX && IsText(t, a, radix, mode, minusZero) && IsText(u, a, radix, mode, minusZero)
    ensures t == u
  {
    var b := a % SIGN;
    var sign := if a >= SIGN && (b > 0 || minusZero) then "-" else "";
    if b <= INFINITY {
      SignedUnique(t, u, sign, b, radix, mode);
    }
  }

  lemma SignedUnique(t: string, u: string, sign: string, b: nat, radix: nat, mode: DtoaText.ExponentMode)
    requires 2 <= radix <= RADIX_MAX && b <= INFINITY && |sign| <= |t| && |sign| <= |u|
    requires t[..|sign|] == sign && u[..|sign|] == sign
    requires IsUnsigned(t[|sign|..], b, radix, mode) && IsUnsigned(u[|sign|..], b, radix, mode)
    ensures t == u
  {
    UnsignedUnique(t[|sign|..], u[|sign|..], b, radix, mode);
    assert t == t[..|sign|] + t[|sign|..] && u == u[..|sign|] + u[|sign|..];
  }

  lemma UnsignedUnique(t: string, u: string, b: nat, radix: nat, mode: DtoaText.ExponentMode)
    requires 2 <= radix <= RADIX_MAX && b <= INFINITY && IsUnsigned(t, b, radix, mode) && IsUnsigned(u, b, radix, mode)
    ensures t == u
  {
    if 0 < b < INFINITY {
      var s: nat, k: nat, n: int :| IsShown(s, k, n, radix, b) && t == Layout(Representation(s, radix), n, radix, mode);
      var s': nat, k': nat, n': int :| IsShown(s', k', n', radix, b)
                                       && u == Layout(Representation(s', radix), n', radix, mode);
      ShownUnique(b, radix, s, k, n, s', k', n');
    }
  }

  // Digits that are shown are as few as can be just when no number with one digit less is read as the double, which is
  // so but for some powers of two.
  lemma ShownIsShortest(b: nat, radix: nat, s: nat, k: nat, n: int)
    requires 0 < b < INFINITY && 2 <= radix <= RADIX_MAX && IsShown(s, k, n, radix, b) && k > 1
    ensures SomeReads(radix, k - 1, b)
       <==> !SameGaps(b)
            && IsNearest(NextAbove(ValueOf(b), radix, k - 1, 1 + MulLog2Radix(Unpack(b).1 - 1, radix)), b)
  {
    var m, e, e0 := UnpackedBits(b, radix);
    EnoughIs(b, m, e, radix, e0, k - 1);
    FewerDigitsRead(b, m, e, radix, e0, k - 1);
  }
}
