// The text of a double reads back as the double.
module TextRoundTrip {
  import opened Arith
  import opened Powers
  import opened RealPowers
  import opened Bignum
  import opened RadixPower
  import opened Float64
  import opened NearestEven
  import opened RoundTrip
  import opened DigitBounds
  import opened DigitErrors
  import opened Capacity
  import opened Doubles
  import opened Dtoa
  import opened Digits
  import opened AtodTables
  import opened Numerals
  import opened AtodRounding
  import opened Atod
  import opened AtodLimits
  import opened AtodText
  import opened AtodLaws
  import opened Log2Radix
  import opened DtoaLength
  import opened NumberText
  import opened DigitChoice
  import T = DtoaText

  // ---- Zeros before and after the digits ----

  lemma {:induction false} SignificantSuffix(digits: string)
    ensures var t := Significant(digits); |t| <= |digits| && t == digits[|digits| - |t|..]
  {
    if digits != "" && digits[0] == '0' {
      SignificantSuffix(digits[1..]);
      var t := Significant(digits);
      assert digits[1..][|digits| - 1 - |t|..] == digits[|digits| - |t|..];
    }
  }

  lemma {:induction false} SignificantSkips(zeros: string, u: string)
    requires Zeros(zeros)
    ensures Significant(zeros + u) == Significant(u)
  {
    if zeros == "" {
      assert zeros + u == u;
    } else {
      assert (zeros + u)[1..] == zeros[1..] + u;
      SignificantSkips(zeros[1..], u);
    }
  }

  // The digits that a reader may leave out are the zeros at the end.
  lemma KeptPadded(zeros: string, ds: string, n: nat, radix: nat)
    requires 2 <= radix <= RADIX_MAX && Zeros(zeros) && AllDigits(ds, radix)
    requires (PowerOfTwo(radix) || |ds| <= AtodMaxDigits(radix))
    ensures KeptNumber(zeros + (ds + ZeroDigits(n)), radix) == NumberOf(ds, radix) * Pow(radix, n)
  {
    PaddedIsKept(zeros, ds + ZeroDigits(n), ds, n, radix);
    PaddedNumber(ds, n, radix);
  }

  lemma PaddedIsKept(zeros: string, u: string, ds: string, n: nat, radix: nat)
    requires 2 <= radix <= RADIX_MAX && Zeros(zeros) && AllDigits(ds, radix)
    requires (PowerOfTwo(radix) || |ds| <= AtodMaxDigits(radix))
    requires u == ds + ZeroDigits(n)
    ensures KeptNumber(zeros + u, radix) == NumberOf(u, radix)
  {
    SignificantSkips(zeros, u);
    SignificantNumber(u, radix);
    SignificantNumber(zeros + u, radix);
    PaddingIsZero(u, ds, n, radix);
    KeptIsAll(u, radix);
  }

  lemma PaddedNumber(ds: string, n: nat, radix: nat)
    ensures NumberOf(ds + ZeroDigits(n), radix) == NumberOf(ds, radix) * Pow(radix, n)
  {
    NumberConcat(ds, ZeroDigits(n), radix);
    NumberZeros(n, radix);
  }

  lemma PaddingIsZero(u: string, ds: string, n: nat, radix: nat)
    requires 2 <= radix <= RADIX_MAX && (PowerOfTwo(radix) || |ds| <= AtodMaxDigits(radix)) && u == ds + ZeroDigits(n)
    ensures var t, max := Significant(u), AtodMaxDigits(radix);
      PowerOfTwo(radix) || |t| <= max || NumberOf(t[max..], radix) == 0
  {
    var t, max := Significant(u), AtodMaxDigits(radix);
    if !PowerOfTwo(radix) && |t| > max {
      SignificantSuffix(u);
      LastZeros(u, t, ds, n, max);
      NumberZeros(|t| - max, radix);
    }
  }

  lemma LastZeros(u: string, t: string, ds: string, n: nat, max: nat)
    requires u == ds + ZeroDigits(n) && |ds| <= max < |t| <= |u| && t == u[|u| - |t|..]
    ensures t[max..] == ZeroDigits(|t| - max)
  {
  }

  lemma DigitsAllowed(radix: nat)
    requires 2 <= radix <= RADIX_MAX && !PowerOfTwo(radix)
    ensures MaxDigits(radix) <= AtodMaxDigits(radix)
  {
  }

  // ---- The three layouts ----

  function FreeLayout(ds: string, ex: int, radix: nat, scientific: bool, e: Power): Layout
    requires ds != ""
  {
    if scientific then Layout(ds[..1], |ds| > 1, ds[1..], e.Text())
    else if ex <= 0 then Layout("0", true, ZeroDigits(-ex) + ds, "")
    else if ex >= |ds| then Layout(ds + ZeroDigits(ex - |ds|), false, "", "")
    else Layout(ds[..ex], true, ds[ex..], "")
  }

  function FreePower(radix: nat, ex: int, scientific: bool, es: string): Power {
    if scientific then Power(T.Marker(radix), if T.ShownExponent(radix, ex) < 0 then "-" else "+", es) else NoPower
  }

  lemma LayoutIs(ds: string, ex: int, radix: nat, scientific: bool, es: string)
    requires 2 <= radix <= RADIX_MAX && ds != "" && AllDigits(ds, radix)
    requires (scientific ==> es != "" && AllDigits(es, 10))
    ensures var e := FreePower(radix, ex, scientific, es); var x := FreeLayout(ds, ex, radix, scientific, e);
      T.FreeText(ds, ex, radix, scientific, es) == x.Text() && x.Valid(radix) && e.Valid(radix) && x.tail == e.Text()
  {
    if scientific {
      ScientificLayout(ds, ex, radix, es);
    } else {
      PositionalLayout(ds, ex, radix, es);
    }
  }

  lemma ScientificLayout(ds: string, ex: int, radix: nat, es: string)
    requires 2 <= radix <= RADIX_MAX && ds != "" && AllDigits(ds, radix) && es != "" && AllDigits(es, 10)
    ensures var e := FreePower(radix, ex, true, es); var x := FreeLayout(ds, ex, radix, true, e);
      T.FreeText(ds, ex, radix, true, es) == x.Text() && x.Valid(radix) && e.Valid(radix) && x.tail == e.Text()
  {
    MarkerEnds(T.Marker(radix), radix);
    assert |ds| == 1 ==> ds[..1] == ds && ds[1..] == "";
    assert ds[..1] + "." + ds[1..] == ds[..1] + ("." + ds[1..]);
  }

  lemma PositionalLayout(ds: string, ex: int, radix: nat, es: string)
    requires 2 <= radix <= RADIX_MAX && ds != "" && AllDigits(ds, radix)
    ensures var e := FreePower(radix, ex, false, es); var x := FreeLayout(ds, ex, radix, false, e);
      T.FreeText(ds, ex, radix, false, es) == x.Text() && x.Valid(radix) && e.Valid(radix) && x.tail == e.Text()
  {
    if ex <= 0 {
      assert "0." + ZeroDigits(-ex) + ds == "0" + ("." + (ZeroDigits(-ex) + ds)) + "";
    } else if ex >= |ds| {
      assert ds + ZeroDigits(ex - |ds|) == ds + ZeroDigits(ex - |ds|) + "" + "";
    } else {
      assert ds[..ex] + "." + ds[ex..] + ZeroDigits(0) == ds[..ex] + ("." + ds[ex..]) + "";
    }
  }

  // ---- What the numeral of a text stands for ----

  function FreeNumeral(ds: string, ex: int, radix: nat, scientific: bool, es: string): Numeral
    requires ds != ""
  {
    var e := FreePower(radix, ex, scientific, es);
    var x := FreeLayout(ds, ex, radix, scientific, e);
    Numeral(x.front + x.back, |x.back|, e.Value(), e.Binary())
  }

  // mant * radix^(ex - p) as a literal with another split into digits and exponents.
  lemma SplitLiteral(mant: nat, radix: nat, fraction: nat, expn: int, ex: int, p: int)
    requires radix > 0 && expn - fraction == ex - p
    ensures Literal(mant, fraction, expn, false, radix) == Digital(mant, radix, p, ex)
  {
  }

  lemma BinaryExponent(mant: nat, radix: nat, p: nat, ex: int)
    requires PowerOfTwo(radix) && p > 0
    ensures Literal(mant, p - 1, (ex - 1) * RadixBits(radix), true, radix) == Digital(mant, radix, p, ex)
  {
    var k := RadixBits(radix);
    BinaryLiteral(mant, p - 1, (ex - 1) * k, true, radix, k);
    RadixIsTwo(radix, k, ex - p);
    ProductIsScale(mant as real, RP(radix, ex - p), (ex - p) * k);
    assert (ex - 1) * k - (p - 1) * k == (ex - p) * k;
  }

  lemma ScientificNumeral(ds: string, ex: int, radix: nat, es: string)
    requires 2 <= radix <= RADIX_MAX && ds != "" && T.IsExponent(es, radix, ex)
    ensures FreeNumeral(ds, ex, radix, true, es)
         == Numeral(ds, |ds| - 1, T.ShownExponent(radix, ex), T.Marker(radix) == 'p')
  {
    assert ds[..1] + ds[1..] == ds;
  }

  lemma ScientificValue(ds: string, ex: int, radix: nat, mant: nat, es: string)
    requires 2 <= radix <= RADIX_MAX && ds != "" && IsNumeral(ds, mant, radix) && |ds| <= MaxDigits(radix)
    requires T.IsExponent(es, radix, ex)
    ensures Value(FreeNumeral(ds, ex, radix, true, es), radix) == Digital(mant, radix, |ds|, ex)
  {
    ScientificNumeral(ds, ex, radix, es);
    KeptPlain(ds, radix);
    MarkerEnds(T.Marker(radix), radix);
    if T.Marker(radix) == 'p' {
      BinaryExponent(mant, radix, |ds|, ex);
    } else {
      SplitLiteral(mant, radix, |ds| - 1, ex - 1, ex, |ds|);
    }
  }

  lemma KeptPlain(ds: string, radix: nat)
    requires 2 <= radix <= RADIX_MAX && Printed(ds, radix) && |ds| <= MaxDigits(radix)
    ensures KeptNumber(ds, radix) == NumberOf(ds, radix)
  {
    KeptFront("", ds, radix);
    assert "" + ds == ds;
  }

  lemma KeptFront(zeros: string, ds: string, radix: nat)
    requires 2 <= radix <= RADIX_MAX && Zeros(zeros) && Printed(ds, radix) && |ds| <= MaxDigits(radix)
    ensures KeptNumber(zeros + ds, radix) == NumberOf(ds, radix)
  {
    NothingAdded(ds);
    KeptWhole(zeros, ds, 0, radix);
    PowZero(radix, NumberOf(ds, radix));
  }

  lemma NothingAdded(ds: string)
    ensures ds + ZeroDigits(0) == ds
  {
  }

  lemma PowZero(b: nat, n: nat)
    ensures n * Pow(b, 0) == n
  {
  }

  lemma KeptWhole(zeros: string, ds: string, n: nat, radix: nat)
    requires 2 <= radix <= RADIX_MAX && Zeros(zeros) && Printed(ds, radix) && |ds| <= MaxDigits(radix)
    ensures KeptNumber(zeros + (ds + ZeroDigits(n)), radix) == NumberOf(ds, radix) * Pow(radix, n)
  {
    if !PowerOfTwo(radix) {
      DigitsAllowed(radix);
    }
    KeptPadded(zeros, ds, n, radix);
  }

  lemma PositionalValue(ds: string, ex: int, radix: nat, mant: nat, es: string)
    requires 2 <= radix <= RADIX_MAX && ds != "" && IsNumeral(ds, mant, radix) && |ds| <= MaxDigits(radix)
    ensures Value(FreeNumeral(ds, ex, radix, false, es), radix) == Digital(mant, radix, |ds|, ex)
  {
    if ex <= 0 {
      BehindValue(ds, ex, radix, es);
      SplitLiteral(mant, radix, |ds| - ex, 0, ex, |ds|);
    } else if ex >= |ds| {
      KeptWhole("", ds, ex - |ds|, radix);
      assert "" + (ds + ZeroDigits(ex - |ds|)) == ds + ZeroDigits(ex - |ds|) + "";
      OtherLiteral(mant, ex - |ds|, 0, 0, radix);
    } else {
      KeptPlain(ds, radix);
      assert ds == ds[..ex] + ds[ex..];
      SplitLiteral(mant, radix, |ds| - ex, 0, ex, |ds|);
    }
  }

  lemma BehindValue(ds: string, ex: int, radix: nat, es: string)
    requires 2 <= radix <= RADIX_MAX && ds != "" && Printed(ds, radix) && |ds| <= MaxDigits(radix) && ex <= 0
    ensures var x := FreeNumeral(ds, ex, radix, false, es);
      KeptNumber(x.digits, radix) == NumberOf(ds, radix) && x.fraction == |ds| - ex && x.expn == 0 && !x.binary
  {
    BehindNumeral(ds, ex, radix, es);
    KeptFront("0" + ZeroDigits(-ex), ds, radix);
  }

  lemma BehindNumeral(ds: string, ex: int, radix: nat, es: string)
    requires ds != "" && ex <= 0
    ensures FreeNumeral(ds, ex, radix, false, es) == Numeral(("0" + ZeroDigits(-ex)) + ds, |ds| - ex, 0, false)
  {
    assert ("0" + ZeroDigits(-ex)) + ds == "0" + (ZeroDigits(-ex) + ds);
  }

  // Sizes that are small do not wrap around.
  lemma NoWrap(x: Numeral, radix: nat)
    requires x.Numeral? && 2 <= radix <= RADIX_MAX && |x.digits| <= 5000 && x.fraction <= 5000
    requires -20000 <= x.expn <= 20000
    ensures InRange(x, radix)
  {
    SignificantSuffix(x.digits);
    var l := |Significant(x.digits)| - x.fraction;
    if PowerOfTwo(radix) {
      var k := RadixBits(radix);
      assert -100000 <= x.expn * k <= 100000 && -30000 <= l * k <= 30000;
    }
    Int32Same(Size(x, radix));
  }

  // ---- Texts that read as a double ----

  // Free format reads back.
  lemma FreeTextReads(s: string, sign: string, radix: nat, mant: nat, ds: string, ex: int, scientific: bool, es: string,
                      a: nat, flags: Flags, r: Result)
    requires 2 <= radix <= RADIX_MAX && IsSignText(sign) && ds != "" && |ds| <= MaxDigits(radix)
    requires IsNumeral(ds, mant, radix)
    requires (scientific ==> T.IsExponent(es, radix, ex)) && -2000 <= ex <= 2000
    requires s == sign + T.FreeText(ds, ex, radix, scientific, es) && IsNearest(Digital(mant, radix, |ds|, ex), a)
    requires ReadTo(s, radix, flags, r)
    ensures r == Bits(a) && (At(s, 0) == '-' <==> sign == "-")
  {
    FreeParsed(s, sign, radix, ds, ex, scientific, es, flags, r);
    FreeSmall(ds, ex, radix, scientific, es);
    FreeValue(ds, ex, radix, mant, scientific, es);
    ReadUnique(FreeNumeral(ds, ex, radix, scientific, es), radix, Digital(mant, radix, |ds|, ex), a, r);
  }

  lemma ReadUnique(x: Numeral, radix: nat, v: real, a: nat, r: Result)
    requires 2 <= radix <= RADIX_MAX && x.Numeral? && IsResult(x, radix, r) && InRange(x, radix) && Value(x, radix) == v
    requires IsNearest(v, a)
    ensures r == Bits(a)
  {
    NearestUnique(v, r.a, a);
  }

  lemma FreeParsed(s: string, sign: string, radix: nat, ds: string, ex: int, scientific: bool, es: string, flags: Flags,
                   r: Result)
    requires 2 <= radix <= RADIX_MAX && IsSignText(sign) && ds != "" && Printed(ds, radix)
    requires (scientific ==> T.IsExponent(es, radix, ex)) && s == sign + T.FreeText(ds, ex, radix, scientific, es)
    requires ReadTo(s, radix, flags, r)
    ensures IsResult(FreeNumeral(ds, ex, radix, scientific, es), radix, r) && (At(s, 0) == '-' <==> sign == "-")
  {
    var e := FreePower(radix, ex, scientific, es);
    var x := FreeLayout(ds, ex, radix, scientific, e);
    FreeIsNumber(radix, ds, ex, scientific, es, flags);
    assert "" + x.Text() == x.Text();
    TextIs(s, sign, "", x, e, radix, radix, flags, r);
  }

  lemma FreeIsNumber(radix: nat, ds: string, ex: int, scientific: bool, es: string, flags: Flags)
    requires 2 <= radix <= RADIX_MAX && ds != "" && Printed(ds, radix)
    requires scientific ==> T.IsExponent(es, radix, ex)
    ensures var e := FreePower(radix, ex, scientific, es); var x := FreeLayout(ds, ex, radix, scientific, e);
      T.FreeText(ds, ex, radix, scientific, es) == x.Text() && IsNumberText("", x, e, radix, radix, flags)
  {
    LayoutIs(ds, ex, radix, scientific, es);
    FreePlain(ds, ex, radix, scientific, es);
    PlainBegins(FreeLayout(ds, ex, radix, scientific, FreePower(radix, ex, scientific, es)));
  }

  // A text that begins with a digit or a small letter is not the word for infinity.
  lemma PlainBegins(x: Layout)
    requires x.front != "" && IsPlain(x.front[0])
    ensures |x.Text()| >= 8 ==> x.Text()[..8] != "Infinity"
  {
    if |x.Text()| >= 8 {
      assert x.Text()[..8][0] == x.front[0];
    }
  }

  lemma FreeValue(ds: string, ex: int, radix: nat, mant: nat, scientific: bool, es: string)
    requires 2 <= radix <= RADIX_MAX && ds != "" && IsNumeral(ds, mant, radix) && |ds| <= MaxDigits(radix)
    requires scientific ==> T.IsExponent(es, radix, ex)
    ensures Value(FreeNumeral(ds, ex, radix, scientific, es), radix) == Digital(mant, radix, |ds|, ex)
  {
    if scientific {
      ScientificValue(ds, ex, radix, mant, es);
    } else {
      PositionalValue(ds, ex, radix, mant, es);
    }
  }

  lemma FreeSmall(ds: string, ex: int, radix: nat, scientific: bool, es: string)
    requires 2 <= radix <= RADIX_MAX && ds != "" && |ds| <= MaxDigits(radix) && -2000 <= ex <= 2000
    requires scientific ==> T.IsExponent(es, radix, ex)
    ensures InRange(FreeNumeral(ds, ex, radix, scientific, es), radix)
  {
    if scientific {
      ScientificNumeral(ds, ex, radix, es);
    }
    NoWrap(FreeNumeral(ds, ex, radix, scientific, es), radix);
  }

  lemma FreePlain(ds: string, ex: int, radix: nat, scientific: bool, es: string)
    requires ds != "" && Printed(ds, radix)
    ensures IsPlain(FreeLayout(ds, ex, radix, scientific, FreePower(radix, ex, scientific, es)).front[0])
  {
  }

  // ---- Printing a double ----

  lemma SmallExponent(radix: nat, e: int, e0: int)
    requires 2 <= radix <= RADIX_MAX && -1073 <= e <= 1024 && GoodExponent(radix, e, e0)
    ensures -1100 <= e0 <= 1100
  {
    if e0 > 1100 {
      var n: nat := e0 - 1;
      PowBase(2, radix, n);
      TwoNat(n);
      TwoMono(e, n);
      TwoNext(e - 1);
      TwoPos(e - 1);
    } else if e0 < -1100 {
      var n: nat := 0 - e0;
      PowBase(2, radix, n);
      TwoNat(n);
      InverseBelow(radix, n, n);
      TwoMono(0 - n, e - 1);
    }
  }

  // No bits behind the point.
  predicate WholeBits(m: nat, e: int)
    requires e <= 53
  {
    PowPos(2, 53 - e);
    m % Pow(2, 53 - e) == 0
  }

  // An integer that is a double.
  predicate IsInteger(m: nat, e: int) {
    1 <= e <= 53 && WholeBits(m, e)
  }

  lemma IntegerValue(m: nat, e: int)
    requires Double(m, e) && IsInteger(m, e)
    ensures Pow(2, 53 - e) > 0 && var n := m / Pow(2, 53 - e); 0 < n < M53 && FloatValue(m, e) == n as real
  {
    PowPos(2, 53 - e);
    var k: nat := 53 - e;
    var p := Pow(2, k);
    var n, z := Parts(m, p);
    ProductReal(n, p);
    TwoNat(k);
    TwoInverse(k);
    WholeOf(n as real, p as real, Two(0 - k));
    assert e - PREC == 0 - k;
    MulAtLeast(n, p);
  }

  lemma WholeOf(n: real, p: real, t: real)
    requires p * t == 1.0
    ensures n * p * t == n
  {
    assert n * p * t == n * (p * t);
  }

  // ---- Texts of finite doubles read back ----

  // Numbers of the size of doubles have small exponents.
  lemma SizeOfShown(y: real, radix: nat, n: int)
    requires 2 <= radix <= RADIX_MAX && RP(radix, n - 1) <= y < RP(radix, n) && Two(-1075) <= y < Two(1024)
    ensures -1100 <= n <= 1100
  {
    if n > 1100 {
      var k: nat := n - 1;
      PowBase(2, radix, k);
      TwoNat(k);
      TwoMono(1024, k);
    } else if n < -1100 {
      var k: nat := 0 - n;
      PowBase(2, radix, k);
      TwoNat(k);
      InverseBelow(radix, k, k);
      TwoMono(0 - k, -1075);
    }
  }

  lemma ReadSize(y: real, b: nat)
    requires y >= 0.0 && 0 < b < INFINITY && IsNearest(y, b)
    ensures Two(-1075) <= y < Two(1024)
  {
    if y < Two(-1075) {
      TinyIsZero(y);
      NearestUnique(y, b, 0);
    }
    if y >= Two(1024) {
      BigIsInfinite(y);
      NearestUnique(y, b, INFINITY);
    }
  }

  lemma ShownSize(c: nat, k: nat, n: int, radix: nat, b: nat)
    requires 2 <= radix <= RADIX_MAX && 0 < b < INFINITY && IsShown(c, k, n, radix, b)
    ensures -1100 <= n <= 1100
  {
    var y := Product(c as real, RP(radix, n - k));
    AtodRounding.Magnitude(c, radix, k, n - k);
    assert n - k + k == n;
    RPPos(radix, n - 1);
    ReadSize(y, b);
    SizeOfShown(y, radix, n);
  }

  lemma SameLengths(c: nat, radix: nat, k: nat, l: nat)
    requires radix > 0 && k > 0 && l > 0 && Pow(radix, k - 1) <= c < Pow(radix, k)
    requires Pow(radix, l - 1) <= c < Pow(radix, l)
    ensures k == l
  {
    if k < l {
      PowMono(radix, k, l - 1);
    } else if l < k {
      PowMono(radix, l, k - 1);
    }
  }

  lemma LayoutReads(s: string, sign: string, radix: nat, mode: T.ExponentMode, c: nat, n: int, b: nat, flags: Flags,
                    r: Result)
    requires 2 <= radix <= RADIX_MAX && IsSignText(sign) && -2000 <= n <= 2000 && ReadTo(s, radix, flags, r)
    requires var ds := Representation(c, radix);
      && s == sign + NumberText.Layout(ds, n, radix, mode) && |ds| <= MaxDigits(radix)
      && IsNearest(Digital(c, radix, |ds|, n), b)
    ensures r == Bits(b) && (At(s, 0) == '-' <==> sign == "-")
  {
    var ds, es := Representation(c, radix), Representation(Shown(n, radix), 10);
    RepresentationNumber(c, radix);
    RepresentationNumber(Shown(n, radix), 10);
    TextIsLayout(ds, n, radix, mode, es);
    FreeTextReads(s, sign, radix, c, ds, n, T.Scientific(mode, n, radix), es, b, flags, r);
  }

  lemma ShownReads(s: string, sign: string, b: nat, radix: nat, mode: T.ExponentMode, c: nat, k: nat, n: int,
                   flags: Flags, r: Result)
    requires 2 <= radix <= RADIX_MAX && IsSignText(sign) && 0 < b < INFINITY && IsShown(c, k, n, radix, b)
    requires s == sign + NumberText.Layout(Representation(c, radix), n, radix, mode) && ReadTo(s, radix, flags, r)
    ensures r == Bits(b) && (At(s, 0) == '-' <==> sign == "-")
  {
    ShownSize(c, k, n, radix, b);
    ShownParts(c, k, n, radix, b);
    LayoutReads(s, sign, radix, mode, c, n, b, flags, r);
  }

  lemma ShownParts(c: nat, k: nat, n: int, radix: nat, b: nat)
    requires 2 <= radix <= RADIX_MAX && IsShown(c, k, n, radix, b)
    ensures var l := |Representation(c, radix)|; l <= MaxDigits(radix) && IsNearest(Digital(c, radix, l, n), b)
  {
    PowPos(radix, k - 1);
    var l := LengthOf(c, radix, k);
  }

  lemma LengthOf(c: nat, radix: nat, k: nat) returns (l: nat)
    requires 2 <= radix <= RADIX_MAX && k > 0 && 0 < Pow(radix, k - 1) <= c < Pow(radix, k)
    ensures l == |Representation(c, radix)| && l == k
  {
    DigitsHave(c, radix);
    l := |Representation(c, radix)|;
    SameLengths(c, radix, k, l);
  }

  // The text of a double reads back, with any sign.
  lemma UnsignedReads(s: string, sign: string, u: string, b: nat, radix: nat, mode: T.ExponentMode, flags: Flags,
                      r: Result)
    requires 2 <= radix <= RADIX_MAX && IsSignText(sign) && b <= INFINITY && IsUnsigned(u, b, radix, mode)
    requires s == sign + u && ReadTo(s, radix, flags, r)
    ensures r == Bits(b) && (At(s, 0) == '-' <==> sign == "-")
  {
    if b == INFINITY {
      assert "Infinity" + "" == "Infinity";
      InfinityIs(s, sign, "", radix, flags, r);
    } else if b == 0 {
      TinyZero(radix);
      LayoutReads(s, sign, radix, mode, 0, 1, b, flags, r);
    } else {
      var c: nat, k: nat, n: int :| IsShown(c, k, n, radix, b)
                                    && u == NumberText.Layout(Representation(c, radix), n, radix, mode);
      ShownReads(s, sign, b, radix, mode, c, k, n, flags, r);
    }
  }

  // ---- The text of any double ----

  method PutWord(buf: array<char>, q: nat, word: string)
    requires q + |word| <= buf.Length
    modifies buf
    ensures buf[..q + |word|] == old(buf[..q]) + word
  {
    ghost var was := buf[..q];
    var i := 0;
    assert was + word[..0] == was;
    while i < |word|
      invariant 0 <= i <= |word| && buf[..q + i] == was + word[..i]
    {
      buf[q + i] := word[i];
      assert buf[..q + i + 1] == buf[..q + i] + [word[i]];
      assert word[..i + 1] == word[..i] + [word[i]];
      i := i + 1;
    }
    assert word[..i] == word;
  }

  // The digits of an integer.
  method PutWhole(buf: array<char>, q: nat, b: nat, m: nat, e: int, radix: nat, ghost mode: T.ExponentMode)
    returns (n: nat)
    requires 2 <= radix <= RADIX_MAX && q + MaxDigits(radix) <= buf.Length && 0 < b < INFINITY && Unpack(b) == (m, e)
    requires IsInteger(m, e) && mode != T.Enabled
    modifies buf
    ensures q <= n <= buf.Length && buf[..q] == old(buf[..q]) && IsFinite(buf[q..n], b, radix, mode)
  {
    ghost var was := buf[..q];
    PowPos(2, 53 - e);
    var k := m / Pow(2, 53 - e);
    UnpackIs(b);
    PackIs(m, e);
    IntegerValue(m, e);
    M53Is();
    ghost var ds;
    n, ds := T.PutInteger(buf, q, k, radix);
    BehindIs(buf[..n], was, ds);
    RepresentationIs(ds, k, radix);
    ghost var c, d, l := IntegerIsShown(b, k, radix);
    IntegerLayout(Representation(c, radix), l, radix, mode);
  }

  lemma BehindIs(s: string, front: string, back: string)
    requires s == front + back
    ensures s[..|front|] == front && s[|front|..] == back
  {
  }

  // Digits and exponent in free format.
  method PutDigital(buf: array<char>, q: nat, r: Mpb, radix: nat, mode: T.ExponentMode, ghost mant: nat, p: nat,
                    ex: int)
    returns (n: nat)
    requires 2 <= radix <= RADIX_MAX && r.Valid() && r.Value() == mant < Pow(radix, p) && -1200 <= ex <= 1200
    requires p > 0 && q + T.TextLength(p, ex, T.Scientific(mode, ex, radix)) <= buf.Length
    requires p == 1 || Pow(radix, p - 1) <= mant
    modifies buf, r`len, r.tab
    ensures q <= n <= buf.Length && buf[..q] == old(buf[..q])
    ensures buf[q..n] == NumberText.Layout(Representation(mant, radix), ex, radix, mode)
  {
    ghost var was := buf[..q];
    ghost var ds, es;
    n, ds, es := T.PutFree(buf, q, r, radix, p, ex, mode);
    ghost var scientific := T.Scientific(mode, ex, radix);
    BehindIs(buf[..n], was, T.FreeText(ds, ex, radix, scientific, es));
    if p > 1 {
      T.NoZeroInFront(ds, mant, radix);
    }
    RepresentationIs(ds, mant, radix);
    TextIsLayout(ds, ex, radix, mode, es);
  }

  method PutFinite(buf: array<char>, q: nat, b: nat, radix: nat, mode: T.ExponentMode) returns (n: nat)
    requires 2 <= radix <= RADIX_MAX && b < INFINITY && q <= 1 && MaxLength(b, radix, mode) <= buf.Length
    modifies buf
    ensures q <= n <= buf.Length && buf[..q] == old(buf[..q]) && IsFinite(buf[q..n], b, radix, mode)
  {
    var r := new Mpb(LEN_MAX);
    EnoughDigits(b, radix, mode);
    if b == 0 {
      assert Pow(radix, 1) == radix * Pow(radix, 0);
      n := PutDigital(buf, q, r, radix, mode, 0, 1, 1);
      return;
    }
    var (m, e) := Unpack(b);
    UnpackIs(b);
    if mode != T.Enabled && IsInteger(m, e) {
      n := PutWhole(buf, q, b, m, e, radix, mode);
      return;
    }
    var r1, s := SplitRadix(radix);
    var e0 := 1 + MulLog2Radix(e - 1, radix);
    FirstExponent(e, radix);
    SmallExponent(radix, e, e0);
    var mant, p, ex;
    mant, p, ex := FreeFormat(r, m, e, radix, r1, s, e0);
    FoundIsShown(b, m, e, radix, e0, mant, p, ex);
    DigitsFit64(radix, p);
    r.SetU64(mant);
    TextFits(b, m, e, radix, e0, p, ex, mode);
    n := PutDigital(buf, q, r, radix, mode, mant, p, ex);
  }

  lemma EnoughDigits(b: nat, radix: nat, mode: T.ExponentMode)
    requires 2 <= radix <= RADIX_MAX && b <= INFINITY
    ensures MaxLength(b, radix, mode) >= 9 && (b < INFINITY ==> MaxLength(b, radix, mode) >= MaxDigits(radix) + 8)
  {
    assert b % SIGN == b && (b < INFINITY ==> b / M52 < 0x7ff);
  }

  lemma TinyZero(radix: nat)
    requires 2 <= radix <= RADIX_MAX
    ensures 0 < Pow(radix, 1) && IsNearest(Digital(0, radix, 1, 1), 0) && 0 < 1 <= MaxDigits(radix)
  {
    assert Pow(radix, 1) == radix * Pow(radix, 0);
    TwoPos(-1075);
    TinyIsZero(0.0);
    assert Digital(0, radix, 1, 1) == 0.0;
  }

  method PutUnsigned(buf: array<char>, q: nat, b: nat, radix: nat, mode: T.ExponentMode) returns (n: nat)
    requires 2 <= radix <= RADIX_MAX && b <= INFINITY && q <= 1 && MaxLength(b, radix, mode) <= buf.Length
    modifies buf
    ensures q <= n <= buf.Length && buf[..q] == old(buf[..q]) && IsUnsigned(buf[q..n], b, radix, mode)
  {
    EnoughDigits(b, radix, mode);
    if b == INFINITY {
      ghost var was := buf[..q];
      PutWord(buf, q, "Infinity");
      n := q + 8;
      BehindIs(buf[..n], was, "Infinity");
    } else {
      n := PutFinite(buf, q, b, radix, mode);
    }
  }

  // The text of a double in free format, in a buffer of the length that callers compute.
  method JsDtoa(buf: array<char>, a: nat, radix: nat, mode: T.ExponentMode, minusZero: bool) returns (n: nat)
    requires a < 2 * SIGN && 2 <= radix <= RADIX_MAX && buf.Length >= MaxLength(a, radix, mode)
    modifies buf
    ensures n <= buf.Length && IsText(buf[..n], a, radix, mode, minusZero)
  {
    var negative, b := a >= SIGN, a % SIGN;
    var q := 0;
    if b > INFINITY {
      PutWord(buf, 0, "NaN");
      assert buf[..0] == "";
      return 3;
    }
    if negative && (b != 0 || minusZero) {
      T.PutChar(buf, 0, '-');
      q := 1;
    }
    ghost var sign := buf[..q];
    SameLength(a, b, radix, mode);
    n := PutUnsigned(buf, q, b, radix, mode);
    SignedText(buf[..n], sign, buf[q..n], a, b, radix, mode, minusZero);
  }

  lemma SignedText(s: string, sign: string, u: string, a: nat, b: nat, radix: nat, mode: T.ExponentMode,
                   minusZero: bool)
    requires 2 <= radix <= RADIX_MAX && b == a % SIGN <= INFINITY && IsUnsigned(u, b, radix, mode) && s == sign + u
    requires sign == if a >= SIGN && (b > 0 || minusZero) then "-" else ""
    ensures IsText(s, a, radix, mode, minusZero)
  {
    BehindIs(s, sign, u);
  }

  lemma SameLength(a: nat, b: nat, radix: nat, mode: T.ExponentMode)
    requires 2 <= radix <= RADIX_MAX && b == a % SIGN
    ensures MaxLength(b, radix, mode) == MaxLength(a, radix, mode)
  {
    assert b % SIGN == b;
  }

  // ---- Printing and reading ----

  lemma WordIsNone(s: string, radix: nat, flags: Flags, r: Result)
    requires s == "NaN" && 2 <= radix <= 23 && ReadTo(s, radix, flags, r)
    ensures r == NotANumber
  {
  }

  lemma SplitText(s: string, sign: string)
    requires |sign| <= |s| && s[..|sign|] == sign
    ensures s == sign + s[|sign|..]
  {
  }

  // The double comes back with its sign, from any text that shows it. The word for no number is one in a radix that has
  // its letters.
  lemma TextReadsBack(s: string, a: nat, radix: nat, mode: T.ExponentMode, minusZero: bool, flags: Flags, r: Result)
    requires 2 <= radix <= RADIX_MAX && a < 2 * SIGN && IsText(s, a, radix, mode, minusZero)
    requires ReadTo(s, radix, flags, r)
    ensures if a % SIGN <= INFINITY then r == Bits(a % SIGN) else radix <= 23 ==> r == NotANumber
    ensures a % SIGN <= INFINITY ==> (At(s, 0) == '-' <==> a >= SIGN && (a % SIGN > 0 || minusZero))
  {
    var b := a % SIGN;
    var negative := a >= SIGN && (b > 0 || minusZero);
    if b <= INFINITY {
      var sign := if negative then "-" else "";
      SplitText(s, sign);
      UnsignedReads(s, sign, s[|sign|..], b, radix, mode, flags, r);
    } else if radix <= 23 {
      WordIsNone(s, radix, flags, r);
    }
  }

  // The text as a string, never longer than the bound.
  method Print(a: nat, radix: nat, mode: T.ExponentMode, minusZero: bool) returns (s: string)
    requires a < 2 * SIGN && 2 <= radix <= RADIX_MAX
    ensures |s| <= MaxLength(a, radix, mode) && IsText(s, a, radix, mode, minusZero)
    ensures radix == 10 && mode != T.Disabled ==> |s| <= 25
  {
    var max := MaxLength(a, radix, mode);
    var buf := new char[max];
    var n := JsDtoa(buf, a, radix, mode, minusZero);
    s := buf[..n];
  }

  lemma LengthFits(a: nat, radix: nat, mode: T.ExponentMode)
    requires 2 <= radix <= RADIX_MAX
    ensures MaxLength(a, radix, mode) <= INT32_MAX
  {
    LogSmall(a % SIGN / M52 - 1024, radix);
  }

  lemma LogSmall(k: int, radix: nat)
    requires 2 <= radix <= RADIX_MAX && -1024 <= k <= 1024
    ensures -2000 <= MulLog2Radix(k, radix) <= 2000
  {
    var n: nat := if k < 0 then -k else k;
    assert LogTable(radix) < FRACTION;
    MulLe(n, 1024, LogTable(radix), FRACTION);
    assert k * LogTable(radix) == if k < 0 then 0 - n * LogTable(radix) else n * LogTable(radix);
  }

  // Printing a double and reading the text gives the double, except for a zero whose sign is not printed.
  method PrintAndRead(a: nat, radix: nat, mode: T.ExponentMode, minusZero: bool, flags: Flags)
    returns (negative: bool, r: Result)
    requires a < 2 * SIGN && 2 <= radix <= RADIX_MAX
    ensures a % SIGN <= INFINITY ==> r == Bits(a % SIGN) && (negative <==> a >= SIGN && (a % SIGN > 0 || minusZero))
    ensures a % SIGN > INFINITY && radix <= 23 ==> r == NotANumber
  {
    var s := Print(a, radix, mode, minusZero);
    LengthFits(a, radix, mode);
    negative, r := JsAtod(s, radix, flags);
    TextReadsBack(s, a, radix, mode, minusZero, flags, r);
  }
}
