// The text of a double in free format, as Number::toString of section 6.1.6.1.20 of ECMA-262 describes it: which digits
// are shown, and where the dot, zeros and exponent are. Nothing here follows the code that prints.
module NumberText {
  import opened Arith
  import opened Powers
  import opened RealPowers
  import opened NearestEven
  import opened Doubles
  import opened DigitBounds
  import opened Dtoa
  import opened DtoaText
  import opened DtoaLength
  import opened Digits
  import opened RadixPower
  import opened Log2Radix

  const DIGITS: string := "0123456789abcdefghijklmnopqrstuvwxyz"
  const CAPITALS: string := "0123456789ABCDEFGHIJKLMNOPQRSTUVWXYZ"

  function Digit(d: nat): string
    requires d < 36
  {
    [DIGITS[d]]
  }

  // The representation of a number in a radix.
  function Representation(n: nat, radix: nat): string
    requires 2 <= radix <= 36
  {
    if n < radix then Digit(n)
    else
      Quotient(n, radix);
      Representation(n / radix, radix) + Digit(n % radix)
  }

  lemma Quotient(n: nat, radix: nat)
    requires 2 <= radix <= n
    ensures 0 < n / radix < n
  {
    var q, r := Parts(n, radix);
    if q >= n {
      MulLe(n, q, 2, radix);
    }
  }

  // ---- Where the digits are ----

  // The digits ds with n of them in front of the dot.
  function Positional(ds: string, n: int): string {
    if |ds| <= n then ds + ZeroDigits(n - |ds|)
    else if 0 < n then ds[..n] + "." + ds[n..]
    else "0." + ZeroDigits(-n) + ds
  }

  // The exponent n - 1 without its sign. In radixes of up to four bits it counts bits.
  function Shown(n: int, radix: nat): nat {
    var e: nat := if n > 0 then n - 1 else 1 - n;
    if radix == 4 then 2 * e else if radix == 8 then 3 * e else if radix == 16 then 4 * e else e
  }

  // The first digit, a dot and the others, and the exponent.
  function Exponential(ds: string, n: int, radix: nat): string
    requires ds != ""
  {
    (if |ds| == 1 then ds else ds[..1] + "." + ds[1..]) +
    (if radix == 10 then "e" else if radix in {2, 4, 8, 16} then "p" else "@") +
    (if n > 0 then "+" else "-") + Representation(Shown(n, radix), 10)
  }

  // Decimal numbers with up to 21 digits in front of the dot, or five zeros behind it, have no exponent. In other
  // radixes the first bound depends on how many digits a double has.
  function Layout(ds: string, n: int, radix: nat, mode: ExponentMode): string
    requires 2 <= radix <= 36 && ds != ""
  {
    var most := if radix == 10 then 21 else MaxDigits(radix) + 4;
    match mode
    case Enabled => Exponential(ds, n, radix)
    case Disabled => Positional(ds, n)
    case Auto => if -6 < n <= most then Positional(ds, n) else Exponential(ds, n, radix)
  }

  // ---- Which digits are shown ----

  // c * radix^f is read as b.
  ghost predicate Reads(c: nat, f: int, radix: nat, b: nat)
    requires radix > 0
  {
    IsNearest(Product(c as real, RP(radix, f)), b)
  }

  function Distance(c: nat, f: int, radix: nat, x: real): real
    requires radix > 0
  {
    Abs(Product(c as real, RP(radix, f)) - x)
  }

  // No number with so many digits is closer to x than c * radix^f.
  ghost predicate IsClosest(c: nat, f: int, radix: nat, digits: nat, x: real)
    requires radix > 0
  {
    forall d: nat, g: int :: d < Pow(radix, digits) ==> Distance(c, f, radix, x) <= Distance(d, g, radix, x)
  }

  // s with k digits, of which n are in front of the dot, is b rounded to k digits.
  ghost predicate IsRounding(s: nat, k: nat, n: int, radix: nat, b: nat)
    requires 2 <= radix <= 36
  {
    Rounded(ValueOf(b), radix, k, 1 + MulLog2Radix(Unpack(b).1 - 1, radix), s, n)
  }

  // Rounding b to p digits gives a number that is read as b,
  ghost predicate IsEnough(b: nat, p: nat, radix: nat)
    requires 2 <= radix <= 36
  {
    forall s: nat, n: int :: IsRounding(s, p, n, radix, b) ==> Reads(s, n - p, radix, b)
  }

  // ... or one that is not.
  ghost predicate NotEnough(b: nat, p: nat, radix: nat)
    requires 2 <= radix <= 36
  {
    forall s: nat, n: int :: IsRounding(s, p, n, radix, b) ==> !Reads(s, n - p, radix, b)
  }

  // The digits that are shown for b are those of s, k of them, with n in front of the dot: s is b rounded to k digits,
  // no number with as many digits is closer to b, the last digit is not zero, and k digits or more are always enough to
  // be read as b, but k - 1 are not.
  ghost predicate IsShown(s: nat, k: nat, n: int, radix: nat, b: nat)
    requires 2 <= radix <= 36
  {
    && 0 < k <= MaxDigits(radix) && Pow(radix, k - 1) <= s < Pow(radix, k) && s % radix != 0
    && IsRounding(s, k, n, radix, b) && IsClosest(s, n - k, radix, k, ValueOf(b)) && Reads(s, n - k, radix, b)
    && (k == 1 || NotEnough(b, k - 1, radix)) && forall p: nat :: k <= p <= MaxDigits(radix) ==> IsEnough(b, p, radix)
  }

  ghost predicate IsFinite(t: string, b: nat, radix: nat, mode: ExponentMode)
    requires 2 <= radix <= 36
  {
    if b == 0 then t == Layout("0", 1, radix, mode)
    else exists s: nat, k: nat, n: int :: IsShown(s, k, n, radix, b)
                                          && t == Layout(Representation(s, radix), n, radix, mode)
  }

  ghost predicate IsUnsigned(t: string, b: nat, radix: nat, mode: ExponentMode)
    requires 2 <= radix <= 36
  {
    if b == INFINITY then t == "Infinity" else IsFinite(t, b, radix, mode)
  }

  // The text of the double with the bits a. Not a number is one with the largest exponent and a fraction.
  ghost predicate IsText(t: string, a: nat, radix: nat, mode: ExponentMode, minusZero: bool)
    requires 2 <= radix <= 36
  {
    var b := a % SIGN;
    var sign := if a >= SIGN && (b > 0 || minusZero) then "-" else "";
    if b > INFINITY then t == "NaN"
    else |sign| <= |t| && t[..|sign|] == sign && IsUnsigned(t[|sign|..], b, radix, mode)
  }

  // ---- The digits that are written ----

  // ToDigit of a character is its place among the digits, where capital letters count as small ones.
  lemma DigitLetters(c: char, d: nat)
    requires d < 36
    ensures ToDigit(c) == d <==> c == DIGITS[d] || c == CAPITALS[d]
  {
    SmallAt(d);
    CapitalAt(d);
  }

  lemma SmallAt(d: nat)
    requires d < 36
    ensures DIGITS[d] == DigitChar(d)
  {
  }

  lemma CapitalAt(d: nat)
    requires d < 36
    ensures CAPITALS[d] == if d < 10 then '0' + d as char else 'A' + (d - 10) as char
  {
  }

  lemma PlainDigit(c: char)
    requires IsPlain(c)
    ensures ToDigit(c) < 36 && Digit(ToDigit(c)) == [c]
  {
  }

  lemma ShortFront(ds: string, n: nat, radix: nat)
    requires 2 <= radix <= RADIX_MAX && IsShortNumeral(ds, n, radix) && |ds| > 1
    ensures var front := ds[..|ds| - 1]; IsShortNumeral(front, NumberOf(front, radix), radix)
                                         && NumberOf(front, radix) > 0
  {
    var front := ds[..|ds| - 1];
    assert front == [front[0]] + front[1..];
    NumberFront(front[0], front[1..], radix);
    PowPos(radix, |front| - 1);
    MulPos(ToDigit(front[0]), Pow(radix, |front| - 1));
  }

  lemma OneDigitMore(q: nat, d: nat, n: nat, radix: nat)
    requires 2 <= radix <= 36 && 0 < q && d < radix && n == q * radix + d
    ensures Representation(n, radix) == Representation(q, radix) + Digit(d)
  {
    DivModIs(n, radix, q, d);
    MulLe(1, q, radix, radix);
  }

  // A numeral without zeros in front is the representation.
  lemma {:induction false} RepresentationIs(ds: string, n: nat, radix: nat)
    requires 2 <= radix <= RADIX_MAX && IsShortNumeral(ds, n, radix)
    ensures ds == Representation(n, radix)
    decreases |ds|
  {
    var front, c := ds[..|ds| - 1], ds[|ds| - 1];
    PlainDigit(c);
    if |ds| == 1 {
      NumberOne(c, radix);
      assert ds == [c];
    } else {
      var q := NumberOf(front, radix);
      ShortFront(ds, n, radix);
      RepresentationIs(front, q, radix);
      OneDigitMore(q, ToDigit(c), n, radix);
      assert ds == front + [c];
    }
  }

  lemma DigitIs(d: nat)
    requires d < 36
    ensures IsPlain(Digit(d)[0]) && ToDigit(Digit(d)[0]) == d
  {
  }

  // The representation is a numeral without zeros in front.
  lemma {:induction false} RepresentationNumber(n: nat, radix: nat)
    requires 2 <= radix <= RADIX_MAX
    ensures IsShortNumeral(Representation(n, radix), n, radix)
    ensures n > 0 ==> Representation(n, radix)[0] != '0'
  {
    var q, d := Parts(n, radix);
    var ds := Representation(n, radix);
    DigitIs(d);
    if n < radix {
      DivModIs(n, radix, 0, n);
      NumberOne(ds[0], radix);
    } else {
      Quotient(n, radix);
      RepresentationNumber(q, radix);
      assert ds[..|ds| - 1] == Representation(q, radix);
    }
  }

  // ---- The text of the code ----

  // What the code writes for digits and exponent is their layout.
  lemma TextIsLayout(ds: string, n: int, radix: nat, mode: ExponentMode, es: string)
    requires 2 <= radix <= RADIX_MAX && ds != "" && (Scientific(mode, n, radix) ==> IsExponent(es, radix, n))
    ensures FreeText(ds, n, radix, Scientific(mode, n, radix), es) == Layout(ds, n, radix, mode)
  {
    ModeIs(ds, n, radix, mode);
    if Scientific(mode, n, radix) {
      ExponentIs(n, radix, es);
      ExponentialIs(ds, n, radix, es);
    } else {
      PositionalIs(ds, n, radix, es);
    }
  }

  lemma ModeIs(ds: string, n: int, radix: nat, mode: ExponentMode)
    requires 2 <= radix <= RADIX_MAX && ds != ""
    ensures Layout(ds, n, radix, mode)
         == if Scientific(mode, n, radix) then Exponential(ds, n, radix) else Positional(ds, n)
  {
  }

  lemma ExponentIs(n: int, radix: nat, es: string)
    requires 2 <= radix <= RADIX_MAX && IsExponent(es, radix, n)
    ensures es == Representation(Shown(n, radix), 10)
  {
    RepresentationIs(es, Shown(n, radix), 10);
  }

  lemma ExponentialIs(ds: string, n: int, radix: nat, es: string)
    requires 2 <= radix <= RADIX_MAX && ds != "" && es == Representation(Shown(n, radix), 10)
    ensures FreeText(ds, n, radix, true, es) == Exponential(ds, n, radix)
  {
  }

  lemma PositionalIs(ds: string, n: int, radix: nat, es: string)
    requires 2 <= radix <= RADIX_MAX && ds != ""
    ensures FreeText(ds, n, radix, false, es) == Positional(ds, n)
  {
    assert ds + ZeroDigits(0) == ds;
  }
}
