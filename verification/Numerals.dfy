// The text of a number: digits with at most one dot, and an exponent.
module Numerals {
  import opened Powers
  import opened RealPowers
  import opened RadixPower
  import opened Float64
  import opened Digits
  import opened AtodTables

  // The text ends with a character that is neither digit nor sign.
  function At(s: string, p: nat): char {
    if p < |s| then s[p] else '\0'
  }

  // ---- Digits and dot ----

  // All digits, how many of them are behind the dot, and where they end.
  datatype Scanned = Scanned(digits: string, fraction: nat, end: nat)

  // A dot at the start counts only in front of a digit.
  predicate IsDot(s: string, p: nat, start: nat, radix: nat) {
    At(s, p) == '.' && (p > start || IsDigit(At(s, p + 1), radix))
  }

  function Join(digits: string, fraction: nat, r: Scanned): Scanned {
    Scanned(digits + r.digits, fraction + r.fraction, r.end)
  }

  function Scan(s: string, p: nat, start: nat, radix: nat, dot: bool): Scanned
    decreases |s| - p
  {
    if p >= |s| then Scanned("", 0, p)
    else if IsDot(s, p, start, radix) && !dot then Scan(s, p + 1, start, radix, true)
    else if IsDigit(s[p], radix) then Join([s[p]], if dot then 1 else 0, Scan(s, p + 1, start, radix, dot))
    else Scanned("", 0, p)
  }

  // A scanner at p has seen these digits.
  predicate Seen(s: string, p0: nat, start: nat, radix: nat, digits: string, fraction: nat, dot: bool, p: nat) {
    && p0 <= p <= |s| + p0 && (p <= |s| || p == p0) && |digits| <= p - p0
    && fraction <= |digits| && (!dot ==> fraction == 0)
    && Scan(s, p0, start, radix, false) == Join(digits, fraction, Scan(s, p, start, radix, dot))
  }

  lemma SeenStart(s: string, p: nat, start: nat, radix: nat)
    ensures Seen(s, p, start, radix, "", 0, false, p)
  {
    var r := Scan(s, p, start, radix, false);
    assert "" + r.digits == r.digits;
  }

  lemma SeenDot(s: string, p0: nat, start: nat, radix: nat, digits: string, p: nat)
    requires radix <= RADIX_MAX && Seen(s, p0, start, radix, digits, 0, false, p) && IsDot(s, p, start, radix)
    ensures p < |s| && Seen(s, p0, start, radix, digits, 0, true, p + 1)
  {
  }

  lemma SeenDigit(s: string, p0: nat, start: nat, radix: nat, digits: string, fraction: nat, dot: bool, p: nat)
    requires radix <= RADIX_MAX && Seen(s, p0, start, radix, digits, fraction, dot, p)
    requires IsDigit(At(s, p), radix) && !(IsDot(s, p, start, radix) && !dot)
    ensures p < |s| && Seen(s, p0, start, radix, digits + [s[p]], fraction + if dot then 1 else 0, dot, p + 1)
  {
    var r := Scan(s, p + 1, start, radix, dot);
    assert digits + ([s[p]] + r.digits) == (digits + [s[p]]) + r.digits;
  }

  lemma SeenEnd(s: string, p0: nat, start: nat, radix: nat, digits: string, fraction: nat, dot: bool, p: nat)
    requires Seen(s, p0, start, radix, digits, fraction, dot, p)
    requires !IsDigit(At(s, p), radix) && !(IsDot(s, p, start, radix) && !dot)
    ensures Scan(s, p0, start, radix, false) == Scanned(digits, fraction, p)
  {
    assert digits + "" == digits;
  }

  lemma {:induction false} ScanDigits(s: string, p: nat, start: nat, radix: nat, dot: bool)
    ensures var r := Scan(s, p, start, radix, dot);
      AllDigits(r.digits, radix) && r.fraction <= |r.digits| <= |s| && p <= r.end
    ensures p <= |s| ==> |Scan(s, p, start, radix, dot).digits| <= |s| - p
    decreases |s| - p
  {
    if p < |s| {
      if IsDot(s, p, start, radix) && !dot {
        ScanDigits(s, p + 1, start, radix, true);
      } else if IsDigit(s[p], radix) {
        ScanDigits(s, p + 1, start, radix, dot);
      }
    }
  }

  // ---- Exponents ----

  function RadixBitsOf(radix: nat): nat {
    if PowerOfTwo(radix) then RadixBits(radix) else 0
  }

  predicate HasExponent(s: string, p: nat, start: nat, radix: nat) {
    var c := At(s, p);
    && p > start
    && if radix == 10 then c == 'e' || c == 'E'
       else c == '@' || (1 <= RadixBitsOf(radix) <= 4 && (c == 'p' || c == 'P'))
  }

  // The exponent is one of two.
  predicate IsBinary(c: char) {
    c == 'p' || c == 'P'
  }

  predicate IsSign(c: char) {
    c == '+' || c == '-'
  }

  // The decimal digits from p on.
  function Decimals(s: string, p: nat): string
    decreases |s| - p
  {
    if IsDigit(At(s, p), 10) then [At(s, p)] + Decimals(s, p + 1) else ""
  }

  // An exponent after its marker: a sign and at least one decimal digit.
  datatype Exponent = Exponent(negative: bool, digits: string)

  function ScanExponent(s: string, p: nat): Exponent {
    Exponent(At(s, p) == '-', Decimals(s, if IsSign(At(s, p)) then p + 1 else p))
  }

  function ExponentValue(x: Exponent): int {
    var n: int := NumberOf(x.digits, 10);
    if x.negative then -n else n
  }

  // ---- The whole ----

  datatype Numeral = Numeral(digits: string, fraction: nat, expn: int, binary: bool) | NoNumeral

  // p is behind sign and prefix, start is behind the sign.
  function Parse(s: string, p: nat, start: nat, radix: nat): Numeral {
    WithExponent(s, Scan(s, p, start, radix, false), start, radix)
  }

  // The numeral for scanned digits and what follows them.
  function WithExponent(s: string, r: Scanned, start: nat, radix: nat): Numeral {
    if HasExponent(s, r.end, start, radix) then
      var x := ScanExponent(s, r.end + 1);
      if x.digits == "" then NoNumeral else Numeral(r.digits, r.fraction, ExponentValue(x), IsBinary(At(s, r.end)))
    else if r.end == start then NoNumeral
    else Numeral(r.digits, r.fraction, 0, false)
  }

  // ---- What it stands for ----

  // n * radix^(expn - fraction), or with a binary exponent n * radix^-fraction * 2^expn.
  function Literal(n: nat, fraction: nat, expn: int, binary: bool, radix: nat): real
    requires radix > 0
  {
    if binary then Scale(Product(n as real, RP(radix, 0 - fraction)), expn)
    else Product(n as real, RP(radix, expn - fraction))
  }

  // Digits without the zeros in front.
  function Significant(digits: string): string {
    if digits != "" && digits[0] == '0' then Significant(digits[1..]) else digits
  }

  // The number of the digits. In a radix that is not a power of two only so many are taken.
  function KeptNumber(digits: string, radix: nat): nat
    requires 2 <= radix <= RADIX_MAX
  {
    var t := Significant(digits);
    var n := AtodMaxDigits(radix);
    if PowerOfTwo(radix) || |t| <= n then NumberOf(digits, radix) else NumberOf(t[..n], radix) * Pow(radix, |t| - n)
  }

  lemma {:induction false} SignificantNumber(digits: string, radix: nat)
    ensures NumberOf(Significant(digits), radix) == NumberOf(digits, radix) && |Significant(digits)| <= |digits|
  {
    if digits != "" && digits[0] == '0' {
      SignificantNumber(digits[1..], radix);
      assert digits == [digits[0]] + digits[1..];
      NumberFront(digits[0], digits[1..], radix);
    }
  }

  lemma {:induction false} SignificantOf(zeros: string, t: string)
    requires (forall i :: 0 <= i < |zeros| ==> zeros[i] == '0') && (t == "" || t[0] != '0')
    ensures Significant(zeros + t) == t
  {
    if zeros == "" {
      assert zeros + t == t;
    } else {
      assert (zeros + t)[1..] == zeros[1..] + t;
      SignificantOf(zeros[1..], t);
    }
  }
}
