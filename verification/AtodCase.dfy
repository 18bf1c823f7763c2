// Small and capital letters mean the same in the text of a number, but for the word for infinity.
module AtodCase {
  import opened Powers
  import opened RadixPower
  import opened Digits
  import opened AtodTables
  import opened Numerals
  import opened Atod
  import opened AtodText

  const SMALL: string := "abcdefghijklmnopqrstuvwxyz"
  const CAPITAL: string := "ABCDEFGHIJKLMNOPQRSTUVWXYZ"

  // A small letter and its capital.
  predicate IsPair(c: char, d: char) {
    exists i :: 0 <= i < 26 && c == SMALL[i] && d == CAPITAL[i]
  }

  predicate Alike(c: char, d: char) {
    c == d || IsPair(c, d) || IsPair(d, c)
  }

  predicate AllAlike(s: string, t: string) {
    |s| == |t| && forall i :: 0 <= i < |s| ==> Alike(s[i], t[i])
  }

  lemma PairIs(c: char, d: char)
    requires IsPair(c, d)
    ensures 'a' <= c <= 'z' && 'A' <= d <= 'Z' && c - 'a' == d - 'A'
  {
  }

  // They have the same place among the digits, and are no decimal digits, dots or signs.
  lemma AlikeDigit(c: char, d: char)
    requires Alike(c, d)
    ensures ToDigit(c) == ToDigit(d)
    ensures c == d || (ToDigit(c) >= 10 && c != '.' && d != '.' && !IsSign(c) && !IsSign(d))
    ensures IsBinary(c) == IsBinary(d) && (c == '@' <==> d == '@') && (c == 'e' || c == 'E' <==> d == 'e' || d == 'E')
  {
    if IsPair(c, d) {
      PairIs(c, d);
    } else if IsPair(d, c) {
      PairIs(d, c);
    }
  }

  // ---- Digits ----

  lemma {:induction false} AlikeNumber(s: string, t: string, radix: nat)
    requires AllAlike(s, t)
    ensures NumberOf(s, radix) == NumberOf(t, radix)
  {
    if s != "" {
      AlikeNumber(s[..|s| - 1], t[..|t| - 1], radix);
      AlikeDigit(s[|s| - 1], t[|t| - 1]);
    }
  }

  lemma {:induction false} AlikeSignificant(s: string, t: string)
    requires AllAlike(s, t)
    ensures AllAlike(Significant(s), Significant(t))
  {
    if s != "" {
      AlikeDigit(s[0], t[0]);
      if s[0] == '0' {
        AlikeSignificant(s[1..], t[1..]);
      }
    }
  }

  lemma AlikeKept(s: string, t: string, radix: nat)
    requires 2 <= radix <= RADIX_MAX && AllAlike(s, t)
    ensures KeptNumber(s, radix) == KeptNumber(t, radix)
  {
    var u, n := KeptIs(s, radix);
    var v, m := KeptIs(t, radix);
    AlikeSignificant(s, t);
    AlikeNumber(s, t, radix);
    SameTaken(u, v, radix, n);
  }

  // The digits that are taken, and how many are left out.
  function Taken(u: string, radix: nat, n: nat): nat {
    if |u| <= n then 0 else NumberOf(u[..n], radix) * Pow(radix, |u| - n)
  }

  lemma KeptIs(s: string, radix: nat) returns (u: string, n: nat)
    requires 2 <= radix <= RADIX_MAX
    ensures u == Significant(s) && n == AtodMaxDigits(radix)
    ensures KeptNumber(s, radix) == if PowerOfTwo(radix) || |u| <= n then NumberOf(s, radix) else Taken(u, radix, n)
  {
    u, n := Significant(s), AtodMaxDigits(radix);
  }

  lemma SameTaken(u: string, v: string, radix: nat, n: nat)
    requires AllAlike(u, v)
    ensures Taken(u, radix, n) == Taken(v, radix, n)
  {
    if |u| > n {
      AlikeNumber(u[..n], v[..n], radix);
    }
  }

  // ---- Scanning ----

  lemma AlikeAt(s: string, t: string, p: nat)
    requires AllAlike(s, t)
    ensures Alike(At(s, p), At(t, p))
  {
  }

  // Scanned digits that are alike.
  predicate SameScan(x: Scanned, y: Scanned) {
    AllAlike(x.digits, y.digits) && x.fraction == y.fraction && x.end == y.end
  }

  lemma AlikeDot(s: string, t: string, p: nat, start: nat, radix: nat)
    requires AllAlike(s, t)
    ensures IsDot(s, p, start, radix) <==> IsDot(t, p, start, radix)
    ensures IsDigit(At(s, p), radix) <==> IsDigit(At(t, p), radix)
  {
    AlikeAt(s, t, p);
    AlikeAt(s, t, p + 1);
    AlikeDigit(At(s, p), At(t, p));
    AlikeDigit(At(s, p + 1), At(t, p + 1));
  }

  lemma {:induction false} AlikeScan(s: string, t: string, p: nat, start: nat, radix: nat, dot: bool)
    requires AllAlike(s, t)
    ensures SameScan(Scan(s, p, start, radix, dot), Scan(t, p, start, radix, dot))
    decreases |s| - p
  {
    if p < |s| {
      AlikeDot(s, t, p, start, radix);
      if IsDot(s, p, start, radix) && !dot {
        AlikeScan(s, t, p + 1, start, radix, true);
      } else if IsDigit(s[p], radix) {
        AlikeScan(s, t, p + 1, start, radix, dot);
      }
    }
  }

  lemma {:induction false} AlikeDecimals(s: string, t: string, p: nat)
    requires AllAlike(s, t)
    ensures Decimals(s, p) == Decimals(t, p)
    decreases |s| - p
  {
    AlikeAt(s, t, p);
    AlikeDigit(At(s, p), At(t, p));
    if IsDigit(At(s, p), 10) {
      AlikeDecimals(s, t, p + 1);
    }
  }

  lemma AlikeExponent(s: string, t: string, p: nat)
    requires AllAlike(s, t)
    ensures ScanExponent(s, p) == ScanExponent(t, p)
  {
    AlikeAt(s, t, p);
    AlikeDigit(At(s, p), At(t, p));
    AlikeDecimals(s, t, p);
    AlikeDecimals(s, t, p + 1);
  }

  lemma AlikeMarker(s: string, t: string, p: nat, start: nat, radix: nat)
    requires AllAlike(s, t)
    ensures HasExponent(s, p, start, radix) <==> HasExponent(t, p, start, radix)
    ensures IsBinary(At(s, p)) == IsBinary(At(t, p))
  {
    AlikeAt(s, t, p);
    AlikeDigit(At(s, p), At(t, p));
  }

  // ---- Numerals ----

  predicate SameNumeral(x: Numeral, y: Numeral) {
    if x.NoNumeral? then y.NoNumeral?
    else
      && y.Numeral? && AllAlike(x.digits, y.digits) && x.fraction == y.fraction && x.expn == y.expn
      && x.binary == y.binary
  }

  // Texts that are alike have the same numeral,
  lemma AlikeParse(s: string, t: string, p: nat, start: nat, radix: nat)
    requires AllAlike(s, t)
    ensures SameNumeral(Parse(s, p, start, radix), Parse(t, p, start, radix))
  {
    AlikeScan(s, t, p, start, radix, false);
    AlikeWhole(s, t, Scan(s, p, start, radix, false), Scan(t, p, start, radix, false), start, radix);
  }

  lemma AlikeWhole(s: string, t: string, x: Scanned, y: Scanned, start: nat, radix: nat)
    requires AllAlike(s, t) && SameScan(x, y)
    ensures SameNumeral(WithExponent(s, x, start, radix), WithExponent(t, y, start, radix))
  {
    AlikeMarker(s, t, x.end, start, radix);
    AlikeExponent(s, t, x.end + 1);
  }

  // ... which has the same value.
  lemma AlikeResult(x: Numeral, y: Numeral, radix: nat, r: Result)
    requires 2 <= radix <= RADIX_MAX && SameNumeral(x, y)
    ensures IsResult(x, radix, r) <==> IsResult(y, radix, r)
  {
    if x.Numeral? {
      AlikeKept(x.digits, y.digits, radix);
      AlikeSignificant(x.digits, y.digits);
    }
  }

  // ---- Whole texts ----

  lemma {:induction false} AlikeOctal(s: string, t: string, i: nat)
    requires AllAlike(s, t)
    ensures OctalEnd(s, i) == OctalEnd(t, i)
    decreases |s| - i
  {
    AlikeAt(s, t, i);
    AlikeDigit(At(s, i), At(t, i));
    if '0' <= At(s, i) <= '7' {
      AlikeOctal(s, t, i + 1);
    }
  }

  lemma AlikePrefix(s: string, t: string, start: nat, radix: nat, flags: Flags)
    requires AllAlike(s, t) && (radix == 0 || 2 <= radix <= RADIX_MAX)
    ensures PrefixOf(s, start, radix, flags) == PrefixOf(t, start, radix, flags)
  {
    AlikeAt(s, t, start);
    AlikeAt(s, t, start + 1);
    AlikeDigit(At(s, start), At(t, start));
    AlikeDigit(At(s, start + 1), At(t, start + 1));
    AlikeOctal(s, t, start + 1);
    AlikeAt(s, t, OctalEnd(s, start + 1));
    AlikeDigit(At(s, OctalEnd(s, start + 1)), At(t, OctalEnd(s, start + 1)));
  }

  lemma AlikeBehind(s: string, t: string, start: nat, skip: nat, base: nat, r: Result)
    requires AllAlike(s, t) && 2 <= base <= RADIX_MAX && (HasInfinity(s, start) <==> HasInfinity(t, start))
    ensures ReadBehind(s, start, skip, base, r) <==> ReadBehind(t, start, skip, base, r)
  {
    AlikeParse(s, t, start + skip, start, base);
    AlikeAt(s, t, start + skip);
    AlikeDigit(At(s, start + skip), At(t, start + skip));
    var x, none, infinite := PartsBehind(s, start, skip, base, r);
    var y, none', infinite' := PartsBehind(t, start, skip, base, r);
    AlikeFrom(x, y, none, infinite, base, r);
  }

  lemma PartsBehind(s: string, start: nat, skip: nat, base: nat, r: Result)
    returns (x: Numeral, none: bool, infinite: bool)
    requires 2 <= base <= RADIX_MAX
    ensures x == Parse(s, start + skip, start, base)
    ensures none == (skip > 0 && !IsDigit(At(s, start + skip), base))
    ensures infinite == (skip == 0 && HasInfinity(s, start))
    ensures ReadBehind(s, start, skip, base, r) <==> ReadFrom(x, none, infinite, base, r)
  {
    x := Parse(s, start + skip, start, base);
    none, infinite := skip > 0 && !IsDigit(At(s, start + skip), base), skip == 0 && HasInfinity(s, start);
  }

  lemma AlikeFrom(x: Numeral, y: Numeral, none: bool, infinite: bool, base: nat, r: Result)
    requires 2 <= base <= RADIX_MAX && SameNumeral(x, y)
    ensures ReadFrom(x, none, infinite, base, r) <==> ReadFrom(y, none, infinite, base, r)
  {
    AlikeResult(x, y, base, r);
  }

  // Texts that are alike are read as the same double with the same sign, unless one of them is the word for infinity.
  lemma AlikeText(s: string, t: string, radix: nat, flags: Flags, r: Result)
    requires AllAlike(s, t) && (radix == 0 || 2 <= radix <= RADIX_MAX)
    requires HasInfinity(s, SignEnd(s)) <==> HasInfinity(t, SignEnd(t))
    ensures ReadTo(s, radix, flags, r) <==> ReadTo(t, radix, flags, r)
    ensures At(s, 0) == '-' <==> At(t, 0) == '-'
  {
    AlikeAt(s, t, 0);
    AlikeDigit(At(s, 0), At(t, 0));
    var start := SignEnd(s);
    AlikePrefix(s, t, start, radix, flags);
    var (skip, base) := PrefixOf(s, start, radix, flags);
    AlikeBehind(s, t, start, skip, base, r);
  }
}
