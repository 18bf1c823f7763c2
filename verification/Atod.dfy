// Digits to a double: the digits are accumulated in a number, which is scaled and rounded once.
module Atod {
  import opened Arith
  import opened Powers
  import opened RealPowers
  import opened Limbs
  import opened InvDiv
  import opened Bignum
  import opened RadixPower
  import opened Float64
  import opened Capacity
  import opened Doubles
  import opened Digits
  import opened AtodTables
  import opened Numerals
  import opened AtodRounding
  import opened Log2Radix

  // ---- r := r * base + a ----

  // What a base of the table means: 0 is for 2^32.
  function Base(base: Limb): nat {
    if base == 0 then B else base
  }

  method MulBase(r: Mpb, base: Limb, a: Limb)
    requires r.Valid() && r.Normal() && r.len + 2 <= r.tab.Length
    modifies r`len, r.tab
    ensures r.Valid() && r.Normal() && r.Value() == old(r.Value()) * Base(base) + a && r.len <= old(r.len) + 1
  {
    ghost var was := r.tab[..r.len];
    if r.tab[0] == 0 && r.len == 1 {
      assert was == [0];
      ValOne(0);
      r.tab[0] := a;
      assert r.tab[..1] == [a];
      ValOne(a);
    } else {
      if base == 0 {
        MoveLimbs(r);
        r.tab[0] := a;
        assert r.tab[..r.len + 1] == [a] + was;
        ValFront(a, was);
        Commute(B, Val(was));
      } else {
        var n := r.len;
        var c := Mul1(r.tab, n, base, a);
        ghost var low := r.tab[..n];
        r.tab[n] := c;
        assert r.tab[..n + 1] == low + [c];
        ValPush(low, c);
        Commute(Pow(B, n), c);
      }
      r.len := r.len + 1;
      r.Renorm();
    }
  }

  // Every limb moves one up, the one above the top too.
  method MoveLimbs(r: Mpb)
    requires r.Valid() && r.len + 2 <= r.tab.Length
    modifies r.tab
    ensures forall i :: 0 <= i < r.len ==> r.tab[i + 1] == old(r.tab[i])
  {
    var i: int := r.len;
    while i >= 0
      invariant -1 <= i <= r.len
      invariant forall k :: i < k <= r.len ==> r.tab[k + 1] == old(r.tab[k])
      invariant forall k :: 0 <= k <= i ==> r.tab[k] == old(r.tab[k])
      decreases i + 1
    {
      r.tab[i + 1] := r.tab[i];
      i := i - 1;
    }
  }

  // ---- Accumulating digits ----

  // v and the k digits of cur that are still to be added to it make the number of the digits.
  predicate Accumulated(v: nat, cur: nat, k: nat, digits: string, radix: nat) {
    v * Pow(radix, k) + cur == NumberOf(digits, radix) && cur < Pow(radix, k)
  }

  lemma AccumulateStart(radix: nat)
    ensures Accumulated(0, 0, 0, "", radix)
  {
    assert Pow(radix, 0) == 1;
  }

  lemma AccumulateDigit(v: nat, cur: nat, k: nat, digits: string, c: char, radix: nat)
    requires Accumulated(v, cur, k, digits, radix) && IsDigit(c, radix)
    ensures Accumulated(v, cur * radix + ToDigit(c), k + 1, digits + [c], radix)
  {
    assert (digits + [c])[..|digits|] == digits;
    OneMore(v, Pow(radix, k), cur, radix, ToDigit(c));
    BoundMore(cur, Pow(radix, k), radix, ToDigit(c));
  }

  // A number below 2^128 has at most four limbs.
  lemma FourLimbs(s: seq<Limb>)
    requires |s| > 0 && Val(s) < Pow(B, 4) && (|s| == 1 || s[|s| - 1] != 0)
    ensures |s| <= 4
  {
    if |s| > 4 {
      var n := |s| - 1;
      assert s == s[..n] + [s[n]];
      ValPush(s[..n], s[n]);
      PowMono(B, 4, n);
      MulAtLeast(Pow(B, n), s[n]);
    }
  }

  // Flush the digits of cur into r.
  method Flush(r: Mpb, base: Limb, cur: nat, k: nat, radix: nat, ghost digits: string)
    requires 2 <= radix <= RADIX_MAX && r.Valid() && r.Normal() && r.len <= 4 && r.tab.Length == LEN_MAX
    requires Base(base) == Pow(radix, k) && k <= DigitsPerLimb(radix) && Accumulated(r.Value(), cur, k, digits, radix)
    requires AllDigits(digits, radix) && |digits| <= AtodMaxDigits(radix)
    modifies r`len, r.tab
    ensures r.Valid() && r.Normal() && r.len <= 4 && r.Value() == NumberOf(digits, radix)
  {
    RadixBaseIs(radix);
    PowMono(radix, k, DigitsPerLimb(radix));
    MulBase(r, base, cur);
    NumberBound(digits, radix);
    PowMono(radix, |digits|, AtodMaxDigits(radix));
    AtodDigitsFit(radix);
    FourLimbs(r.tab[..r.len]);
  }

  // ---- Scanning ----

  // Position of the dot among the digits, or -1.
  predicate DotAt(dotPos: int, dot: bool, pos: nat, fraction: nat) {
    if dot then dotPos == pos - fraction else dotPos == -1 && fraction == 0
  }

  predicate Zeros(digits: string) {
    forall i :: 0 <= i < |digits| ==> digits[i] == '0'
  }

  method SkipZeros(s: string, p0: nat, start: nat, radix: nat)
    returns (p: nat, pos: nat, dotPos: int, ghost zeros: string, ghost fraction: nat)
    requires 2 <= radix <= RADIX_MAX && start <= p0
    ensures Seen(s, p0, start, radix, zeros, fraction, dotPos >= 0, p) && Zeros(zeros) && pos == |zeros|
    ensures DotAt(dotPos, dotPos >= 0, pos, fraction) && At(s, p) != '0' && (IsDot(s, p, start, radix) ==> dotPos >= 0)
  {
    p, pos, dotPos, zeros, fraction := p0, 0, -1, "", 0;
    SeenStart(s, p0, start, radix);
    while true
      invariant p >= p0 && Seen(s, p0, start, radix, zeros, fraction, dotPos >= 0, p) && Zeros(zeros) && pos == |zeros|
      invariant DotAt(dotPos, dotPos >= 0, pos, fraction)
      decreases |s| + p0 + 1 - p
    {
      if IsDot(s, p, start, radix) {
        if dotPos >= 0 {
          break;
        }
        SeenDot(s, p0, start, radix, zeros, p);
        dotPos := pos;
        p := p + 1;
      }
      if At(s, p) != '0' {
        break;
      }
      SeenDigit(s, p0, start, radix, zeros, fraction, dotPos >= 0, p);
      zeros, fraction := zeros + [s[p]], fraction + if dotPos >= 0 then 1 else 0;
      p := p + 1;
      pos := pos + 1;
    }
  }

  // ---- Taking digits ----

  // Of the digits the first count are in v and cur, the others only tell whether one of them is not zero.
  predicate Taking(v: nat, cur: nat, k: nat, count: nat, extra: bool, sig: string, radix: nat)
    requires 2 <= radix <= RADIX_MAX
  {
    && count == Min(|sig|, AtodMaxDigits(radix)) && k < DigitsPerLimb(radix) && AllDigits(sig, radix)
    && Accumulated(v, cur, k, sig[..count], radix) && (extra <==> NumberOf(sig[count..], radix) != 0)
  }

  lemma TakingStart(radix: nat)
    requires 2 <= radix <= RADIX_MAX
    ensures Taking(0, 0, 0, 0, false, "", radix)
  {
    AccumulateStart(radix);
    assert ""[..0] == "";
  }

  lemma ExtraDigit(t: string, c: char, radix: nat)
    requires radix > 0
    ensures NumberOf(t + [c], radix) != 0 <==> NumberOf(t, radix) != 0 || ToDigit(c) != 0
  {
    assert (t + [c])[..|t|] == t;
    if NumberOf(t, radix) > 0 {
      MulPos(NumberOf(t, radix), radix);
    }
  }

  // One more digit.
  method TakeDigit(r: Mpb, radix: nat, c: char, cur0: nat, k0: nat, count0: nat, extra0: bool, ghost sig: string)
    returns (cur: nat, k: nat, count: nat, extra: bool)
    requires 2 <= radix <= RADIX_MAX && r.Valid() && r.Normal() && r.len <= 4 && r.tab.Length == LEN_MAX
    requires Taking(r.Value(), cur0, k0, count0, extra0, sig, radix) && IsDigit(c, radix)
    modifies r`len, r.tab
    ensures r.Valid() && r.Normal() && r.len <= 4
    ensures Taking(r.Value(), cur, k, count, extra, sig + [c], radix)
  {
    cur, k, count, extra := cur0, k0, count0, extra0;
    if count < AtodMaxDigits(radix) {
      DigitKept(r.Value(), cur, k, count, extra, sig, c, radix);
      cur, k := AddDigit(r, radix, c, cur, k, sig + [c]);
      count := count + 1;
    } else {
      DigitLeft(r.Value(), cur, k, count, extra, sig, c, radix);
      extra := extra || ToDigit(c) != 0;
    }
  }

  method AddDigit(r: Mpb, radix: nat, c: char, cur0: nat, k0: nat, ghost t: string) returns (cur: nat, k: nat)
    requires 2 <= radix <= RADIX_MAX && r.Valid() && r.Normal() && r.len <= 4 && r.tab.Length == LEN_MAX
    requires k0 < DigitsPerLimb(radix) && Accumulated(r.Value(), cur0 * radix + ToDigit(c), k0 + 1, t, radix)
    requires AllDigits(t, radix) && |t| <= AtodMaxDigits(radix)
    modifies r`len, r.tab
    ensures r.Valid() && r.Normal() && r.len <= 4
    ensures k < DigitsPerLimb(radix) && Accumulated(r.Value(), cur, k, t, radix)
  {
    cur := cur0 * radix + ToDigit(c);
    k := k0 + 1;
    if k == DigitsPerLimb(radix) {
      RadixBaseIs(radix);
      Flush(r, RadixBase(radix), cur, k, radix, t);
      LimbTaken(r.Value(), t, radix);
      cur, k := 0, 0;
    }
  }

  // A digit that is taken: only a full limb has to be flushed.
  lemma DigitKept(v: nat, cur: nat, k: nat, count: nat, extra: bool, sig: string, c: char, radix: nat)
    requires 2 <= radix <= RADIX_MAX && Taking(v, cur, k, count, extra, sig, radix) && IsDigit(c, radix)
    requires count < AtodMaxDigits(radix)
    ensures var t := sig + [c];
      && AllDigits(t, radix) && count + 1 == Min(|t|, AtodMaxDigits(radix)) && t[..count + 1] == t
      && Accumulated(v, cur * radix + ToDigit(c), k + 1, t, radix) && !extra && NumberOf(t[count + 1..], radix) == 0
  {
    var t := sig + [c];
    assert sig[..count] == sig && t[..count + 1] == t;
    assert t[count + 1..] == sig[count..] == "";
    AccumulateDigit(v, cur, k, sig, c, radix);
  }

  // After a flush nothing is left over.
  lemma LimbTaken(v: nat, digits: string, radix: nat)
    requires v == NumberOf(digits, radix)
    ensures Accumulated(v, 0, 0, digits, radix)
  {
    assert Pow(radix, 0) == 1;
  }

  // A digit that is left out.
  lemma DigitLeft(v: nat, cur: nat, k: nat, count: nat, extra: bool, sig: string, c: char, radix: nat)
    requires 2 <= radix <= RADIX_MAX && Taking(v, cur, k, count, extra, sig, radix) && IsDigit(c, radix)
    requires count >= AtodMaxDigits(radix)
    ensures Taking(v, cur, k, count, extra || ToDigit(c) != 0, sig + [c], radix)
  {
    assert (sig + [c])[..count] == sig[..count] && (sig + [c])[count..] == sig[count..] + [c];
    ExtraDigit(sig[count..], c, radix);
  }

  // The digits that are left in cur.
  method TakeRest(r: Mpb, radix: nat, cur: nat, k: nat, count: nat, extra: bool, ghost sig: string)
    requires 2 <= radix <= RADIX_MAX && r.Valid() && r.Normal() && r.len <= 4 && r.tab.Length == LEN_MAX
    requires Taking(r.Value(), cur, k, count, extra, sig, radix)
    modifies r`len, r.tab
    ensures r.Valid() && r.Normal() && r.len <= 4 && r.Value() == NumberOf(sig[..count], radix)
  {
    if k != 0 {
      SmallPowerFits(radix, k);
      var base := PowUi(radix, k);
      Flush(r, base, cur, k, radix, sig[..count]);
    } else {
      assert Pow(radix, 0) == 1;
    }
  }

  // Fewer digits than in a limb.
  lemma SmallPowerFits(radix: nat, k: nat)
    requires 2 <= radix <= RADIX_MAX && k < DigitsPerLimb(radix)
    ensures 0 < Pow(radix, k) < B && Pow(radix, k) % B2 == Pow(radix, k)
  {
    RadixBaseIs(radix);
    PowMono(radix, k + 1, DigitsPerLimb(radix));
    PowPos(radix, k);
    Below64(Pow(radix, k));
  }

  // The significant digits before p.
  predicate Scanning(s: string, p0: nat, start: nat, radix: nat, zeros: string, sig: string, fraction: nat,
                     dotPos: int, pos: nat, p: nat) {
    && Seen(s, p0, start, radix, zeros + sig, fraction, dotPos >= 0, p) && pos == |zeros| + |sig|
    && DotAt(dotPos, dotPos >= 0, pos, fraction) && (sig != "" ==> sig[0] != '0')
  }

  lemma ScanningDot(s: string, p0: nat, start: nat, radix: nat, zeros: string, sig: string, fraction: nat,
                    dotPos: int, pos: nat, p: nat)
    requires radix <= RADIX_MAX && Scanning(s, p0, start, radix, zeros, sig, fraction, dotPos, pos, p)
    requires IsDot(s, p, start, radix) && dotPos < 0
    ensures p < |s| && Scanning(s, p0, start, radix, zeros, sig, fraction, pos, pos, p + 1)
  {
    SeenDot(s, p0, start, radix, zeros + sig, p);
  }

  lemma ScanningDigit(s: string, p0: nat, start: nat, radix: nat, zeros: string, sig: string, fraction: nat,
                      dotPos: int, pos: nat, p: nat)
    requires radix <= RADIX_MAX && Scanning(s, p0, start, radix, zeros, sig, fraction, dotPos, pos, p)
    requires IsDigit(At(s, p), radix) && !(IsDot(s, p, start, radix) && dotPos < 0) && (sig == "" ==> At(s, p) != '0')
    ensures p < |s|
    ensures Scanning(s, p0, start, radix, zeros, sig + [At(s, p)], fraction + if dotPos >= 0 then 1 else 0, dotPos,
                     pos + 1, p + 1)
  {
    SeenDigit(s, p0, start, radix, zeros + sig, fraction, dotPos >= 0, p);
    assert (zeros + sig) + [s[p]] == zeros + (sig + [s[p]]);
  }

  // Over the first dot; a second one ends the digits.
  method SkipDot(s: string, ghost p0: nat, start: nat, radix: nat, p1: nat, pos: nat, dotPos1: int,
                 ghost zeros: string, ghost sig: string, ghost fraction: nat)
    returns (p: nat, dotPos: int, stop: bool)
    requires radix <= RADIX_MAX && Scanning(s, p0, start, radix, zeros, sig, fraction, dotPos1, pos, p1)
    ensures p1 <= p && Scanning(s, p0, start, radix, zeros, sig, fraction, dotPos, pos, p)
    ensures p > p1 ==> dotPos1 < 0 && IsDot(s, p1, start, radix)
    ensures stop ==> dotPos >= 0 && IsDot(s, p, start, radix)
    ensures !stop ==> !(IsDot(s, p, start, radix) && dotPos < 0)
  {
    p, dotPos, stop := p1, dotPos1, false;
    if IsDot(s, p, start, radix) {
      if dotPos >= 0 {
        stop := true;
      } else {
        ScanningDot(s, p0, start, radix, zeros, sig, fraction, dotPos, pos, p);
        dotPos := pos;
        p := p + 1;
      }
    }
  }

  method ReadDigits(r: Mpb, s: string, p0: nat, start: nat, radix: nat, p1: nat, pos1: nat, dotPos1: int,
                    ghost zeros: string,
                    ghost fraction1: nat)
    returns (p: nat, pos: nat, dotPos: int, count: nat, extra: bool, ghost sig: string, ghost fraction: nat)
    requires 2 <= radix <= RADIX_MAX && start <= p0 && r.Valid() && r.tab.Length == LEN_MAX && r.len == 1
    requires r.Value() == 0
    requires Seen(s, p0, start, radix, zeros, fraction1, dotPos1 >= 0, p1) && pos1 == |zeros|
    requires DotAt(dotPos1, dotPos1 >= 0, pos1, fraction1) && At(s, p1) != '0'
    requires (IsDot(s, p1, start, radix) ==> dotPos1 >= 0)
    modifies r`len, r.tab
    ensures r.Valid() && r.Normal() && r.len <= 4 && AllDigits(sig, radix) && count == Min(|sig|, AtodMaxDigits(radix))
    ensures r.Value() == NumberOf(sig[..count], radix) && (extra <==> NumberOf(sig[count..], radix) != 0)
    ensures Scan(s, p0, start, radix, false) == Scanned(zeros + sig, fraction, p) && pos == |zeros| + |sig|
    ensures DotAt(dotPos, dotPos >= 0, pos, fraction) && (sig != "" ==> sig[0] != '0')
  {
    p, pos, dotPos, count, extra, sig, fraction := p1, pos1, dotPos1, 0, false, "", fraction1;
    var cur: nat, k: nat := 0, 0;
    TakingStart(radix);
    assert zeros + "" == zeros;
    while true
      invariant p >= p0 && r.Valid() && r.Normal() && r.len <= 4 && Taking(r.Value(), cur, k, count, extra, sig, radix)
      invariant Scanning(s, p0, start, radix, zeros, sig, fraction, dotPos, pos, p)
      invariant sig == "" ==> At(s, p) != '0' && (IsDot(s, p, start, radix) ==> dotPos >= 0)
      decreases |s| + p0 + 1 - p
    {
      var stop;
      p, dotPos, stop := SkipDot(s, p0, start, radix, p, pos, dotPos, zeros, sig, fraction);
      if stop {
        break;
      }
      var c := At(s, p);
      if !IsDigit(c, radix) {
        break;
      }
      ScanningDigit(s, p0, start, radix, zeros, sig, fraction, dotPos, pos, p);
      fraction := fraction + if dotPos >= 0 then 1 else 0;
      p := p + 1;
      pos := pos + 1;
      cur, k, count, extra := TakeDigit(r, radix, c, cur, k, count, extra, sig);
      sig := sig + [c];
    }
    SeenEnd(s, p0, start, radix, zeros + sig, fraction, dotPos >= 0, p);
    TakeRest(r, radix, cur, k, count, extra, sig);
  }

  // ---- From the digits to the double ----

  lemma BinaryLiteral(n: nat, fraction: nat, expn: int, binary: bool, radix: nat, k: nat)
    requires PowerOfTwo(radix) && k == RadixBits(radix)
    ensures Literal(n, fraction, expn, binary, radix)
         == Scale(n as real, (if binary then expn else expn * k) - fraction * k)
  {
    if binary {
      RadixIsTwo(radix, k, 0 - fraction);
      BinaryScaled(n as real, RP(radix, 0 - fraction), (0 - fraction) * k, expn);
      assert (0 - fraction) * k + expn == expn - fraction * k;
    } else {
      RadixIsTwo(radix, k, expn - fraction);
      ProductIsScale(n as real, RP(radix, expn - fraction), (expn - fraction) * k);
      assert (expn - fraction) * k == expn * k - fraction * k;
    }
  }

  lemma ProductIsScale(x: real, t: real, j: int)
    requires t == Two(j)
    ensures Product(x, t) == Scale(x, j)
  {
  }

  lemma BinaryScaled(x: real, t: real, j: int, k: int)
    requires t == Two(j)
    ensures Scale(Product(x, t), k) == Scale(x, j + k)
  {
    ProductIsScale(x, t, j);
    ScaleAdd(x, j, k);
  }

  // What is left when digits in front are zeros.
  lemma KeptOf(zeros: string, sig: string, radix: nat, count: nat)
    requires 2 <= radix <= RADIX_MAX && Zeros(zeros) && (sig != "" ==> sig[0] != '0')
    requires count == Min(|sig|, AtodMaxDigits(radix))
    ensures KeptNumber(zeros + sig, radix)
         == if PowerOfTwo(radix) then NumberOf(sig, radix)
            else NumberOf(sig[..count], radix) * Pow(radix, |sig| - count)
  {
    SignificantOf(zeros, sig);
    SignificantNumber(zeros + sig, radix);
    if |sig| <= AtodMaxDigits(radix) {
      assert sig[..count] == sig;
      assert Pow(radix, 0) == 1;
    }
  }

  lemma OtherLiteral(n: nat, m: nat, fraction: nat, expn: int, radix: nat)
    requires radix > 0
    ensures Literal(n * Pow(radix, m), fraction, expn, false, radix)
         == Product(n as real, RP(radix, expn - (fraction - m)))
  {
    var x := PowersProduct(radix, m, expn - fraction);
    assert m + (expn - fraction) == expn - (fraction - m);
    MovedDigits(n, Pow(radix, m), RP(radix, expn - fraction), x);
  }

  lemma MovedDigits(n: nat, p: nat, t: real, x: real)
    requires x == Product(p as real, t)
    ensures Product((n * p) as real, t) == Product(n as real, x)
  {
    ProductReal(n, p);
    Moved(n as real, p as real, t, x);
  }

  lemma Moved(n: real, p: real, t: real, x: real)
    requires x == Product(p, t)
    ensures Product(n * p, t) == Product(n, x)
  {
  }

  lemma ZeroLiteral(fraction: nat, expn: int, binary: bool, radix: nat)
    requires radix > 0
    ensures IsNearest(Literal(0, fraction, expn, binary, radix), 0)
  {
    TwoPos(-1075);
    TinyIsZero(0.0);
  }

  lemma LetterIsNoZero(c: char, radix: nat)
    requires IsDigit(c, radix) && radix <= RADIX_MAX && c != '0'
    ensures ToDigit(c) > 0
  {
  }

  // Bits, or digits where the radix is no power of two, in front of the point: the size of a literal.
  function TopExponent(len: nat, fraction: nat, expn: int, binary: bool, radix: nat): int {
    if PowerOfTwo(radix) then (if binary then expn else expn * RadixBits(radix)) + (len - fraction) * RadixBits(radix)
    else expn + len - fraction
  }

  // The literal with its size changed by d.
  function Turned(x: real, radix: nat, d: int): real
    requires radix > 0
  {
    if PowerOfTwo(radix) then Scale(x, d) else Product(x, RP(radix, d))
  }

  // What the code computes: a literal whose size has been cut to 32 bits.
  function Wrapped(x: real, radix: nat, size: int): real
    requires radix > 0
  {
    Turned(x, radix, Int32(size) - size)
  }

  lemma NotWrapped(x: real, radix: nat, size: int)
    requires radix > 0 && Int32(size) == size
    ensures Wrapped(x, radix, size) == x
  {
    if PowerOfTwo(radix) {
      ExactScale(x);
    } else {
      assert RP(radix, 0) == 1.0;
    }
  }

  // The exponents of the binary case, step by step.
  lemma BinarySteps(expn: int, off: int, count: nat, k: nat)
    ensures Int32(Int32(Int32(expn) - Int32(off * k)) + count * k) == Int32(expn - off * k + count * k)
    ensures Int32(Int32(expn) - Int32(off * k)) == Int32(expn - off * k)
  {
    Int32Sub(expn, off * k);
    Int32Add(expn - off * k, count * k);
  }

  lemma WithinSteps(a: int, c: nat)
    requires -2000 < Int32(a + c) < 2000 && c < 1000
    ensures Int32(a) == Int32(a + c) - c
  {
    Int32Add(a + c, 0 - c);
    Int32Same(Int32(a + c) - c);
  }

  // The double for the digits that have been read, where off is the number of digits taken behind the dot.
  method ToDouble(r: Mpb, radix: nat, count: nat, extra: bool, off: int, expn: int, binary: bool, ghost zeros: string,
                  ghost sig: string,
                  ghost fraction: nat) returns (a: nat)
    requires 2 <= radix <= RADIX_MAX && r.Valid() && r.Normal() && r.len <= 4 && r.tab.Length == LEN_MAX
    requires Zeros(zeros) && AllDigits(sig, radix) && (sig != "" ==> sig[0] != '0')
    requires count == Min(|sig|, AtodMaxDigits(radix))
    requires r.Value() == NumberOf(sig[..count], radix) && (extra <==> NumberOf(sig[count..], radix) != 0)
    requires off == count - |sig| + fraction && (binary ==> PowerOfTwo(radix)) && Int32(expn) == expn && count > 0
    modifies r`len, r.tab
    ensures var x := Literal(KeptNumber(zeros + sig, radix), fraction, expn, binary, radix);
      IsNearest(Wrapped(x, radix, TopExponent(|sig|, fraction, expn, binary, radix)), a)
  {
    KeptOf(zeros, sig, radix, count);
    LetterIsNoZero(sig[0], radix);
    if PowerOfTwo(radix) {
      a := ToDoubleBinary(r, radix, count, extra, off, expn, binary, sig, fraction);
    } else {
      a := ToDoubleOther(r, radix, count, off, expn, sig, fraction);
    }
  }

  method ToDoubleBinary(r: Mpb, radix: nat, count: nat, extra: bool, off: int, expn: int, binary: bool,
                        ghost sig: string,
                        ghost fraction: nat) returns (a: nat)
    requires PowerOfTwo(radix) && r.Valid() && r.Normal() && r.len <= 4 && r.tab.Length == LEN_MAX
    requires AllDigits(sig, radix) && sig != "" && ToDigit(sig[0]) != 0 && count == Min(|sig|, AtodMaxDigits(radix))
    requires count > 0
    requires r.Value() == NumberOf(sig[..count], radix) && (extra <==> NumberOf(sig[count..], radix) != 0)
    requires off == count - |sig| + fraction && Int32(expn) == expn
    modifies r`len, r.tab
    ensures IsNearest(Wrapped(Literal(NumberOf(sig, radix), fraction, expn, binary, radix), radix,
                              TopExponent(|sig|, fraction, expn, binary, radix)), a)
  {
    var k := RadixBits(radix);
    var e := if binary then expn else Int32(expn * k);
    e := Int32(e - Int32(off * k));
    var expn1 := Int32(e + count * k);
    ghost var e' := if binary then expn else expn * k;
    BinarySteps(e', off, count, k);
    FewBits(radix, count);
    if -1075 < expn1 < 1024 + k {
      WithinSteps(e' - off * k, count * k);
    }
    ghost var x := BinaryTurned(sig, radix, k, count, off, fraction, expn, binary, expn1);
    a := RoundBinary(r, radix, k, count, extra, e, expn1, sig, x);
  }

  method ToDoubleOther(r: Mpb, radix: nat, count: nat, off: int, expn: int, ghost sig: string,
                       ghost fraction: nat) returns (a: nat)
    requires 2 <= radix <= RADIX_MAX && !PowerOfTwo(radix) && r.Valid() && r.Normal() && r.len <= 4
    requires r.tab.Length == LEN_MAX
    requires AllDigits(sig, radix) && sig != "" && ToDigit(sig[0]) != 0 && count == Min(|sig|, AtodMaxDigits(radix))
    requires count > 0
    requires r.Value() == NumberOf(sig[..count], radix) && off == count - |sig| + fraction
    modifies r`len, r.tab
    ensures IsNearest(Wrapped(Literal(NumberOf(sig[..count], radix) * Pow(radix, |sig| - count), fraction, expn, false,
                                      radix), radix,
                              TopExponent(|sig|, fraction, expn, false, radix)), a)
  {
    var f := Int32(expn - off);
    var expn1 := Int32(f + count);
    Int32Add(expn - off, count);
    OtherLimits(radix);
    if MinExponent(radix) < expn1 <= MaxExponent(radix) {
      WithinSteps(expn - off, count);
    }
    OtherTurned(NumberOf(sig[..count], radix), |sig|, count, off, fraction, expn, radix, expn1);
    assert sig[..count][0] == sig[0];
    LeadingDigit(sig[..count], radix);
    var r1, s := SplitRadix(radix);
    a := RoundOther(r, radix, r1, s, count, f, expn1);
  }

  lemma FewBits(radix: nat, count: nat)
    requires PowerOfTwo(radix) && count <= AtodMaxDigits(radix)
    ensures count * RadixBits(radix) <= 64
  {
    MulLe(count, AtodMaxDigits(radix), RadixBits(radix), RadixBits(radix));
  }

  lemma OtherLimits(radix: nat)
    requires 2 <= radix <= RADIX_MAX
    ensures -2000 < MinExponent(radix) && MaxExponent(radix) < 2000 && AtodMaxDigits(radix) < 1000
  {
  }

  lemma BinaryTurned(sig: string, radix: nat, k: nat, count: nat, off: int, fraction: nat, expn: int, binary: bool,
                     expn1: int)
    returns (x: real)
    requires PowerOfTwo(radix) && k == RadixBits(radix) && off == count - |sig| + fraction
    requires expn1 == Int32((if binary then expn else expn * k) - off * k + count * k)
    ensures x == Scale(NumberOf(sig, radix) as real, expn1 - |sig| * k)
    ensures x == Wrapped(Literal(NumberOf(sig, radix), fraction, expn, binary, radix), radix,
                         TopExponent(|sig|, fraction, expn, binary, radix))
  {
    var n, e := NumberOf(sig, radix), if binary then expn else expn * k;
    BinaryLiteral(n, fraction, expn, binary, radix, k);
    SizeSteps(e, |sig|, fraction, count, off, k);
    x := Scale(n as real, expn1 - |sig| * k);
    ScaleAdd(n as real, e - fraction * k, expn1 - (e + (|sig| - fraction) * k));
  }

  lemma SizeSteps(e: int, l: nat, fraction: nat, count: nat, off: int, k: nat)
    requires off == count - l + fraction
    ensures e - off * k + count * k == e + (l - fraction) * k
    ensures (l - fraction) * k == l * k - fraction * k
  {
  }

  lemma OtherTurned(n: nat, l: nat, count: nat, off: int, fraction: nat, expn: int, radix: nat, expn1: int)
    requires 2 <= radix <= RADIX_MAX && !PowerOfTwo(radix) && count <= l && off == count - l + fraction
    requires expn1 == Int32(expn - off + count)
    ensures Product(n as real, RP(radix, expn1 - count))
         == Wrapped(Literal(n * Pow(radix, l - count), fraction, expn, false, radix), radix,
                    TopExponent(l, fraction, expn, false, radix))
  {
    OtherLiteral(n, l - count, fraction, expn, radix);
    var size := expn + l - fraction;
    assert expn - off + count == size && expn - (fraction - (l - count)) == expn - off;
    var y := PowersProduct(radix, expn - off, expn1 - size);
    assert expn - off + (expn1 - size) == expn1 - count;
    TurnedProduct(n as real, RP(radix, expn - off), RP(radix, expn1 - size), y);
  }

  lemma TurnedProduct(n: real, t: real, u: real, y: real)
    requires y == Product(t, u)
    ensures Product(Product(n, t), u) == Product(n, y)
  {
  }

  // The radix without its factors of two.
  method SplitRadix(radix: nat) returns (r1: nat, s: nat)
    requires 2 <= radix <= RADIX_MAX
    ensures Split(radix, r1, s) && (!PowerOfTwo(radix) ==> r1 > 1)
  {
    r1, s := radix, 0;
    assert Pow(2, 0) == 1;
    while r1 % 2 == 0
      invariant 0 < r1 <= radix && radix == r1 * Pow(2, s)
      decreases r1
    {
      assert Pow(2, s + 1) == 2 * Pow(2, s);
      Assoc3(r1 / 2, 2, Pow(2, s));
      r1, s := r1 / 2, s + 1;
    }
    if r1 == 1 {
      TwoPowers(radix, s);
    }
  }

  lemma TwoPowers(radix: nat, s: nat)
    requires 2 <= radix <= RADIX_MAX && radix == Pow(2, s)
    ensures PowerOfTwo(radix)
  {
    assert Pow(2, 0) == 1 && Pow(2, 1) == 2 && Pow(2, 2) == 4 && Pow(2, 3) == 8;
    assert Pow(2, 4) == 16 && Pow(2, 5) == 32 && Pow(2, 6) == 64;
    if s > 5 {
      PowMono(2, 6, s);
    }
  }

  // ---- Exponents that are too long ----

  // From here on the code gives up on the exponent; smaller ones fit in 32 bits.
  const EXPONENT_LIMIT: int := 2147483640

  lemma {:induction false} SignificantDigits(digits: string, radix: nat)
    requires radix <= RADIX_MAX && AllDigits(digits, radix)
    ensures var t := Significant(digits); AllDigits(t, radix) && (t != "" ==> t[0] != '0' && ToDigit(t[0]) != 0)
  {
    if digits != "" {
      if digits[0] == '0' {
        assert AllDigits(digits[1..], radix);
        SignificantDigits(digits[1..], radix);
      } else {
        LetterIsNoZero(digits[0], radix);
      }
    }
  }

  // ---- Reading an exponent ----

  // The digits of an exponent so far: their number, or that it is over the limit.
  predicate ExponentSeen(seen: string, expn: nat, overflow: bool) {
    var n := NumberOf(seen, 10);
    seen != "" && if overflow then n >= EXPONENT_LIMIT else n == expn && expn < EXPONENT_LIMIT
  }

  lemma ExponentDigit(seen: string, expn: nat, overflow: bool, c: char)
    requires ExponentSeen(seen, expn, overflow) && IsDigit(c, 10)
    ensures if overflow || expn > 214748363 then ExponentSeen(seen + [c], expn, true)
            else ExponentSeen(seen + [c], expn * 10 + ToDigit(c), false)
  {
    assert (seen + [c])[..|seen|] == seen;
  }

  // p is behind the marker. The exponent, or that it has no digits, or too many.
  method ReadExponent(s: string, p0: nat) returns (ok: bool, negative: bool, expn: int, overflow: bool)
    ensures var x := ScanExponent(s, p0);
      && (ok <==> x.digits != "") && (ok ==> negative == x.negative)
      && (ok ==> if overflow then NumberOf(x.digits, 10) >= EXPONENT_LIMIT
                 else expn == ExponentValue(x) && -EXPONENT_LIMIT < expn < EXPONENT_LIMIT)
  {
    var p := p0;
    negative, expn, overflow := false, 0, false;
    if At(s, p) == '+' {
      p := p + 1;
    } else if At(s, p) == '-' {
      negative := true;
      p := p + 1;
    }
    var c := At(s, p);
    ok := IsDigit(c, 10);
    if !ok {
      return;
    }
    ghost var start, seen := p, [c];
    NumberOne(c, 10);
    var n: nat := ToDigit(c);
    p := p + 1;
    while IsDigit(At(s, p), 10)
      invariant Decimals(s, start) == seen + Decimals(s, p) && ExponentSeen(seen, n, overflow)
      decreases |s| - p
    {
      c := At(s, p);
      ExponentDigit(seen, n, overflow, c);
      assert seen + Decimals(s, p) == (seen + [c]) + Decimals(s, p + 1);
      seen := seen + [c];
      if !overflow {
        if n > 214748363 {
          overflow := true;
        } else {
          n := n * 10 + ToDigit(c);
        }
      }
      p := p + 1;
    }
    assert seen + "" == seen;
    expn := if negative then 0 - n else n;
  }

  // ---- The whole ----

  datatype Result = NotANumber | Bits(a: nat)

  function Size(x: Numeral, radix: nat): int
    requires x.Numeral?
  {
    TopExponent(|Significant(x.digits)|, x.fraction, x.expn, x.binary, radix)
  }

  // An exponent over the limit, which is not looked at any further.
  predicate Beyond(x: Numeral)
    requires x.Numeral?
  {
    Significant(x.digits) != "" && !(-EXPONENT_LIMIT < x.expn < EXPONENT_LIMIT)
  }

  // A size beyond 32 bits goes unnoticed when the exponent alone is not over the limit.
  predicate Wraps(x: Numeral, radix: nat)
    requires x.Numeral?
  {
    Significant(x.digits) != "" && -EXPONENT_LIMIT < x.expn < EXPONENT_LIMIT && Int32(Size(x, radix)) != Size(x, radix)
  }

  function Value(x: Numeral, radix: nat): real
    requires x.Numeral? && 2 <= radix <= RADIX_MAX
  {
    Literal(KeptNumber(x.digits, radix), x.fraction, x.expn, x.binary, radix)
  }

  // Neither of them.
  predicate InRange(x: Numeral, radix: nat)
    requires x.Numeral?
  {
    !Beyond(x) && !Wraps(x, radix)
  }

  // The double for a numeral, and none for a text that is not one.
  ghost predicate IsResult(x: Numeral, radix: nat, r: Result)
    requires 2 <= radix <= RADIX_MAX
  {
    if x.NoNumeral? then r == NotANumber
    else if Beyond(x) then r == Bits(if x.expn > 0 then INFINITY else 0)
    else
      var v := Value(x, radix);
      r.Bits? && IsNearest(if Wraps(x, radix) then Wrapped(v, radix, Size(x, radix)) else v, r.a)
  }

  // What follows the digits, which end at q: an exponent, too large a one, or none.
  method ReadPower(s: string, q: nat, start: nat, radix: nat, ghost r: Scanned)
    returns (ok: bool, expn: int, binary: bool, overflow: bool, negative: bool)
    requires r.end == q
    ensures var x := WithExponent(s, r, start, radix);
      && (ok <==> x.Numeral?)
      && (ok ==> x.binary == binary && (binary ==> PowerOfTwo(radix)))
      && (ok && overflow ==> if negative then x.expn <= -EXPONENT_LIMIT else x.expn >= EXPONENT_LIMIT)
      && (ok && !overflow ==> x.expn == expn && -EXPONENT_LIMIT < expn < EXPONENT_LIMIT)
  {
    expn, binary, overflow, negative := 0, false, false, false;
    var c := At(s, q);
    if q > start
       && ((radix == 10 && (c == 'e' || c == 'E'))
           || (radix != 10
               && (c == '@' || (PowerOfTwo(radix) && 1 <= RadixBits(radix) <= 4 && (c == 'p' || c == 'P'))))) {
      binary := IsBinary(At(s, q));
      ok, negative, expn, overflow := ReadExponent(s, q + 1);
    } else {
      ok := q != start;
    }
  }

  // The number at p, where start is the end of the sign.
  method ReadNumber(s: string, p: nat, start: nat, radix: nat) returns (r: Result)
    requires 2 <= radix <= RADIX_MAX && start <= p <= |s| <= INT32_MAX
    ensures IsResult(Parse(s, p, start, radix), radix, r)
  {
    var b := new Mpb(LEN_MAX);
    var q, sigPos, pos, dotPos, count, extra;
    ghost var zeros, sig, fraction;
    q, sigPos, dotPos, zeros, fraction := SkipZeros(s, p, start, radix);
    q, pos, dotPos, count, extra, sig, fraction :=
      ReadDigits(b, s, p, start, radix, q, sigPos, dotPos, zeros, fraction);
    var off := sigPos + count - (if dotPos < 0 then pos else dotPos);
    var ok, expn, binary, overflow, negative := ReadPower(s, q, start, radix, Scanned(zeros + sig, fraction, q));
    if !ok {
      return NotANumber;
    }
    ghost var x := Parse(s, p, start, radix);
    SignificantOf(zeros, sig);
    if count == 0 {
      r := ZeroResult(x, radix, sig);
    } else if overflow {
      r := Bits(if negative then 0 else INFINITY);
    } else {
      Int32Same(expn);
      var a := ToDouble(b, radix, count, extra, off, expn, binary, zeros, sig, fraction);
      SameSize(x, radix);
      r := Bits(a);
    }
  }

  lemma SameSize(x: Numeral, radix: nat)
    requires x.Numeral? && 2 <= radix <= RADIX_MAX
    ensures var v := Value(x, radix);
      Int32(Size(x, radix)) == Size(x, radix) ==> Wrapped(v, radix, Size(x, radix)) == v
  {
    if Int32(Size(x, radix)) == Size(x, radix) {
      NotWrapped(Value(x, radix), radix, Size(x, radix));
    }
  }

  method ZeroResult(ghost x: Numeral, radix: nat, ghost sig: string) returns (r: Result)
    requires 2 <= radix <= RADIX_MAX && x.Numeral? && sig == "" && Significant(x.digits) == sig
    ensures IsResult(x, radix, r)
  {
    SignificantNumber(x.digits, radix);
    ZeroLiteral(x.fraction, x.expn, x.binary, radix);
    r := Bits(0);
  }
}
