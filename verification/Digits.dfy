// Digits of a number in a buffer, and the number from its digits.
module Digits {
  import opened Arith
  import opened Powers
  import opened Limbs
  import opened Rounding
  import opened Bignum
  import opened RadixPower

  // ---- Characters ----

  function DigitChar(d: nat): char
    requires d < RADIX_MAX
  {
    if d < 10 then '0' + d as char else 'a' + (d - 10) as char
  }

  // The value of a digit; 36 is no digit in any radix.
  function ToDigit(c: char): nat {
    if '0' <= c <= '9' then (c - '0') as nat
    else if 'A' <= c <= 'Z' then (c - 'A') as nat + 10
    else if 'a' <= c <= 'z' then (c - 'a') as nat + 10
    else 36
  }

  predicate IsDigit(c: char, radix: nat) {
    ToDigit(c) < radix
  }

  predicate AllDigits(s: string, radix: nat) {
    forall i :: 0 <= i < |s| ==> IsDigit(s[i], radix)
  }

  // Digits as they are printed, without capital letters.
  predicate IsPlain(c: char) {
    '0' <= c <= '9' || 'a' <= c <= 'z'
  }

  predicate Printed(s: string, radix: nat) {
    forall i :: 0 <= i < |s| ==> IsDigit(s[i], radix) && IsPlain(s[i])
  }

  lemma CharIsDigit(d: nat)
    requires d < RADIX_MAX
    ensures ToDigit(DigitChar(d)) == d && IsPlain(DigitChar(d))
  {
  }

  // ---- The number that a string of digits stands for, the highest digit first ----

  function NumberOf(s: string, radix: nat): nat {
    if s == [] then 0 else NumberOf(s[..|s| - 1], radix) * radix + ToDigit(s[|s| - 1])
  }

  lemma {:induction false} NumberConcat(s: string, t: string, radix: nat)
    ensures NumberOf(s + t, radix) == NumberOf(s, radix) * Pow(radix, |t|) + NumberOf(t, radix)
    decreases |t|
  {
    if t == [] {
      assert s + t == s;
    } else {
      var u := t[..|t| - 1];
      assert (s + t)[..|s + t| - 1] == s + u;
      NumberConcat(s, u, radix);
      OneMore(NumberOf(s, radix), Pow(radix, |u|), NumberOf(u, radix), radix, ToDigit(t[|t| - 1]));
    }
  }

  lemma OneMore(x: nat, p: nat, y: nat, r: nat, d: nat)
    ensures (x * p + y) * r + d == x * (r * p) + (y * r + d)
  {
    Assoc3(x, p, r);
    Commute(p, r);
  }

  lemma NumberFront(d: char, s: string, radix: nat)
    ensures NumberOf([d] + s, radix) == ToDigit(d) * Pow(radix, |s|) + NumberOf(s, radix)
  {
    NumberConcat([d], s, radix);
    NumberOne(d, radix);
  }

  lemma NumberOne(d: char, radix: nat)
    ensures NumberOf([d], radix) == ToDigit(d)
  {
    assert [d][..0] == [];
  }

  lemma {:induction false} NumberBound(s: string, radix: nat)
    requires AllDigits(s, radix)
    ensures NumberOf(s, radix) < Pow(radix, |s|)
  {
    if s != [] {
      var u := s[..|s| - 1];
      NumberBound(u, radix);
      BoundMore(NumberOf(u, radix), Pow(radix, |u|), radix, ToDigit(s[|s| - 1]));
    }
  }

  lemma BoundMore(x: nat, p: nat, r: nat, d: nat)
    requires x < p && d < r
    ensures x * r + d < r * p
  {
    MulLe(x + 1, p, r, r);
    Commute(p, r);
  }

  function ZeroDigits(n: nat): string {
    seq(n, _ => '0')
  }

  lemma {:induction false} NumberZeros(n: nat, radix: nat)
    ensures NumberOf(ZeroDigits(n), radix) == 0
  {
    if n > 0 {
      assert ZeroDigits(n)[..n - 1] == ZeroDigits(n - 1);
      NumberZeros(n - 1, radix);
    }
  }

  // ---- Writing the digits of a word ----

  function LowDigits(n: nat, radix: nat, len: nat): nat
    requires radix > 0
  {
    PowPos(radix, len);
    n % Pow(radix, len)
  }

  // The len lowest digits of n at buf[off..off + len].
  method PutDigits(buf: array<char>, off: nat, n0: nat, radix: nat, len: nat)
    requires 2 <= radix <= RADIX_MAX && off + len <= buf.Length
    modifies buf
    ensures Filled(old(buf[..]), buf[..], off, len, LowDigits(n0, radix, len), radix)
  {
    ghost var was := buf[..];
    var n: nat, i: nat := n0, len;
    PutStart(was, off, len, n0, radix);
    while i > 0
      invariant 0 <= i <= len && Put(was, buf[..], off, i, len, n0, n, radix)
    {
      i := i - 1;
      var d, q := NextDigit(n, radix);
      PutStep(was, buf[..], off, i, len, n0, n, radix, d, q);
      buf[off + i] := d;
      n := q;
    }
    AllPut(was, buf[..], off, len, n0, n, radix);
  }

  // The digits of n are at off, and nothing else has changed.
  predicate Filled(was: string, now: string, off: nat, len: nat, n: nat, radix: nat)
    requires off + len <= |was|
  {
    && |now| == |was| && now[..off] == was[..off] && now[off + len..] == was[off + len..]
    && IsNumeral(now[off..off + len], n, radix)
  }

  // The lowest digit and the rest. For a power of two the remainder is a mask and the quotient a shift.
  method NextDigit(n: nat, radix: nat) returns (d: char, q: nat)
    requires 2 <= radix <= RADIX_MAX
    ensures IsDigit(d, radix) && IsPlain(d) && n == q * radix + ToDigit(d)
  {
    CharIsDigit(n % radix);
    d, q := DigitChar(n % radix), n / radix;
  }

  // From position i on the digits are there, and outside nothing has changed.
  predicate Put(was: string, now: string, off: nat, i: nat, len: nat, n0: nat, n: nat, radix: nat)
    requires off + len <= |was| && i <= len
  {
    && |now| == |was| && now[..off] == was[..off] && now[off + len..] == was[off + len..]
    && Written(now[off + i..off + len], n0, n, radix)
  }

  lemma PutStart(was: string, off: nat, len: nat, n0: nat, radix: nat)
    requires off + len <= |was|
    ensures Put(was, was, off, len, len, n0, n0, radix)
  {
    assert was[off + len..off + len] == [];
    assert n0 == n0 * Pow(radix, 0);
  }

  lemma PutStep(was: string, now: string, off: nat, i: nat, len: nat, n0: nat, n: nat, radix: nat, d: char, q: nat)
    requires off + len <= |was| && i < len && Put(was, now, off, i + 1, len, n0, n, radix)
    requires IsDigit(d, radix) && IsPlain(d) && n == q * radix + ToDigit(d)
    ensures Put(was, now[off + i := d], off, i, len, n0, q, radix)
  {
    var next := now[off + i := d];
    WrittenStep(now[off + i + 1..off + len], n0, n, radix, d, q);
    assert next[off + i..off + len] == [d] + now[off + i + 1..off + len];
    assert next[..off] == now[..off] && next[off + len..] == now[off + len..];
  }

  lemma AllPut(was: string, now: string, off: nat, total: nat, v0: nat, v: nat, radix: nat)
    requires off + total <= |was| && radix > 0 && Put(was, now, off, 0, total, v0, v, radix)
    ensures Filled(was, now, off, total, LowDigits(v0, radix, total), radix)
  {
    WrittenAll(now[off..off + total], v0, v, radix);
  }

  predicate IsNumeral(s: string, n: nat, radix: nat) {
    Printed(s, radix) && NumberOf(s, radix) == n
  }

  // s has the low digits of n0, and n the ones above.
  predicate Written(s: string, n0: nat, n: nat, radix: nat) {
    Printed(s, radix) && n0 == n * Pow(radix, |s|) + NumberOf(s, radix)
  }

  lemma WrittenStep(s: string, n0: nat, n: nat, radix: nat, d: char, q: nat)
    requires Written(s, n0, n, radix) && IsDigit(d, radix) && IsPlain(d) && n == q * radix + ToDigit(d)
    ensures Written([d] + s, n0, q, radix)
  {
    NumberFront(d, s, radix);
    MoveDigit(q, radix, ToDigit(d), Pow(radix, |s|), NumberOf(s, radix));
    assert |[d] + s| == |s| + 1;
  }

  lemma MoveDigit(q: nat, r: nat, m: nat, p: nat, x: nat)
    ensures (q * r + m) * p + x == q * (r * p) + (m * p + x)
  {
    Assoc3(q, r, p);
  }

  lemma WrittenAll(s: string, n0: nat, n: nat, radix: nat)
    requires radix > 0 && Written(s, n0, n, radix)
    ensures IsNumeral(s, LowDigits(n0, radix, |s|), radix)
  {
    PowPos(radix, |s|);
    NumberBound(s, radix);
    DivModIs(n0, Pow(radix, |s|), n, NumberOf(s, radix));
  }

  // ---- A full limb of digits ----

  function RadixBase(radix: nat): Limb
    requires 2 <= radix <= RADIX_MAX
  {
    if radix == 2 then 0
    else if radix == 3 then 0xcfd41b91
    else if radix == 4 then 0
    else if radix == 5 then 0x48c27395
    else if radix == 6 then 0x81bf1000
    else if radix == 7 then 0x75db9c97
    else if radix == 8 then 0x40000000
    else if radix == 9 then 0xcfd41b91
    else if radix == 10 then 0x3b9aca00
    else if radix == 11 then 0x8c8b6d2b
    else if radix == 12 then 0x19a10000
    else if radix == 13 then 0x309f1021
    else if radix == 14 then 0x57f6c100
    else if radix == 15 then 0x98c29b81
    else if radix == 16 then 0
    else if radix == 17 then 0x18754571
    else if radix == 18 then 0x247dbc80
    else if radix == 19 then 0x3547667b
    else if radix == 20 then 0x4c4b4000
    else if radix == 21 then 0x6b5a6e1d
    else if radix == 22 then 0x94ace180
    else if radix == 23 then 0xcaf18367
    else if radix == 24 then 0x0b640000
    else if radix == 25 then 0x0e8d4a51
    else if radix == 26 then 0x1269ae40
    else if radix == 27 then 0x17179149
    else if radix == 28 then 0x1cb91000
    else if radix == 29 then 0x23744899
    else if radix == 30 then 0x2b73a840
    else if radix == 31 then 0x34e63b41
    else if radix == 32 then 0x40000000
    else if radix == 33 then 0x4cfa3cc1
    else if radix == 34 then 0x5c13d840
    else if radix == 35 then 0x6d91b519
    else 0x81bf1000
  }

  // The power of the radix in the table, where 0 stands for 2^32.
  predicate BaseFits(radix: nat)
    requires 2 <= radix <= RADIX_MAX
  {
    Pow(radix, DigitsPerLimb(radix)) == if RadixBase(radix) == 0 then B else RadixBase(radix)
  }

  lemma RadixBaseIs(radix: nat)
    requires 2 <= radix <= RADIX_MAX
    ensures BaseFits(radix)
  {
    if radix < 18 {
      if radix < 6 {
        RadixBase2(radix);
      } else if radix < 10 {
        RadixBase6(radix);
      } else if radix < 14 {
        RadixBase10(radix);
      } else {
        RadixBase14(radix);
      }
    } else if radix < 26 {
      if radix < 22 {
        RadixBase18(radix);
      } else {
        RadixBase22(radix);
      }
    } else if radix < 30 {
      RadixBase26(radix);
    } else if radix < 34 {
      RadixBase30(radix);
    } else {
      RadixBase34(radix);
    }
  }

  lemma RadixBase2(radix: nat)
    requires 2 <= radix <= 5
    ensures BaseFits(radix)
  {
    if radix == 2 {
      Pow2Is32();
    } else if radix == 3 {
      PowThree(DigitsPerLimb(radix));
    } else if radix == 4 {
      assert Pow(4, 8) == 65536;
      PowAdd(4, 8, 8);
    } else if radix == 5 {
      assert Pow(5, 6) == 15625 && Pow(5, 7) == 78125;
      PowAdd(5, 6, 7);
    }
  }

  lemma RadixBase6(radix: nat)
    requires 6 <= radix <= 9
    ensures BaseFits(radix)
  {
    if radix == 6 {
      assert Pow(6, 6) == 46656;
      PowAdd(6, 6, 6);
    } else if radix == 7 {
      assert Pow(7, 5) == 16807 && Pow(7, 6) == 117649;
      PowAdd(7, 5, 6);
    } else if radix == 8 {
      assert Pow(8, 5) == 32768;
      PowAdd(8, 5, 5);
    } else if radix == 9 {
      assert Pow(9, 5) == 59049;
      PowAdd(9, 5, 5);
    }
  }

  lemma RadixBase10(radix: nat)
    requires 10 <= radix <= 13
    ensures BaseFits(radix)
  {
    if radix == 10 {
      assert Pow(10, 4) == 10000 && Pow(10, 5) == 100000;
      PowAdd(10, 4, 5);
    } else if radix == 11 {
      assert Pow(11, 4) == 14641 && Pow(11, 5) == 161051;
      PowAdd(11, 4, 5);
    } else if radix == 12 {
      assert Pow(12, 4) == 20736;
      PowAdd(12, 4, 4);
    } else if radix == 13 {
      assert Pow(13, 4) == 28561;
      PowAdd(13, 4, 4);
    }
  }

  lemma RadixBase14(radix: nat)
    requires 14 <= radix <= 17
    ensures BaseFits(radix)
  {
    if radix == 14 {
      assert Pow(14, 4) == 38416;
      PowAdd(14, 4, 4);
    } else if radix == 15 {
      assert Pow(15, 4) == 50625;
      PowAdd(15, 4, 4);
    } else if radix == 16 {
      assert Pow(16, 4) == 65536;
      PowAdd(16, 4, 4);
    } else if radix == 17 {
      assert Pow(17, 3) == 4913 && Pow(17, 4) == 83521;
      PowAdd(17, 3, 4);
    }
  }

  lemma RadixBase18(radix: nat)
    requires 18 <= radix <= 21
    ensures BaseFits(radix)
  {
    if radix == 18 {
      assert Pow(18, 3) == 5832 && Pow(18, 4) == 104976;
      PowAdd(18, 3, 4);
    } else if radix == 19 {
      assert Pow(19, 3) == 6859 && Pow(19, 4) == 130321;
      PowAdd(19, 3, 4);
    } else if radix == 20 {
      assert Pow(20, 3) == 8000 && Pow(20, 4) == 160000;
      PowAdd(20, 3, 4);
    } else if radix == 21 {
      assert Pow(21, 3) == 9261 && Pow(21, 4) == 194481;
      PowAdd(21, 3, 4);
    }
  }

  lemma RadixBase22(radix: nat)
    requires 22 <= radix <= 25
    ensures BaseFits(radix)
  {
    if radix == 22 {
      assert Pow(22, 3) == 10648 && Pow(22, 4) == 234256;
      PowAdd(22, 3, 4);
    } else if radix == 23 {
      assert Pow(23, 3) == 12167 && Pow(23, 4) == 279841;
      PowAdd(23, 3, 4);
    } else if radix == 24 {
      assert Pow(24, 3) == 13824;
      PowAdd(24, 3, 3);
    } else if radix == 25 {
      assert Pow(25, 3) == 15625;
      PowAdd(25, 3, 3);
    }
  }

  lemma RadixBase26(radix: nat)
    requires 26 <= radix <= 29
    ensures BaseFits(radix)
  {
    if radix == 26 {
      assert Pow(26, 3) == 17576;
      PowAdd(26, 3, 3);
    } else if radix == 27 {
      assert Pow(27, 3) == 19683;
      PowAdd(27, 3, 3);
    } else if radix == 28 {
      assert Pow(28, 3) == 21952;
      PowAdd(28, 3, 3);
    } else if radix == 29 {
      assert Pow(29, 3) == 24389;
      PowAdd(29, 3, 3);
    }
  }

  lemma RadixBase30(radix: nat)
    requires 30 <= radix <= 33
    ensures BaseFits(radix)
  {
    if radix == 30 {
      assert Pow(30, 3) == 27000;
      PowAdd(30, 3, 3);
    } else if radix == 31 {
      assert Pow(31, 3) == 29791;
      PowAdd(31, 3, 3);
    } else if radix == 32 {
      assert Pow(32, 3) == 32768;
      PowAdd(32, 3, 3);
    } else if radix == 33 {
      assert Pow(33, 3) == 35937;
      PowAdd(33, 3, 3);
    }
  }

  lemma RadixBase34(radix: nat)
    requires 34 <= radix <= 36
    ensures BaseFits(radix)
  {
    if radix == 34 {
      assert Pow(34, 3) == 39304;
      PowAdd(34, 3, 3);
    } else if radix == 35 {
      assert Pow(35, 3) == 42875;
      PowAdd(35, 3, 3);
    } else if radix == 36 {
      assert Pow(36, 3) == 46656;
      PowAdd(36, 3, 3);
    }
  }


  // ---- Writing the digits of a number ----

  predicate PowerOfTwo(radix: nat) {
    radix == 2 || radix == 4 || radix == 8 || radix == 16 || radix == 32
  }

  function RadixBits(radix: nat): nat
    requires PowerOfTwo(radix)
  {
    if radix == 2 then 1 else if radix == 4 then 2 else if radix == 8 then 3 else if radix == 16 then 4 else 5
  }

  lemma RadixBitsIs(radix: nat)
    requires PowerOfTwo(radix)
    ensures Pow(2, RadixBits(radix)) == radix && 0 < DigitsPerLimb(radix) * RadixBits(radix) <= LIMB_BITS
  {
    assert Pow(2, 1) == 2 && Pow(2, 2) == 4 && Pow(2, 3) == 8 && Pow(2, 4) == 16 && Pow(2, 5) == 32;
  }

  // Only the low digits count for the low digits.
  lemma LowOf(v: nat, q: nat, r: nat, radix: nat, d: nat, n: nat)
    requires radix > 0 && v == q * Pow(radix, d) + r && n <= d
    ensures LowDigits(v, radix, n) == LowDigits(r, radix, n)
  {
    PowPos(radix, n);
    PowAdd(radix, n, d - n);
    LowBy(v, q, r, Pow(radix, n), Pow(radix, d - n));
  }

  lemma LowBy(v: nat, q: nat, r: nat, p: nat, c: nat)
    requires p > 0 && v == q * (p * c) + r
    ensures v % p == r % p
  {
    var x, m := Parts(r, p);
    assert q * (p * c) == (q * c) * p;
    DivModIs(v, p, q * c + x, m);
  }

  // Digits t in front of the digits s that are there.
  lemma WrittenMore(s: string, t: string, v0: nat, v: nat, radix: nat)
    requires radix > 0 && Written(s, v0, v, radix) && IsNumeral(t, LowDigits(v, radix, |t|), radix)
    ensures Pow(radix, |t|) > 0 && Written(t + s, v0, v / Pow(radix, |t|), radix)
  {
    PowPos(radix, |t|);
    var q, m := Parts(v, Pow(radix, |t|));
    NumberConcat(t, s, radix);
    PowAdd(radix, |t|, |s|);
    MoveDigits(q, Pow(radix, |t|), m, Pow(radix, |s|), NumberOf(s, radix));
    assert |t + s| == |t| + |s|;
  }

  lemma MoveDigits(q: nat, c: nat, m: nat, p: nat, x: nat)
    ensures (q * c + m) * p + x == q * (c * p) + (m * p + x)
  {
    Assoc3(q, c, p);
  }

  // a := a / radix^digits of a limb, and the remainder.
  method DivBase(a: Mpb, radix: nat) returns (r: Limb)
    requires 2 <= radix <= RADIX_MAX && RadixBase(radix) != 0 && a.Valid()
    modifies a`len, a.tab
    ensures a.Valid() && old(a.Value()) == a.Value() * Pow(radix, DigitsPerLimb(radix)) + r
    ensures r < Pow(radix, DigitsPerLimb(radix))
  {
    RadixBaseIs(radix);
    r := Div1(a.tab, a.len, RadixBase(radix), 0);
    a.Renorm();
  }

  // a / 2^(bits of the digits of a limb)
  method ShiftBase(a: Mpb, radix: nat)
    requires PowerOfTwo(radix) && a.Valid()
    modifies a`len, a.tab
    ensures a.Valid() && Pow(radix, DigitsPerLimb(radix)) > 0
    ensures a.Value() == old(a.Value()) / Pow(radix, DigitsPerLimb(radix))
  {
    var k := DigitsPerLimb(radix) * RadixBits(radix);
    RadixBitsIs(radix);
    PowPow(2, RadixBits(radix), DigitsPerLimb(radix));
    Commute(RadixBits(radix), DigitsPerLimb(radix));
    RightIs(a.Value(), k, TowardZero);
    a.ShrRound(k, TowardZero);
  }

  // The lowest limb has the digits of a limb.
  lemma LowLimbDigits(s: seq<Limb>, radix: nat, n: nat)
    requires PowerOfTwo(radix) && n <= DigitsPerLimb(radix) && |s| > 0
    ensures LowDigits(Val(s), radix, n) == LowDigits(s[0], radix, n)
  {
    RadixBitsIs(radix);
    var k := DigitsPerLimb(radix) * RadixBits(radix);
    PowPow(2, RadixBits(radix), DigitsPerLimb(radix));
    Commute(RadixBits(radix), DigitsPerLimb(radix));
    PowAdd(2, k, LIMB_BITS - k);
    Pow2Is32();
    LimbSplit(Val(s[1..]), Pow(radix, DigitsPerLimb(radix)), Pow(2, LIMB_BITS - k));
    LowOf(Val(s), Val(s[1..]) * Pow(2, LIMB_BITS - k), s[0], radix, DigitsPerLimb(radix), n);
  }

  lemma LimbSplit(x: nat, p: nat, c: nat)
    requires B == p * c
    ensures B * x == (x * c) * p
  {
    assert (p * c) * x == (x * c) * p;
  }

  lemma TailMore(was: string, now: string, next: string, off: nat, left: nat, n: nat, total: nat, v0: nat, v: nat,
                 radix: nat)
    requires off + total <= |was| && left + n <= total && radix > 0 && Put(was, now, off, left + n, total, v0, v, radix)
    requires Filled(now, next, off + left, n, LowDigits(v, radix, n), radix)
    ensures Pow(radix, n) > 0 && Put(was, next, off, left, total, v0, v / Pow(radix, n), radix)
  {
    var s, t := now[off + left + n..off + total], next[off + left..off + left + n];
    WrittenMore(s, t, v0, v, radix);
    assert next[off + left + n..off + total] == s by {
      assert next[off + left + n..][..total - left - n] == s;
    }
    assert next[off + left..off + total] == t + s;
    assert next[..off] == now[..off + left][..off];
    assert next[off + total..] == now[off + left + n..][total - left - n..];
  }

  // The total lowest digits of a, a limb of digits at a time.
  method OutputDigits(buf: array<char>, off: nat, a: Mpb, radix: nat, total: nat)
    requires 2 <= radix <= RADIX_MAX && off + total <= buf.Length && a.Valid() && total > 0
    modifies buf, a`len, a.tab
    ensures a.Valid() && Filled(old(buf[..]), buf[..], off, total, LowDigits(old(a.Value()), radix, total), radix)
  {
    ghost var v0 := a.Value();
    ghost var was, v := buf[..], v0;
    var left: nat := total;
    PutStart(was, off, total, v0, radix);
    if PowerOfTwo(radix) {
      while true
        invariant 0 < left <= total && a.Valid() && Put(was, buf[..], off, left, total, v0, v, radix) && v == a.Value()
        decreases left
      {
        var n := ChunkSize(left, radix);
        left := left - n;
        LowLimbDigits(a.tab[..a.len], radix, n);
        v := OutputChunk(buf, off, left, n, a.tab[0], radix, was, total, v0, v);
        if left == 0 {
          break;
        }
        ShiftBase(a, radix);
      }
    } else {
      NoPowerOfTwo(radix);
      while left != 0
        invariant left <= total && a.Valid() && Put(was, buf[..], off, left, total, v0, v, radix)
        invariant (left > 0 ==> v == a.Value())
        decreases left
      {
        var n := ChunkSize(left, radix);
        left := left - n;
        var r := DivBase(a, radix);
        LowOf(v, a.Value(), r, radix, DigitsPerLimb(radix), n);
        QuotientIs(v, a.Value(), r, Pow(radix, DigitsPerLimb(radix)));
        v := OutputChunk(buf, off, left, n, r, radix, was, total, v0, v);
      }
    }
    AllPut(was, buf[..], off, total, v0, v, radix);
  }

  method ChunkSize(left: nat, radix: nat) returns (n: nat)
    requires 2 <= radix <= RADIX_MAX && left > 0
    ensures 0 < n <= left && n <= DigitsPerLimb(radix) && (n < left ==> n == DigitsPerLimb(radix))
  {
    n := if left <= DigitsPerLimb(radix) then left else DigitsPerLimb(radix);
  }

  lemma QuotientIs(v: nat, q: nat, r: nat, p: nat)
    requires r < p && v == q * p + r
    ensures v / p == q
  {
    DivModIs(v, p, q, r);
  }

  lemma NoPowerOfTwo(radix: nat)
    requires 2 <= radix <= RADIX_MAX && !PowerOfTwo(radix)
    ensures RadixBase(radix) != 0
  {
  }

  method OutputChunk(buf: array<char>, off: nat, left: nat, n: nat, r: Limb, radix: nat, ghost was: string,
                     ghost total: nat, ghost v0: nat,
                     ghost v: nat) returns (ghost v': nat)
    requires 2 <= radix <= RADIX_MAX && off + total <= |was| == buf.Length && left + n <= total
    requires Put(was, buf[..], off, left + n, total, v0, v, radix) && LowDigits(v, radix, n) == LowDigits(r, radix, n)
    modifies buf
    ensures Pow(radix, n) > 0 && v' == v / Pow(radix, n) && Put(was, buf[..], off, left, total, v0, v', radix)
  {
    ghost var now := buf[..];
    PutDigits(buf, off + left, r, radix, n);
    TailMore(was, now, buf[..], off, left, n, total, v0, v, radix);
    v' := v / Pow(radix, n);
  }
}
