// The conversions stay within the buffers that are set aside for them.
module Capacity {
  import opened Arith
  import opened Powers
  import opened RealPowers
  import opened Limbs
  import opened InvDiv
  import opened Bignum
  import opened RadixPower
  import opened Scaling
  import opened Float64
  import opened DigitBounds
  import opened DigitErrors

  // Limbs in the buffer of a conversion.
  const LEN_MAX: nat := 52

  // The radix without its factors of two, and their number.
  predicate Split(radix: nat, r1: nat, s: nat) {
    2 <= radix <= RADIX_MAX && OddRadix(r1) && radix == r1 * Pow(2, s)
  }

  lemma LimbsAtMost(r1: nat, f: nat, k: nat)
    requires 3 <= r1 <= RADIX_MAX && f <= k * DigitsPerLimb(r1)
    ensures LimbsFor(r1, f) <= k
  {
    var d := DigitsPerLimb(r1);
    assert f + d - 1 < d * (k + 1) by {
      assert d * (k + 1) == k * d + d;
    }
    DivBelow(f + d - 1, d, k + 1);
  }

  lemma {:induction false} PowBase(a: nat, b: nat, n: nat)
    requires a <= b
    ensures Pow(a, n) <= Pow(b, n)
  {
    if n > 0 {
      PowBase(a, b, n - 1);
      MulLe(a, b, Pow(a, n - 1), Pow(b, n - 1));
    }
  }

  lemma PowMore(m: nat, n: nat)
    requires m < n
    ensures Pow(2, m) < Pow(2, n)
  {
    PowMono(2, m + 1, n);
    PowPos(2, m);
  }

  // Each full limb of digits is worth at least 27 bits, and at most 32.
  lemma FullLimbs(r1: nat, n: nat, k: nat)
    requires r1 % 2 == 1 && 3 <= r1 <= RADIX_MAX && n >= k * DigitsPerLimb(r1)
    ensures Pow(r1, n) >= Pow(2, 27 * k)
  {
    var d := DigitsPerLimb(r1);
    DigitsFit(r1);
    PowMono(r1, k * d, n);
    PowPow(r1, d, k);
    PowPow(2, 27, k);
    PowBase(Pow(2, 27), Pow(r1, d), k);
    Commute(k, d);
  }

  lemma DigitBits(r1: nat, n: nat)
    requires r1 % 2 == 1 && 3 <= r1 <= RADIX_MAX
    ensures Pow(r1, n) <= Pow(2, 32 * LimbsFor(r1, n))
  {
    var d, k := DigitsPerLimb(r1), LimbsFor(r1, n);
    DigitsFit(r1);
    assert n <= d * k by {
      var q, m := Parts(n + d - 1, d);
      Commute(d, k);
    }
    PowMono(r1, n, d * k);
    PowPow(r1, d, k);
    Pow2Is32();
    PowPow(2, 32, k);
    PowBase(Pow(r1, d), Pow(2, 32), k);
  }

  // ---- The exponent of a double in another radix ----

  lemma HighExponent(radix: nat, r1: nat, s: nat, e: int, e0: int, k: nat, top: nat)
    requires Split(radix, r1, s) && r1 > 1 && GoodExponent(radix, e, e0) && e - 1 <= top < 27 * k
    ensures e0 - 1 < k * DigitsPerLimb(r1)
  {
    var n := e0 - 1;
    if n >= k * DigitsPerLimb(r1) {
      TwoMono(e - 1, top);
      TwoNat(top);
      FullLimbs(r1, n, k);
      Larger1(r1, s);
      PowBase(r1, radix, n);
      PowMore(top, 27 * k);
    }
  }

  lemma LowExponent(radix: nat, r1: nat, s: nat, e: int, e0: int, k: nat, top: nat)
    requires Split(radix, r1, s) && r1 > 1 && GoodExponent(radix, e, e0) && 1 - e <= top < 27 * k
    ensures -e0 < k * DigitsPerLimb(r1)
  {
    var n := -e0;
    if n >= k * DigitsPerLimb(r1) {
      FullLimbs(r1, n, k);
      Larger1(r1, s);
      PowBase(r1, radix, n);
      PowMore(top, 27 * k);
      var x, y := InversesOf(radix, n, e0);
      TwoMono(0 - top, e - 1);
      TwoNat(top);
      TwoInverse(top);
      TwoPos(0 - top);
      Opposed(x, y, Two(top), Two(0 - top));
    }
  }

  lemma Opposed(x: real, y: real, z: real, w: real)
    requires x > 0.0 && z > 0.0 && w > 0.0 && x * y == 1.0 && z * w == 1.0 && w < y
    ensures x < z
  {
    if x >= z {
      TimesOrder(z, x, w);
      TimesOrder(w, y, x);
    }
  }

  lemma Larger1(r1: nat, s: nat)
    ensures r1 <= r1 * Pow(2, s)
  {
    PowPos(2, s);
    MulAtLeast(r1, Pow(2, s));
  }

  lemma DigitsInLimbs(radix: nat, r1: nat, s: nat)
    requires Split(radix, r1, s) && r1 > 1
    ensures MaxDigits(radix) <= 3 * DigitsPerLimb(r1)
  {
    Larger1(r1, s);
    FewDigits(r1);
    assert MaxDigits(radix) <= MaxDigits(r1);
  }

  lemma FewDigits(r: nat)
    requires r % 2 == 1 && 3 <= r < RADIX_MAX
    ensures MaxDigits(r) <= 3 * DigitsPerLimb(r)
  {
  }

  // The limbs for the power, whichever sign its exponent has.
  lemma PowerLimbs(radix: nat, r1: nat, s: nat, e: int, e0: int, p: nat, ex: int)
    requires Split(radix, r1, s) && r1 > 1 && GoodExponent(radix, e, e0) && -1073 <= e <= 1024
    requires 1 <= p <= MaxDigits(radix) && e0 <= ex <= e0 + 1
    ensures p >= ex ==> LimbsFor(r1, p - ex) <= 43
    ensures p <= ex ==> LimbsFor(r1, ex - p) <= 39
  {
    HighExponent(radix, r1, s, e, e0, 38, 1023);
    LowExponent(radix, r1, s, e, e0, 40, 1074);
    DigitsInLimbs(radix, r1, s);
    if p >= ex {
      LimbsAtMost(r1, p - ex, 43);
    }
    if p <= ex {
      LimbsAtMost(r1, ex - p, 39);
    }
  }

  // ---- Shifts ----

  // The power of two in the scaling of a number to p digits.
  lemma ShiftBound(radix: nat, r1: nat, s: nat, e: int, e0: int, p: nat, ex: int)
    requires Split(radix, r1, s) && GoodExponent(radix, e, e0) && 1 <= p <= MaxDigits(radix) && e0 <= ex
    requires p >= ex || r1 == 1
    ensures (p - ex) * s + e - 1 < 63
  {
    FullRadix(1, r1, s, p - ex, radix);
    OneAtLeast(r1, p - ex);
    TwoPart((p - ex) * s, Times(1, r1, p - ex), RP(radix, p - ex));
    ShiftBoundBy(radix, e, e0, p, p - ex, (p - ex) * s);
  }

  lemma TwoPart(k: int, x: real, y: real)
    requires x >= 1.0 && Scale(x, k) == Product(1 as real, y)
    ensures Two(k) <= y
  {
    TwoPos(k);
    ScaleOrder(1.0, x, k);
    OneTimes(Two(k), y);
  }

  lemma OneTimes(x: real, y: real)
    ensures 1.0 * x == x && Product(1 as real, y) == y
  {
  }

  lemma ShiftBoundBy(radix: nat, e: int, e0: int, p: nat, f: int, k: int)
    requires 2 <= radix <= RADIX_MAX && GoodExponent(radix, e, e0) && p <= MaxDigits(radix) && f + e0 <= p
    requires Two(k) <= RP(radix, f)
    ensures k + e - 1 < 63
  {
    var y := PowersProduct(radix, f, e0);
    RadixPowers(radix, f + e0, p);
    var x := TwoProduct(k, e - 1);
    ProductLess(Two(k), RP(radix, f), Two(e - 1), RP(radix, e0), x, y);
    if k + e - 1 >= 63 {
      TwoMono(63, k + e - 1);
    }
  }

  lemma PowersProduct(r: nat, j: int, k: int) returns (y: real)
    requires r > 0
    ensures y == RP(r, j + k) && y == Product(RP(r, j), RP(r, k))
  {
    y := AddToProduct(r, r as real, j, k, RP(r, j), RP(r, k));
  }

  lemma TwoProduct(j: int, k: int) returns (x: real)
    ensures x == Two(j + k) && x == Product(Two(j), Two(k)) && Two(j) > 0.0 && Two(k) > 0.0
  {
    x := Two(j + k);
    TwoAdd(j, k);
    TwoPos(j);
    TwoPos(k);
  }

  lemma OneAtLeast(r1: nat, f: int)
    requires r1 > 0 && (f >= 0 || r1 == 1)
    ensures Times(1, r1, f) >= 1.0
  {
    if f >= 0 {
      PowPos(r1, f);
    } else {
      OneToThe(-f);
    }
  }

  lemma ProductLess(a: real, b: real, c: real, d: real, ac: real, bd: real)
    requires 0.0 < a <= b && 0.0 < c < d && ac == Product(a, c) && bd == Product(b, d)
    ensures ac < bd
  {
    TimesOrder(a, b, c);
    TimesOrder(c, d, b);
  }

  // A power with at most p digits is below 2^63.
  lemma RadixPowers(radix: nat, k: int, p: nat)
    requires 2 <= radix <= RADIX_MAX && k <= p <= MaxDigits(radix)
    ensures RP(radix, k) < Two(63)
  {
    MaxDigitsEnough(radix);
    PowMono(radix, p, MaxDigits(radix));
    Below63(Pow(radix, p));
    RPMono(radix, k, p);
  }

  lemma Below63(x: nat)
    requires 2 * x < B2
    ensures x as real < Two(63)
  {
    var k: nat := 63;
    TwoNat(k);
    Pow2Is32();
    PowAdd(2, 32, 31);
    assert Pow(2, 32) == 2 * Pow(2, 31);
  }

  lemma {:induction false} RPMono(r: nat, j: int, k: int)
    requires r > 0 && j <= k
    ensures RP(r, j) <= RP(r, k)
    decreases k - j
  {
    if j < k {
      RPMono(r, j, k - 1);
      RPNext(r, k - 1, RP(r, k - 1), RP(r, k));
      RPPos(r, k - 1);
      NoLess(r as real, RP(r, k - 1), RP(r, k));
    }
  }

  lemma NoLess(b: real, x: real, y: real)
    requires b >= 1.0 && x > 0.0 && y == b * x
    ensures x <= y
  {
    TimesOrder(1.0, b, x);
  }

  // The bits that a division makes room for beyond those of the divisor.
  lemma RoomBound(radix: nat, r1: nat, s: nat, e: int, e0: int, p: nat, ex: int)
    requires Split(radix, r1, s) && r1 > 1 && GoodExponent(radix, e, e0) && 1 <= p <= MaxDigits(radix) && e0 <= ex
    requires p < ex
    ensures ExtraBits(r1, s, ex - p, true, e - PREC, 0) <= 13
  {
    var n: nat := ex - p;
    BitsOfPower(radix, r1, s, n, LimbsFor(r1, n));
    RoomBy(radix, e, e0, p, n, n * s + 32 * LimbsFor(r1, n));
  }

  lemma BitsOfPower(radix: nat, r1: nat, s: nat, n: nat, l: nat)
    requires Split(radix, r1, s) && r1 > 1 && l == LimbsFor(r1, n)
    ensures Pow(radix, n) <= Pow(2, n * s + 32 * l)
  {
    DigitBits(r1, n);
    PowParts(r1, s, n, radix);
    PowAdd(2, n * s, 32 * l);
    MulLe(Pow(r1, n), Pow(2, 32 * l), Pow(2, n * s), Pow(2, n * s));
  }

  lemma RoomBy(radix: nat, e: int, e0: int, p: nat, n: nat, k: nat)
    requires 2 <= radix <= RADIX_MAX && GoodExponent(radix, e, e0) && 1 <= p <= MaxDigits(radix) && e0 <= n + p
    requires Pow(radix, n) <= Pow(2, k)
    ensures e - 1 < k + 63
  {
    var x := TwoProduct(k, 63);
    var y := PowersProduct(radix, n, p);
    RadixPowers(radix, p, p);
    RPMono(radix, e0, n + p);
    BelowTwo(radix, n, k);
    RPPos(radix, p);
    ProductLess(RP(radix, n), Two(k), RP(radix, p), Two(63), y, x);
    if e - 1 >= k + 63 {
      TwoMono(k + 63, e - 1);
    }
  }

  lemma BelowTwo(radix: nat, n: nat, k: nat)
    requires radix > 0 && Pow(radix, n) <= Pow(2, k)
    ensures 0.0 < RP(radix, n) <= Two(k)
  {
    TwoNat(k);
    PowPos(radix, n);
  }

  // ---- All of it ----

  // Making digits of a double.
  lemma PrintingFits(radix: nat, r1: nat, s: nat, e: int, e0: int, p: nat, ex: int)
    requires Split(radix, r1, s) && GoodExponent(radix, e, e0) && -1073 <= e <= 1024
    requires 1 <= p <= MaxDigits(radix) && e0 <= ex <= e0 + 1
    ensures LimbsToRound(r1, s, p - ex, e - PREC) <= 52
  {
    if r1 > 1 {
      PowerLimbs(radix, r1, s, e, e0, p, ex);
    }
    if p >= ex || r1 == 1 {
      ShiftBound(radix, r1, s, e, e0, p, ex);
      FewLimbs((p - ex) * s + e - PREC);
    } else {
      RoomBound(radix, r1, s, e, e0, p, ex);
      FewLimbs(ExtraBits(r1, s, ex - p, true, e - PREC, 0));
    }
  }

  lemma FewLimbs(n: int)
    requires n <= 55
    ensures n >= 0 ==> Extra(n) <= 2
  {
  }

  // Converting the digits back.
  lemma ParsingFits(radix: nat, r1: nat, s: nat, e: int, e0: int, p: nat, ex: int)
    requires Split(radix, r1, s) && GoodExponent(radix, e, e0) && -1073 <= e <= 1024
    requires 1 <= p <= MaxDigits(radix) && e0 <= ex <= e0 + 1
    ensures 2 + LimbsNeeded(r1, s, ex - p, false, 55) + 2 <= 52
  {
    if r1 > 1 {
      PowerLimbs(radix, r1, s, e, e0, p, ex);
      if ex < p {
        FewLimbs(ExtraBits(r1, s, p - ex, false, 55, 0));
      }
    }
  }
}
