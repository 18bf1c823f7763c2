// Powers of a radix that fit in a word, and their tables.
module RadixPower {
  import opened Arith
  import opened Powers
  import opened Limbs
  import opened InvDiv
  import opened Bignum

  const RADIX_MAX: nat := 36

  // The most digits whose power of the radix still fits in a limb.
  function DigitsPerLimb(radix: nat): nat
    requires 2 <= radix <= RADIX_MAX
  {
    if radix == 2 then 32
    else if radix == 3 then 20
    else if radix == 4 then 16
    else if radix == 5 then 13
    else if radix == 6 then 12
    else if radix == 7 then 11
    else if radix <= 9 then 10
    else if radix <= 11 then 9
    else if radix <= 16 then 8
    else if radix <= 23 then 7
    else 6
  }

  // So many digits fit in one limb, and they nearly fill it.
  lemma DigitsFit(radix: nat)
    requires 3 <= radix <= RADIX_MAX && radix % 2 == 1
    ensures DigitsPerLimb(radix) > 0 && Pow(2, 27) <= Pow(radix, DigitsPerLimb(radix)) < B
  {
    assert Pow(2, 9) == 512;
    PowAdd(2, 9, 9);
    PowAdd(2, 18, 9);
    if radix <= 9 {
      DigitsFit3(radix);
    } else if radix <= 17 {
      DigitsFit11(radix);
    } else if radix <= 25 {
      DigitsFit19(radix);
    } else {
      DigitsFit27(radix);
    }
  }

  // The exponent is a parameter: of a power with literal arguments the verifier would unfold every factor.
  lemma PowThree(n: nat)
    requires n == 20
    ensures Pow(3, n) == 3486784401
  {
    var m := n / 2;
    assert Pow(3, 5) == 243;
    PowAdd(3, 5, m - 5);
    PowAdd(3, m, m);
  }

  lemma DigitsFit3(radix: nat)
    requires radix == 3 || radix == 5 || radix == 7 || radix == 9
    ensures DigitsPerLimb(radix) > 0 && 0x800_0000 <= Pow(radix, DigitsPerLimb(radix)) < B
  {
    if radix == 3 {
      PowThree(DigitsPerLimb(radix));
    } else if radix == 5 {
      assert Pow(5, 6) == 15625 && Pow(5, 7) == 78125;
      PowAdd(5, 6, 7);
    } else if radix == 7 {
      assert Pow(7, 5) == 16807 && Pow(7, 6) == 117649;
      PowAdd(7, 5, 6);
    } else if radix == 9 {
      assert Pow(9, 5) == 59049 && Pow(9, 5) == 59049;
      PowAdd(9, 5, 5);
    }
  }

  lemma DigitsFit11(radix: nat)
    requires radix == 11 || radix == 13 || radix == 15 || radix == 17
    ensures DigitsPerLimb(radix) > 0 && 0x800_0000 <= Pow(radix, DigitsPerLimb(radix)) < B
  {
    if radix == 11 {
      assert Pow(11, 4) == 14641 && Pow(11, 5) == 161051;
      PowAdd(11, 4, 5);
    } else if radix == 13 {
      assert Pow(13, 4) == 28561 && Pow(13, 4) == 28561;
      PowAdd(13, 4, 4);
    } else if radix == 15 {
      assert Pow(15, 4) == 50625 && Pow(15, 4) == 50625;
      PowAdd(15, 4, 4);
    } else if radix == 17 {
      assert Pow(17, 7) == 410338673;
    }
  }

  lemma DigitsFit19(radix: nat)
    requires radix == 19 || radix == 21 || radix == 23 || radix == 25
    ensures DigitsPerLimb(radix) > 0 && 0x800_0000 <= Pow(radix, DigitsPerLimb(radix)) < B
  {
    if radix == 19 {
      assert Pow(19, 7) == 893871739;
    } else if radix == 21 {
      assert Pow(21, 7) == 1801088541;
    } else if radix == 23 {
      assert Pow(23, 7) == 3404825447;
    } else if radix == 25 {
      assert Pow(25, 6) == 244140625;
    }
  }

  lemma DigitsFit27(radix: nat)
    requires radix == 27 || radix == 29 || radix == 31 || radix == 33 || radix == 35
    ensures DigitsPerLimb(radix) > 0 && 0x800_0000 <= Pow(radix, DigitsPerLimb(radix)) < B
  {
    if radix == 27 {
      assert Pow(27, 6) == 387420489;
    } else if radix == 29 {
      assert Pow(29, 6) == 594823321;
    } else if radix == 31 {
      assert Pow(31, 6) == 887503681;
    } else if radix == 33 {
      assert Pow(33, 6) == 1291467969;
    } else if radix == 35 {
      assert Pow(35, 6) == 1838265625;
    }
  }

  // ---- Powers of a radix ----

  // The powers 5^1 .. 5^17: low words, and high words from 5^14 on.
  function Pow5Table(b: nat): Limb
    requires 1 <= b <= 17
  {
    if b == 1 then 0x00000005
    else if b == 2 then 0x00000019
    else if b == 3 then 0x0000007d
    else if b == 4 then 0x00000271
    else if b == 5 then 0x00000c35
    else if b == 6 then 0x00003d09
    else if b == 7 then 0x0001312d
    else if b == 8 then 0x0005f5e1
    else if b == 9 then 0x001dcd65
    else if b == 10 then 0x009502f9
    else if b == 11 then 0x02e90edd
    else if b == 12 then 0x0e8d4a51
    else if b == 13 then 0x48c27395
    else if b == 14 then 0x6bcc41e9
    else if b == 15 then 0x1afd498d
    else if b == 16 then 0x86f26fc1
    else 0xa2bc2ec5
  }

  function Pow5HighTable(b: nat): Limb
    requires 14 <= b <= 17
  {
    if b == 14 then 0x00000001 else if b == 15 then 0x00000007 else if b == 16 then 0x00000023 else 0x000000b1
  }

  lemma Pow5Is(b: nat)
    requires 1 <= b <= 17
    ensures Pow(5, b) == Pow5Table(b) + if b >= 14 then Pow5HighTable(b) * B else 0
  {
    assert Pow(5, 8) == 390625;
    if b > 8 {
      PowAdd(5, 8, b - 8);
      assert Pow(5, 9) == 1953125;
    }
  }

  // a^b modulo 2^64
  method PowUi(a: nat, b: nat) returns (r: nat)
    requires a < B && b < B
    ensures r == Pow(a, b) % B2
  {
    if b == 0 {
      return 1;
    }
    if b == 1 {
      assert Pow(a, 1) == a * Pow(a, 0) == a;
      return a;
    }
    if (a == 5 || a == 10) && b <= 17 {
      r := PowTable(a, b);
      return;
    }
    r := PowSquaring(a, b);
  }

  method PowTable(a: nat, b: nat) returns (r: nat)
    requires (a == 5 || a == 10) && 1 <= b <= 17
    ensures r == Pow(a, b) % B2
  {
    Pow5Is(b);
    r := Pow5Table(b);
    if b >= 14 {
      r := r + Pow5HighTable(b) * B;
    }
    if a == 10 {
      PowTimes(5, 2, b);
      r := r * Pow(2, b) % B2;
    }
  }

  // Square for each bit of the exponent below the highest, and multiply where it is set.
  method PowSquaring(a: nat, b: nat) returns (r: nat)
    requires a < B && 0 < b < B
    ensures r == Pow(a, b) % B2
  {
    r := a;
    var i := BitLen(b);
    BitLenIs(b);
    i := i - 1;
    StartSquaring(a, b, i);
    while i > 0
      invariant 0 <= i && r == Pow(a, TopBits(b, i)) % B2
    {
      i := i - 1;
      r := SquareStep(a, b, i, r);
    }
    assert Pow(2, 0) == 1 && TopBits(b, 0) == b;
  }

  // The bits of b from position i up.
  function TopBits(b: nat, i: nat): nat {
    PowPos(2, i);
    b / Pow(2, i)
  }

  lemma StartSquaring(a: nat, b: nat, i: nat)
    requires a < B && Pow(2, i) <= b < Pow(2, i + 1)
    ensures a == Pow(a, TopBits(b, i)) % B2
  {
    TopBitIs(b, i + 1);
    assert Pow(a, 1) == a * Pow(a, 0) == a;
  }

  method SquareStep(a: nat, b: nat, i: nat, r: nat) returns (r': nat)
    requires r == Pow(a, TopBits(b, i + 1)) % B2
    ensures r' == Pow(a, TopBits(b, i)) % B2
  {
    PowPos(2, i);
    ghost var p := TopBits(b, i + 1);
    Halved(b, Pow(2, i));
    assert Pow(2, i + 1) == 2 * Pow(2, i);
    Squared(a, p, r);
    r' := r * r % B2;
    if TopBits(b, i) % 2 == 1 {
      TimesMod(Pow(a, 2 * p), a, r');
      r' := r' * a % B2;
    }
  }

  lemma TopBitIs(b: nat, n: nat)
    requires n > 0 && Pow(2, n - 1) <= b < Pow(2, n)
    ensures Pow(2, n - 1) > 0 && b / Pow(2, n - 1) == 1
  {
    PowPos(2, n - 1);
    DivModIs(b, Pow(2, n - 1), 1, b - Pow(2, n - 1));
  }

  lemma Halved(b: nat, d: nat)
    requires d > 0
    ensures b / d == 2 * (b / (2 * d)) + b / d % 2
  {
    var q, r := Parts(b, 2 * d);
    if r < d {
      DivModIs(b, d, 2 * q, r);
    } else {
      DivModIs(b, d, 2 * q + 1, r - d);
    }
  }

  lemma Squared(a: nat, p: nat, r: nat)
    requires r == Pow(a, p) % B2
    ensures r * r % B2 == Pow(a, 2 * p) % B2
  {
    PowAdd(a, p, p);
    ModTimes(Pow(a, p), Pow(a, p));
  }

  lemma TimesMod(x: nat, a: nat, r: nat)
    requires r == x % B2
    ensures r * a % B2 == (x * a) % B2 == (a * x) % B2
  {
    var q := x / B2;
    assert x * a == r * a + (q * a) * B2;
    ModPlus(r * a, q * a);
  }

  lemma ModTimes(x: nat, y: nat)
    ensures (x % B2) * (y % B2) % B2 == x * y % B2
  {
    TimesMod(x, y % B2, x % B2);
    TimesMod(y, x, y % B2);
  }

  lemma ModPlus(x: nat, q: nat)
    ensures (x + q * B2) % B2 == x % B2
  {
  }

  // Precomputed inverses of the normalized powers 5^1 .. 5^13.
  function Pow5Inverse(b: nat): Limb
    requires 1 <= b <= 13
  {
    if b == 1 then 0x99999999
    else if b == 2 then 0x47ae147a
    else if b == 3 then 0x0624dd2f
    else if b == 4 then 0xa36e2eb1
    else if b == 5 then 0x4f8b588e
    else if b == 6 then 0x0c6f7a0b
    else if b == 7 then 0xad7f29ab
    else if b == 8 then 0x5798ee23
    else if b == 9 then 0x12e0be82
    else if b == 10 then 0xb7cdfd9d
    else if b == 11 then 0x5fd7fe17
    else if b == 12 then 0x19799812
    else 0xc25c2684
  }

  // A power of the radix shifted up to a full limb, the shift, and its inverse.
  method PowUiInv(a: nat, b: nat) returns (r: Limb, inverse: Limb, shift: nat)
    requires a < B && b < B && 0 < Pow(a, b) < B
    ensures shift < LIMB_BITS && r == Pow(a, b) * Pow(2, shift) && B / 2 <= r && IsInverse(r, inverse)
  {
    var p;
    if a == 5 && 1 <= b <= 13 {
      Pow5Is(b);
      p := Pow5Table(b);
      Pow5InverseIs(b);
    } else {
      p := PowUi(a, b);
      Below64(Pow(a, b));
    }
    shift := Clz32(p);
    ClzShift(p);
    r := p * Pow(2, shift);
    if a == 5 && 1 <= b <= 13 {
      inverse := Pow5Inverse(b);
    } else {
      inverse := InverseOf(r);
    }
  }

  lemma Below64(x: nat)
    requires x < B
    ensures x % B2 == x
  {
  }

  // Shifting out the leading zeros makes a full limb.
  lemma ClzShift(p: nat)
    requires 0 < p < B
    ensures var s := Clz32(p); s < LIMB_BITS && B / 2 <= p * Pow(2, s) < B
  {
    BitLenIs(p);
    BitLenLimb(p);
    var n, s := BitLen(p), Clz32(p);
    var d := Pow(2, s);
    PowPos(2, s);
    PowAdd(2, n, s);
    PowAdd(2, n - 1, s);
    Pow2Is32();
    assert Pow(2, 32) == 2 * Pow(2, 31);
    MulLe(Pow(2, n - 1), p, d, d);
    MulLe(p + 1, Pow(2, n), d, d);
    assert (p + 1) * d == p * d + d;
  }

  // The shift that makes a full limb is the count of leading zeros.
  lemma ClzOf(p: nat, s: nat, d: nat)
    requires 0 < p < B && s < LIMB_BITS && d == Pow(2, s) && B / 2 <= p * d < B
    ensures Clz32(p) == s
  {
    ClzShift(p);
    var t := Clz32(p);
    if s < t {
      Doubled(p, s, t);
    } else if t < s {
      Doubled(p, t, s);
    }
  }

  lemma Doubled(p: nat, s: nat, t: nat)
    requires s < t
    ensures 2 * (p * Pow(2, s)) <= p * Pow(2, t)
  {
    PowMono(2, s + 1, t);
    assert Pow(2, s + 1) == 2 * Pow(2, s);
    MulLe(p, p, 2 * Pow(2, s), Pow(2, t));
  }

  // The table of inverses is right.
  lemma Pow5InverseIs(b: nat)
    requires 1 <= b <= 13
    ensures 0 < Pow(5, b) < B
    ensures var r := Pow(5, b) * Pow(2, Clz32(Pow(5, b))); r < B && IsInverse(r, Pow5Inverse(b))
  {
    Pow5Is(b);
    if b <= 3 {
      Pow5Low(b);
    } else if b <= 6 {
      Pow5Middle(b);
    } else {
      Pow5High(b);
    }
  }

  lemma Pow5Low(b: nat)
    requires 1 <= b <= 3
    ensures var p := Pow5Table(b);
      0 < p < B && p * Pow(2, Clz32(p)) < B && IsInverse(p * Pow(2, Clz32(p)), Pow5Inverse(b))
  {
    if b == 1 {
      PowAdd(2, 14, 15);
      assert Pow(2, 14) == 16384 && Pow(2, 15) == 32768;
      ClzOf(5, 29, 536870912);
    } else if b == 2 {
      PowAdd(2, 14, 13);
      assert Pow(2, 14) == 16384 && Pow(2, 13) == 8192;
      ClzOf(25, 27, 134217728);
    } else if b == 3 {
      PowAdd(2, 14, 11);
      assert Pow(2, 14) == 16384 && Pow(2, 11) == 2048;
      ClzOf(125, 25, 33554432);
    }
  }

  lemma Pow5Middle(b: nat)
    requires 4 <= b <= 6
    ensures var p := Pow5Table(b);
      0 < p < B && p * Pow(2, Clz32(p)) < B && IsInverse(p * Pow(2, Clz32(p)), Pow5Inverse(b))
  {
    if b == 4 {
      PowAdd(2, 14, 8);
      assert Pow(2, 14) == 16384 && Pow(2, 8) == 256;
      ClzOf(625, 22, 4194304);
    } else if b == 5 {
      PowAdd(2, 14, 6);
      assert Pow(2, 14) == 16384 && Pow(2, 6) == 64;
      ClzOf(3125, 20, 1048576);
    } else if b == 6 {
      PowAdd(2, 14, 4);
      assert Pow(2, 14) == 16384 && Pow(2, 4) == 16;
      ClzOf(15625, 18, 262144);
    }
  }

  lemma Pow5High(b: nat)
    requires 7 <= b <= 13
    ensures var p := Pow5Table(b);
      0 < p < B && p * Pow(2, Clz32(p)) < B && IsInverse(p * Pow(2, Clz32(p)), Pow5Inverse(b))
  {
    if b == 7 {
      PowAdd(2, 14, 1);
      assert Pow(2, 14) == 16384 && Pow(2, 1) == 2;
      ClzOf(78125, 15, 32768);
    } else if b == 8 {
      assert Pow(2, 13) == 8192;
      ClzOf(390625, 13, 8192);
    } else if b == 9 {
      assert Pow(2, 11) == 2048;
      ClzOf(1953125, 11, 2048);
    } else if b == 10 {
      assert Pow(2, 8) == 256;
      ClzOf(9765625, 8, 256);
    } else if b == 11 {
      assert Pow(2, 6) == 64;
      ClzOf(48828125, 6, 64);
    } else if b == 12 {
      assert Pow(2, 4) == 16;
      ClzOf(244140625, 4, 16);
    } else if b == 13 {
      assert Pow(2, 1) == 2;
      ClzOf(1220703125, 1, 2);
    }
  }
}
