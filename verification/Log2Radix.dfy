// The logarithm of a power of two in another radix, rounded down: a product with a 24-bit fraction is exact for
// exponents of up to 2048. Two neighbouring fractions with denominators up to 2048 enclose the logarithm and the
// fraction, so no fraction with such a denominator is between them.
module Log2Radix {
  import opened Arith
  import opened Powers
  import opened RealPowers
  import opened Limbs
  import opened Bignum
  import opened RadixPower
  import opened Scaling
  import opened Float64
  import opened DigitErrors
  import opened Capacity
  import opened Digits
  import opened PowerBounds

  const FRACTION: int := 0x100_0000
  const EXPONENT_MAX: int := 2048

  function LogTable(radix: nat): nat
    requires 2 <= radix <= RADIX_MAX
  {
    if radix == 2 then 0
    else if radix == 3 then 0xa1849d
    else if radix == 4 then 0
    else if radix == 5 then 0x6e40d2
    else if radix == 6 then 0x6308c9
    else if radix == 7 then 0x5b3065
    else if radix == 8 then 0
    else if radix == 9 then 0x50c24e
    else if radix == 10 then 0x4d104d
    else if radix == 11 then 0x4a0027
    else if radix == 12 then 0x4768ce
    else if radix == 13 then 0x452e54
    else if radix == 14 then 0x433d00
    else if radix == 15 then 0x418677
    else if radix == 16 then 0
    else if radix == 17 then 0x3ea16b
    else if radix == 18 then 0x3d645a
    else if radix == 19 then 0x3c43c2
    else if radix == 20 then 0x3b3b9a
    else if radix == 21 then 0x3a4899
    else if radix == 22 then 0x39680b
    else if radix == 23 then 0x3897b3
    else if radix == 24 then 0x37d5af
    else if radix == 25 then 0x372069
    else if radix == 26 then 0x367686
    else if radix == 27 then 0x35d6df
    else if radix == 28 then 0x354072
    else if radix == 29 then 0x34b261
    else if radix == 30 then 0x342bea
    else if radix == 31 then 0x33ac62
    else if radix == 32 then 0
    else if radix == 33 then 0x32bfd9
    else if radix == 34 then 0x3251dd
    else if radix == 35 then 0x31e8d6
    else 0x318465
  }

  // Division that rounds towards zero.
  function Truncated(a: int, b: nat): int
    requires b > 0
  {
    if a < 0 then 0 - (0 - a) / b else a / b
  }

  function MulLog2Radix(a: int, radix: nat): int
    requires 2 <= radix <= RADIX_MAX
  {
    if PowerOfTwo(radix) then
      var bits := RadixBits(radix);
      Truncated(if a < 0 then a - (bits - 1) else a, bits)
    else a * LogTable(radix) / FRACTION
  }

  // ---- Neighbours of the logarithm ----

  datatype Fraction = Fraction(num: nat, den: nat)

  function LowNeighbour(radix: nat): Fraction {
    if radix == 3 then Fraction(971, 1539)
    else if radix == 5 then Fraction(643, 1493)
    else if radix == 6 then Fraction(306, 791)
    else if radix == 7 then Fraction(571, 1603)
    else if radix == 9 then Fraction(153, 485)
    else if radix == 10 then Fraction(497, 1651)
    else if radix == 11 then Fraction(37, 128)
    else if radix == 12 then Fraction(306, 1097)
    else if radix == 13 then Fraction(227, 840)
    else if radix == 14 then Fraction(462, 1759)
    else if radix == 15 then Fraction(290, 1133)
    else if radix == 17 then Fraction(343, 1402)
    else if radix == 18 then Fraction(153, 638)
    else if radix == 19 then Fraction(121, 514)
    else if radix == 20 then Fraction(351, 1517)
    else if radix == 21 then Fraction(339, 1489)
    else if radix == 22 then Fraction(37, 165)
    else if radix == 23 then Fraction(403, 1823)
    else if radix == 24 then Fraction(306, 1403)
    else if radix == 25 then Fraction(424, 1969)
    else if radix == 26 then Fraction(227, 1067)
    else if radix == 27 then Fraction(102, 485)
    else if radix == 28 then Fraction(353, 1697)
    else if radix == 29 then Fraction(169, 821)
    else if radix == 30 then Fraction(290, 1423)
    else if radix == 31 then Fraction(131, 649)
    else if radix == 33 then Fraction(45, 227)
    else if radix == 34 then Fraction(343, 1745)
    else if radix == 35 then Fraction(379, 1944)
    else Fraction(153, 791)
  }

  function HighNeighbour(radix: nat): Fraction {
    if radix == 3 then Fraction(665, 1054)
    else if radix == 5 then Fraction(789, 1832)
    else if radix == 6 then Fraction(665, 1719)
    else if radix == 7 then Fraction(680, 1909)
    else if radix == 9 then Fraction(512, 1623)
    else if radix == 10 then Fraction(146, 485)
    else if radix == 11 then Fraction(579, 2003)
    else if radix == 12 then Fraction(359, 1287)
    else if radix == 13 then Fraction(464, 1717)
    else if radix == 14 then Fraction(109, 415)
    else if radix == 15 then Fraction(247, 965)
    else if radix == 17 then Fraction(263, 1075)
    else if radix == 18 then Fraction(359, 1497)
    else if radix == 19 then Fraction(480, 2039)
    else if radix == 20 then Fraction(146, 631)
    else if radix == 21 then Fraction(130, 571)
    else if radix == 22 then Fraction(431, 1922)
    else if radix == 23 then Fraction(191, 864)
    else if radix == 24 then Fraction(359, 1646)
    else if radix == 25 then Fraction(73, 339)
    else if radix == 26 then Fraction(237, 1114)
    else if radix == 27 then Fraction(359, 1707)
    else if radix == 28 then Fraction(109, 524)
    else if radix == 29 then Fraction(345, 1676)
    else if radix == 30 then Fraction(247, 1212)
    else if radix == 31 then Fraction(371, 1838)
    else if radix == 33 then Fraction(383, 1932)
    else if radix == 34 then Fraction(263, 1338)
    else if radix == 35 then Fraction(263, 1349)
    else Fraction(359, 1856)
  }

  predicate IsBelow(radix: nat, f: Fraction) {
    Pow(radix, f.num) < Pow(2, f.den)
  }

  predicate IsAbove(radix: nat, f: Fraction) {
    Pow(radix, f.num) > Pow(2, f.den)
  }

  function TwoTo(l: nat): nat
    requires l < 32
  {
    if l == 0 then 0x1
    else if l == 1 then 0x2
    else if l == 2 then 0x4
    else if l == 3 then 0x8
    else if l == 4 then 0x10
    else if l == 5 then 0x20
    else if l == 6 then 0x40
    else if l == 7 then 0x80
    else if l == 8 then 0x100
    else if l == 9 then 0x200
    else if l == 10 then 0x400
    else if l == 11 then 0x800
    else if l == 12 then 0x1000
    else if l == 13 then 0x2000
    else if l == 14 then 0x4000
    else if l == 15 then 0x8000
    else if l == 16 then 0x10000
    else if l == 17 then 0x20000
    else if l == 18 then 0x40000
    else if l == 19 then 0x80000
    else if l == 20 then 0x100000
    else if l == 21 then 0x200000
    else if l == 22 then 0x400000
    else if l == 23 then 0x800000
    else if l == 24 then 0x1000000
    else if l == 25 then 0x2000000
    else if l == 26 then 0x4000000
    else if l == 27 then 0x8000000
    else if l == 28 then 0x10000000
    else if l == 29 then 0x20000000
    else if l == 30 then 0x40000000
    else 0x80000000
  }

  lemma {:induction false} TwoToIs(l: nat)
    requires l < 32
    ensures TwoTo(l) == Pow(2, l)
  {
    if l > 0 {
      TwoToIs(l - 1);
      assert TwoTo(l) == 2 * TwoTo(l - 1);
    }
  }

  lemma TwoInLimbs(a: nat)
    ensures Pow(2, a) == TwoTo(a % 32) * Pow(B, a / 32)
  {
    TwoToIs(a % 32);
    PowLimb(a, a / 32, a % 32);
    Commute(Pow(B, a / 32), Pow(2, a % 32));
  }

  lemma PowerBelow(r: nat, f: Fraction, n0: nat, b1: nat, m1: nat, j1: nat, b2: nat, m2: nat, j2: nat)
    requires n0 <= 15 && b1 < 8 && b2 < 8 && f.num == 64 * n0 + 8 * b1 + b2 && j1 <= 15 && j2 <= 15
    requires Power8(SmallPower(r, n0)) * SmallPower(r, b1) <= m1 * PowB(j1)
    requires Power8(m1) * SmallPower(r, b2) <= m2 * PowB(j2)
    requires 0 <= f.den / 32 - (8 * j1 + j2) <= 15 && m2 < TwoTo(f.den % 32) * PowB(f.den / 32 - (8 * j1 + j2))
    ensures IsBelow(r, f)
  {
    SmallerPower(r, f.num, n0, b1, m1, j1, b2, m2, j2, f.den / 32, TwoTo(f.den % 32));
    TwoInLimbs(f.den);
  }

  lemma PowerAbove(r: nat, f: Fraction, n0: nat, b1: nat, m1: nat, j1: nat, b2: nat, m2: nat, j2: nat)
    requires n0 <= 15 && b1 < 8 && b2 < 8 && f.num == 64 * n0 + 8 * b1 + b2 && j1 <= 15 && j2 <= 15
    requires Power8(SmallPower(r, n0)) * SmallPower(r, b1) >= m1 * PowB(j1)
    requires Power8(m1) * SmallPower(r, b2) >= m2 * PowB(j2)
    requires 0 <= f.den / 32 - (8 * j1 + j2) <= 15 && m2 > TwoTo(f.den % 32) * PowB(f.den / 32 - (8 * j1 + j2))
    ensures IsAbove(r, f)
  {
    LargerPower(r, f.num, n0, b1, m1, j1, b2, m2, j2, f.den / 32, TwoTo(f.den % 32));
    TwoInLimbs(f.den);
  }

  lemma NeighboursBracket(radix: nat)
    requires 2 <= radix <= RADIX_MAX && !PowerOfTwo(radix)
    ensures IsBelow(radix, LowNeighbour(radix)) && IsAbove(radix, HighNeighbour(radix))
  {
    if radix <= 7 {
      LowNeighbour3(radix);
    } else if radix <= 12 {
      LowNeighbour9(radix);
    } else if radix <= 17 {
      LowNeighbour13(radix);
    } else if radix <= 21 {
      LowNeighbour18(radix);
    } else if radix <= 25 {
      LowNeighbour22(radix);
    } else if radix <= 29 {
      LowNeighbour26(radix);
    } else if radix <= 34 {
      LowNeighbour30(radix);
    } else {
      LowNeighbour35(radix);
    }
    if radix <= 7 {
      HighNeighbour3(radix);
    } else if radix <= 12 {
      HighNeighbour9(radix);
    } else if radix <= 17 {
      HighNeighbour13(radix);
    } else if radix <= 21 {
      HighNeighbour18(radix);
    } else if radix <= 25 {
      HighNeighbour22(radix);
    } else if radix <= 29 {
      HighNeighbour26(radix);
    } else if radix <= 34 {
      HighNeighbour30(radix);
    } else {
      HighNeighbour35(radix);
    }
  }

  lemma LowNeighbour3(radix: nat)
    requires radix == 3 || radix == 5 || radix == 6 || radix == 7
    ensures IsBelow(radix, LowNeighbour(radix))
  {
    if radix == 3 {
      PowerBelow(radix, LowNeighbour(radix), 15, 1, 0xdbdcfd23cd3d4157, 4, 3, 0x7fdff30ca, 15);
    } else if radix == 5 {
      PowerBelow(radix, LowNeighbour(radix), 10, 0, 0x35f9dea3e1f6be0, 4, 3, 0x1ffeaa711e7ab8, 13);
    } else if radix == 6 {
      PowerBelow(radix, LowNeighbour(radix), 4, 6, 0x4afcc1ebb, 2, 2, 0x7fde8538a7981c, 7);
    } else if radix == 7 {
      PowerBelow(radix, LowNeighbour(radix), 8, 7, 0xa007b48f14, 5, 3, 0x7ff84a2a9, 9);
    }
  }

  lemma LowNeighbour9(radix: nat)
    requires radix == 9 || radix == 10 || radix == 11 || radix == 12
    ensures IsBelow(radix, LowNeighbour(radix))
  {
    if radix == 9 {
      PowerBelow(radix, LowNeighbour(radix), 2, 3, 0x12bf307ae81ffd59, 0, 1, 0x1ff7a14df6, 14);
    } else if radix == 10 {
      PowerBelow(radix, LowNeighbour(radix), 7, 6, 0x3e3aeb4ae139, 5, 1, 0x7fd893252cdd3, 10);
    } else if radix == 11 {
      PowerBelow(radix, LowNeighbour(radix), 0, 4, 14641, 0, 5, 0xffd1390a0adc2fb9, 2);
    } else if radix == 12 {
      PowerBelow(radix, LowNeighbour(radix), 4, 6, 0x12bf307ae82, 3, 2, 0x1ff7a14df51, 9);
    }
  }

  lemma LowNeighbour13(radix: nat)
    requires radix == 13 || radix == 14 || radix == 15 || radix == 17
    ensures IsBelow(radix, LowNeighbour(radix))
  {
    if radix == 13 {
      PowerBelow(radix, LowNeighbour(radix), 3, 4, 0xc3acad73bc, 2, 3, 0xfff7a49872, 9);
    } else if radix == 14 {
      PowerBelow(radix, LowNeighbour(radix), 7, 1, 0x206ded59d81524d, 5, 6, 0x7fd203f4896298ee, 13);
    } else if radix == 15 {
      PowerBelow(radix, LowNeighbour(radix), 4, 4, 0x1912aeabe3e2, 3, 2, 0x1ff632ad5ced, 10);
    } else if radix == 17 {
      PowerBelow(radix, LowNeighbour(radix), 5, 2, 0xcc24b7e0153, 4, 7, 0x3ffd3677cdef7a9, 10);
    }
  }

  lemma LowNeighbour18(radix: nat)
    requires radix == 18 || radix == 19 || radix == 20 || radix == 21
    ensures IsBelow(radix, LowNeighbour(radix))
  {
    if radix == 18 {
      PowerBelow(radix, LowNeighbour(radix), 2, 3, 0x95f983d74100, 1, 1, 0x3fef429bea12f249, 10);
    } else if radix == 19 {
      PowerBelow(radix, LowNeighbour(radix), 1, 7, 0xd2ae3299c1c4aedb, 0, 1, 0x3ff73f764, 15);
    } else if radix == 20 {
      PowerBelow(radix, LowNeighbour(radix), 5, 3, 0x3965adec3190f1d, 4, 7, 0x1feda1669251, 14);
    } else if radix == 21 {
      PowerBelow(radix, LowNeighbour(radix), 5, 2, 0x1646505f35a8477, 4, 3, 0x1fe716e9535bc, 13);
    }
  }

  lemma LowNeighbour22(radix: nat)
    requires radix == 22 || radix == 23 || radix == 24 || radix == 25
    ensures IsBelow(radix, LowNeighbour(radix))
  {
    if radix == 22 {
      PowerBelow(radix, LowNeighbour(radix), 0, 4, 234256, 0, 5, 0x1ffa272142, 4);
    } else if radix == 23 {
      PowerBelow(radix, LowNeighbour(radix), 6, 2, 0x4868b6770, 6, 3, 0x7f993b89ad71d3bc, 7);
    } else if radix == 24 {
      PowerBelow(radix, LowNeighbour(radix), 4, 6, 0x4afcc1eba080, 4, 2, 0x7fde8537d425e4a, 10);
    } else if radix == 25 {
      PowerBelow(radix, LowNeighbour(radix), 6, 5, 0x45c32d90ac4cfb, 6, 0, 0x1fe3cbd84f7c6, 12);
    }
  }

  lemma LowNeighbour26(radix: nat)
    requires radix == 26 || radix == 27 || radix == 28 || radix == 29
    ensures IsBelow(radix, LowNeighbour(radix))
  {
    if radix == 26 {
      PowerBelow(radix, LowNeighbour(radix), 3, 4, 0xc3acad73c, 3, 3, 0x7ffbd24c4dd, 8);
    } else if radix == 27 {
      PowerBelow(radix, LowNeighbour(radix), 1, 4, 0x2153e468b91c6d1, 0, 6, 0x1ff7a14df6, 14);
    } else if radix == 28 {
      PowerBelow(radix, LowNeighbour(radix), 5, 4, 0xb801c87f94504, 5, 1, 0x1feaf24c5, 12);
    } else if radix == 29 {
      PowerBelow(radix, LowNeighbour(radix), 2, 5, 0x40c91bf9c5, 2, 1, 0x1ff91f30d0034f, 8);
    }
  }

  lemma LowNeighbour30(radix: nat)
    requires radix == 30 || radix == 31 || radix == 33 || radix == 34
    ensures IsBelow(radix, LowNeighbour(radix))
  {
    if radix == 30 {
      PowerBelow(radix, LowNeighbour(radix), 4, 4, 0x1912aeabe3e15, 4, 2, 0x7fd8cab57398, 11);
    } else if radix == 31 {
      PowerBelow(radix, LowNeighbour(radix), 2, 0, 0x9a09afbae831, 1, 3, 0x1ffe642b225, 11);
    } else if radix == 33 {
      PowerBelow(radix, LowNeighbour(radix), 0, 5, 39135393, 0, 5, 0x7fcc9a8df, 6);
    } else if radix == 34 {
      PowerBelow(radix, LowNeighbour(radix), 5, 2, 0x33092df805495b, 5, 7, 0x1ffe9b3be6ea8, 13);
    }
  }

  lemma LowNeighbour35(radix: nat)
    requires radix == 35 || radix == 36
    ensures IsBelow(radix, LowNeighbour(radix))
  {
    if radix == 35 {
      PowerBelow(radix, LowNeighbour(radix), 5, 7, 0x21bcec6aafa81, 6, 3, 0xffb12958bcb89c, 11);
    } else if radix == 36 {
      PowerBelow(radix, LowNeighbour(radix), 2, 3, 0x4afcc1ebb, 2, 1, 0x7fde8538a7981c, 7);
    }
  }

  lemma HighNeighbour3(radix: nat)
    requires radix == 3 || radix == 5 || radix == 6 || radix == 7
    ensures IsAbove(radix, HighNeighbour(radix))
  {
    if radix == 3 {
      PowerAbove(radix, HighNeighbour(radix), 10, 3, 0xbba5f8443, 3, 1, 0x4000b71a2733d973, 7);
    } else if radix == 5 {
      PowerAbove(radix, HighNeighbour(radix), 12, 2, 0xbb445da9c, 6, 5, 0x1003992f4c7, 8);
    } else if radix == 6 {
      PowerAbove(radix, HighNeighbour(radix), 10, 3, 0x5dd2fc221d5cc9, 5, 1, 0x80016e3488eef9, 12);
    } else if radix == 7 {
      PowerAbove(radix, HighNeighbour(radix), 10, 5, 0x62b68801ec04, 6, 0, 0x2007a6f5a1e2a7, 10);
    }
  }

  lemma HighNeighbour9(radix: nat)
    requires radix == 9 || radix == 10 || radix == 11 || radix == 12
    ensures IsAbove(radix, HighNeighbour(radix))
  {
    if radix == 9 {
      PowerAbove(radix, HighNeighbour(radix), 8, 0, 0x75648e690da, 5, 0, 0x802460b92a0cda, 9);
    } else if radix == 10 {
      PowerAbove(radix, HighNeighbour(radix), 2, 2, 0xde0b6b3a7640000, 0, 2, 0x200888489a, 14);
    } else if radix == 11 {
      PowerAbove(radix, HighNeighbour(radix), 9, 0, 0x21cd8d0a9a8b5a6, 6, 3, 0x80f8aca42efbe, 13);
    } else if radix == 12 {
      PowerAbove(radix, HighNeighbour(radix), 5, 4, 0x3562710dff031872, 3, 7, 0x8022f220a6, 15);
    }
  }

  lemma HighNeighbour13(radix: nat)
    requires radix == 13 || radix == 14 || radix == 15 || radix == 17
    ensures IsAbove(radix, HighNeighbour(radix))
  {
    if radix == 13 {
      PowerAbove(radix, HighNeighbour(radix), 7, 2, 0x62bc679d5db579, 5, 0, 0x2016e932af31a6, 12);
    } else if radix == 14 {
      PowerAbove(radix, HighNeighbour(radix), 1, 5, 0x2d1e11f1ce000, 0, 5, 0x802653fb03cb855c, 11);
    } else if radix == 15 {
      PowerAbove(radix, HighNeighbour(radix), 3, 6, 0x24ee0ea069f2ee, 2, 7, 0x200b3bf965, 13);
    } else if radix == 17 {
      PowerAbove(radix, HighNeighbour(radix), 4, 0, 0x6f56b2f42, 3, 7, 0x803e00b20647a, 8);
    }
  }

  lemma HighNeighbour18(radix: nat)
    requires radix == 18 || radix == 19 || radix == 20 || radix == 21
    ensures IsAbove(radix, HighNeighbour(radix))
  {
    if radix == 18 {
      PowerAbove(radix, HighNeighbour(radix), 5, 4, 0xb21e8aa8c3be26, 4, 7, 0x20117b72ee2805d, 13);
    } else if radix == 19 {
      PowerAbove(radix, HighNeighbour(radix), 7, 4, 0x756df24eef11e9fe, 6, 0, 0x807677d1e2bebe, 14);
    } else if radix == 20 {
      PowerAbove(radix, HighNeighbour(radix), 2, 2, 0x3782dace9d90, 1, 2, 0x802221226be55a, 10);
    } else if radix == 21 {
      PowerAbove(radix, HighNeighbour(radix), 2, 0, 0x4d8d20f44c, 1, 2, 0x801cbe64a4fa3e5, 8);
    }
  }

  lemma HighNeighbour22(radix: nat)
    requires radix == 22 || radix == 23 || radix == 24 || radix == 25
    ensures IsAbove(radix, HighNeighbour(radix))
  {
    if radix == 22 {
      PowerAbove(radix, HighNeighbour(radix), 6, 5, 0x1464269f5982, 6, 7, 0x40ab8db84, 11);
    } else if radix == 23 {
      PowerAbove(radix, HighNeighbour(radix), 2, 7, 0x1078c6e4f7d, 2, 7, 0x1000f27fd, 10);
    } else if radix == 24 {
      PowerAbove(radix, HighNeighbour(radix), 5, 4, 0x3562710dff0, 5, 7, 0x401179105333, 10);
    } else if radix == 25 {
      PowerAbove(radix, HighNeighbour(radix), 1, 1, 0x3782dace9d9, 0, 1, 0x802221226be55, 9);
    }
  }

  lemma HighNeighbour26(radix: nat)
    requires radix == 26 || radix == 27 || radix == 28 || radix == 29
    ensures IsAbove(radix, HighNeighbour(radix))
  {
    if radix == 26 {
      PowerAbove(radix, HighNeighbour(radix), 3, 5, 0x13df899dc10, 3, 5, 0x402feacfb63e7c2, 9);
    } else if radix == 27 {
      PowerAbove(radix, HighNeighbour(radix), 5, 4, 0x2524d10f3d516, 5, 7, 0x8068f303d0c, 12);
    } else if radix == 28 {
      PowerAbove(radix, HighNeighbour(radix), 1, 5, 0x5a3c23e39c000000, 0, 5, 0x1004ca7f6079, 15);
    } else if radix == 29 {
      PowerAbove(radix, HighNeighbour(radix), 5, 3, 0x1db75fb4cf946, 5, 1, 0x1009c9a74a26, 11);
    }
  }

  lemma HighNeighbour30(radix: nat)
    requires radix == 30 || radix == 31 || radix == 33 || radix == 34
    ensures IsAbove(radix, HighNeighbour(radix))
  {
    if radix == 30 {
      PowerAbove(radix, HighNeighbour(radix), 3, 6, 0x93b83a81a7cbb, 3, 7, 0x10059dfcb2ed6645, 12);
    } else if radix == 31 {
      PowerAbove(radix, HighNeighbour(radix), 5, 6, 0xedb48eba4, 6, 3, 0x404dc319a12f, 8);
    } else if radix == 33 {
      PowerAbove(radix, HighNeighbour(radix), 5, 7, 0x21fa55d75b01, 6, 7, 0x100860a3fa8d, 11);
    } else if radix == 34 {
      PowerAbove(radix, HighNeighbour(radix), 4, 0, 0x6f56b2f42, 4, 7, 0x401f00590323d07, 8);
    }
  }

  lemma HighNeighbour35(radix: nat)
    requires radix == 35 || radix == 36
    ensures IsAbove(radix, HighNeighbour(radix))
  {
    if radix == 35 {
      PowerAbove(radix, HighNeighbour(radix), 4, 0, 0x1198344b41, 4, 7, 0x200824c208, 9);
    } else if radix == 36 {
      PowerAbove(radix, HighNeighbour(radix), 5, 4, 0xb21e8aa8c, 6, 7, 0x1008bdb97, 9);
    }
  }

  // The table entry lies between the neighbours, and these are neighbours among denominators up to the largest
  // exponent.
  lemma TableBetween(radix: nat)
    requires 2 <= radix <= RADIX_MAX && !PowerOfTwo(radix)
    ensures var lo, hi, c := LowNeighbour(radix), HighNeighbour(radix), LogTable(radix);
      && lo.num * FRACTION < c * lo.den && c * hi.den < hi.num * FRACTION
      && hi.num * lo.den - lo.num * hi.den == 1 && lo.den + hi.den > EXPONENT_MAX && lo.den > 0 && hi.den > 0
  {
  }

  // ---- Powers of the radix against powers of two ----

  // If k / a is at most the lower neighbour, radix^k is below 2^a.
  lemma LowSide(radix: nat, k: nat, a: nat, f: Fraction)
    requires radix > 1 && a > 0 && f.den > 0 && k * f.den <= f.num * a && IsBelow(radix, f)
    ensures Pow(radix, k) < Pow(2, a)
  {
    RaisedOrder(radix, k, f.den, f.num, a);
    SwapPowers(2, a, f.den);
    PowLess(Pow(radix, f.num), Pow(2, f.den), a);
    SmallerBase(Pow(radix, k), Pow(2, a), f.den);
  }

  lemma HighSide(radix: nat, k: nat, a: nat, f: Fraction)
    requires radix > 1 && a > 0 && f.den > 0 && k * f.den >= f.num * a && IsAbove(radix, f)
    ensures Pow(radix, k) > Pow(2, a)
  {
    RaisedOrder(radix, f.num, a, k, f.den);
    SwapPowers(2, a, f.den);
    PowLess(Pow(2, f.den), Pow(radix, f.num), a);
    SmallerBase(Pow(2, a), Pow(radix, k), f.den);
  }

  lemma RaisedOrder(radix: nat, k: nat, d: nat, n: nat, a: nat)
    requires radix > 0 && k * d <= n * a
    ensures Pow(Pow(radix, k), d) <= Pow(Pow(radix, n), a)
  {
    var x := Raised(radix, k, d, k * d);
    var y := Raised(radix, n, a, n * a);
    OrderedPowers(radix, k * d, n * a, x, y);
  }

  lemma Raised(b: nat, m: nat, n: nat, k: nat) returns (x: nat)
    requires k == m * n
    ensures x == Pow(Pow(b, m), n) && x == Pow(b, k)
  {
    PowPow(b, m, n);
    x := Pow(b, k);
  }

  lemma OrderedPowers(b: nat, m: nat, n: nat, x: nat, y: nat)
    requires b > 0 && m <= n && x == Pow(b, m) && y == Pow(b, n)
    ensures x <= y
  {
    PowMono(b, m, n);
  }

  lemma SwapPowers(b: nat, a: nat, d: nat)
    ensures Pow(Pow(b, a), d) == Pow(Pow(b, d), a)
  {
    PowPow(b, a, d);
    PowPow(b, d, a);
    Commute(a, d);
  }

  lemma SmallerBase(x: nat, y: nat, n: nat)
    requires Pow(x, n) < Pow(y, n)
    ensures x < y
  {
    if x >= y {
      PowBase(y, x, n);
    }
  }

  lemma {:induction false} PowLess(x: nat, y: nat, n: nat)
    requires x < y && n > 0
    ensures Pow(x, n) < Pow(y, n)
  {
    PowBase(x, y, n - 1);
    PowPos(y, n - 1);
    MulLe(x, x, Pow(x, n - 1), Pow(y, n - 1));
    LessTimes(Pow(y, n - 1), x, y);
    Commute(x, Pow(y, n - 1));
    Commute(y, Pow(y, n - 1));
  }

  // No fraction with a small denominator is between the neighbours.
  lemma NothingBetween(k: nat, a: nat, k1: nat, a1: nat, k2: nat, a2: nat)
    requires k2 * a1 - k1 * a2 == 1 && a < a1 + a2
    ensures k * a1 <= k1 * a || k * a2 >= k2 * a
  {
    var x, y := k * a1 - k1 * a, k2 * a - k * a2;
    assert a2 * x + a1 * y == a * (k2 * a1 - k1 * a2) by {
      assert a2 * (k * a1 - k1 * a) == k * a1 * a2 - k1 * a * a2;
      assert a1 * (k2 * a - k * a2) == k2 * a * a1 - k * a2 * a1;
    }
    if x >= 1 && y >= 1 {
      MulLe(a2, a2, 1, x);
      MulLe(a1, a1, 1, y);
    }
  }

  // The fraction of the table decides as the logarithm does.
  lemma Decides(radix: nat, k: nat, a: nat)
    requires 2 <= radix <= RADIX_MAX && !PowerOfTwo(radix) && 0 < a <= EXPONENT_MAX
    ensures (Pow(radix, k) < Pow(2, a) && k * FRACTION < a * LogTable(radix))
         || (Pow(radix, k) > Pow(2, a) && k * FRACTION > a * LogTable(radix))
  {
    var lo, hi := LowNeighbour(radix), HighNeighbour(radix);
    NeighboursBracket(radix);
    TableBetween(radix);
    NothingBetween(k, a, lo.num, lo.den, hi.num, hi.den);
    if k * lo.den <= lo.num * a {
      LowSide(radix, k, a, lo);
      BelowTable(k, a, lo.num, lo.den, LogTable(radix));
    } else {
      HighSide(radix, k, a, hi);
      AboveTable(k, a, hi.num, hi.den, LogTable(radix));
    }
  }

  lemma BelowTable(k: nat, a: nat, n: nat, d: nat, c: nat)
    requires a > 0 && d > 0 && k * d <= n * a && n * FRACTION < c * d
    ensures k * FRACTION < a * c
  {
    CrossMultiplied(k, a, n, d, c);
    LessTimes(a, n * FRACTION, c * d);
    SmallerFactor(k * FRACTION, a * c, d);
  }

  lemma AboveTable(k: nat, a: nat, n: nat, d: nat, c: nat)
    requires a > 0 && d > 0 && k * d >= n * a && n * FRACTION > c * d
    ensures k * FRACTION > a * c
  {
    CrossMultiplied(k, a, n, d, c);
    LessTimes(a, c * d, n * FRACTION);
    SmallerFactor(a * c, k * FRACTION, d);
  }

  lemma CrossMultiplied(k: nat, a: nat, n: nat, d: nat, c: nat)
    ensures (k * FRACTION) * d == (k * d) * FRACTION && (a * c) * d == a * (c * d)
    ensures a * (n * FRACTION) == (n * a) * FRACTION
  {
    Assoc3(a, c, d);
  }

  lemma SmallerFactor(x: nat, y: nat, d: nat)
    requires x * d < y * d
    ensures x < y
  {
    if x >= y {
      MulLe(y, x, d, d);
    }
  }

  // ---- Exactness ----

  // The result is the exponent of the power of the radix at or below 2^a.
  lemma LogIsExact(a: int, radix: nat)
    requires 2 <= radix <= RADIX_MAX && -EXPONENT_MAX <= a <= EXPONENT_MAX
    ensures var k := MulLog2Radix(a, radix); RP(radix, k) <= Two(a) < RP(radix, k + 1)
  {
    if PowerOfTwo(radix) {
      BinaryLog(a, radix, RadixBits(radix));
    } else if a > 0 {
      UpperLog(a, radix);
    } else if a < 0 {
      LowerLog(-a, radix);
    } else {
      assert Pow(radix, 1) == radix * Pow(radix, 0);
    }
  }

  // So the exponent that the digits start with is the one that is wanted.
  lemma FirstExponent(e: int, radix: nat)
    requires 2 <= radix <= RADIX_MAX && -EXPONENT_MAX < e <= EXPONENT_MAX
    ensures GoodExponent(radix, e, 1 + MulLog2Radix(e - 1, radix))
  {
    LogIsExact(e - 1, radix);
  }

  lemma RadixIsTwo(radix: nat, k: nat, j: int)
    requires PowerOfTwo(radix) && k == RadixBits(radix)
    ensures RP(radix, j) == Two(j * k)
  {
    RadixBitsIs(radix);
    FullRadix(1, 1, k, j, radix);
    OneTimesOne(j);
    UnitScale(Times(1, 1, j), j * k, RP(radix, j));
  }

  lemma OneTimesOne(j: int)
    ensures Times(1, 1, j) == 1.0
  {
    if j >= 0 {
      OneToThe(j);
    } else {
      OneToThe(-j);
    }
  }

  lemma UnitScale(x: real, k: int, y: real)
    requires x == 1.0 && Scale(x, k) == Product(1 as real, y)
    ensures Two(k) == y
  {
    OneTimes(Two(k), y);
  }

  lemma BinaryLog(a: int, radix: nat, bits: nat)
    requires PowerOfTwo(radix) && bits == RadixBits(radix)
    ensures var k := MulLog2Radix(a, radix); RP(radix, k) <= Two(a) < RP(radix, k + 1)
  {
    var k := MulLog2Radix(a, radix);
    TruncatedFloor(a, bits);
    RadixIsTwo(radix, bits, k);
    RadixIsTwo(radix, bits, k + 1);
    TwoMono(k * bits, a);
    TwoMono(a + 1, (k + 1) * bits);
    TwoNext(a);
    TwoPos(a);
  }

  lemma TruncatedFloor(a: int, bits: nat)
    requires bits > 0
    ensures var k := Truncated(if a < 0 then a - (bits - 1) else a, bits); k * bits <= a < (k + 1) * bits
  {
    if a < 0 {
      var q, r := Parts(0 - a + (bits - 1), bits);
      assert (0 - q) * bits == 0 - q * bits && (0 - q + 1) * bits == 0 - q * bits + bits;
    } else {
      var q, r := Parts(a, bits);
      assert (q + 1) * bits == q * bits + bits;
    }
  }

  lemma UpperLog(a: nat, radix: nat)
    requires 2 <= radix <= RADIX_MAX && !PowerOfTwo(radix) && 0 < a <= EXPONENT_MAX
    ensures var k := MulLog2Radix(a, radix); RP(radix, k) <= Two(a) < RP(radix, k + 1)
  {
    var k, r := Parts(a * LogTable(radix), FRACTION);
    Decides(radix, k, a);
    Decides(radix, k + 1, a);
    TwoNat(a);
  }

  lemma LowerLog(b: nat, radix: nat)
    requires 2 <= radix <= RADIX_MAX && !PowerOfTwo(radix) && 0 < b <= EXPONENT_MAX
    ensures var k := MulLog2Radix(0 - b, radix); RP(radix, k) <= Two(0 - b) < RP(radix, k + 1)
  {
    var j := NegativeFloor(b, LogTable(radix), MulLog2Radix(0 - b, radix));
    Decides(radix, j, b);
    Decides(radix, j - 1, b);
    TwoNat(b);
    InverseBelow(radix, j, b);
    InverseAbove(radix, j - 1, b);
  }

  lemma NegativeFloor(b: nat, c: nat, k: int) returns (j: nat)
    requires k == (0 - b) * c / FRACTION && b * c > 0
    ensures k == 0 - j && j > 0 && (j - 1) * FRACTION < b * c <= j * FRACTION
  {
    assert (0 - b) * c == 0 - b * c;
    FloorBounds(0 - b * c, k);
    j := 0 - k;
  }

  lemma FloorBounds(x: int, k: int)
    requires k == x / FRACTION
    ensures k * FRACTION <= x < (k + 1) * FRACTION
  {
  }

  lemma InverseBelow(radix: nat, n: nat, k: nat)
    requires radix > 0 && Pow(radix, n) as real >= Two(k)
    ensures RP(radix, 0 - n) <= Two(0 - k)
  {
    var y, z := InversesOf(radix, n, 0 - n);
    TwoInverse(k);
    TwoPos(k);
    TwoPos(0 - k);
    if z > Two(0 - k) {
      Opposed(y, z, Two(k), Two(0 - k));
    }
  }

  lemma InverseAbove(radix: nat, n: nat, k: nat)
    requires radix > 0 && Pow(radix, n) as real < Two(k)
    ensures RP(radix, 0 - n) > Two(0 - k)
  {
    var y, z := InversesOf(radix, n, 0 - n);
    TwoInverse(k);
    TwoPos(0 - k);
    TwoPos(k);
    Opposed(Two(0 - k), Two(k), z, y);
  }
}
