// Digits: how many of them pin down a double, and how many limbs the conversions need.
module DigitBounds {
  import opened Powers
  import opened InvDiv
  import opened RadixPower
  import opened Float64

  // Digits that are always enough in free format.
  function MaxDigits(radix: nat): nat
    requires 2 <= radix <= RADIX_MAX
  {
    if radix == 2 then 54
    else if radix == 3 then 35
    else if radix == 4 then 28
    else if radix == 5 then 24
    else if radix == 6 then 22
    else if radix == 7 then 20
    else if radix == 8 then 19
    else if radix == 9 then 18
    else if radix <= 11 then 17
    else if radix <= 13 then 16
    else if radix <= 16 then 15
    else if radix <= 21 then 14
    else if radix <= 28 then 13
    else 12
  }

  // One digit less makes at least 2^53 numbers, two digits less do not, and even twice as many numbers as p digits make
  // fit in 64 bits.
  predicate Enough(r: nat, p: nat) {
    p > 0 && M53 <= Pow(r, p - 1) < r * M53 && 2 * Pow(r, p) < B2
  }

  // r^p from the powers of two shorter exponents.
  lemma EnoughBy(r: nat, p: nat, i: nat, x: nat, j: nat, y: nat)
    requires p == i + j + 1 && Pow(r, i) == x && Pow(r, j) == y && M53 <= x * y < r * M53 && 2 * (r * (x * y)) < B2
    ensures Enough(r, p)
  {
    PowAdd(r, i, j);
  }

  lemma MaxDigitsEnough(r: nat)
    requires 2 <= r <= RADIX_MAX
    ensures Enough(r, MaxDigits(r))
  {
    if r <= 4 {
      Enough2(r);
    } else if r <= 8 {
      Enough5(r);
    } else if r <= 12 {
      Enough9(r);
    } else if r <= 16 {
      Enough13(r);
    } else if r <= 20 {
      Enough17(r);
    } else if r <= 24 {
      Enough21(r);
    } else if r <= 28 {
      Enough25(r);
    } else if r <= 32 {
      Enough29(r);
    } else {
      Enough33(r);
    }
  }

  lemma Enough2(r: nat)
    requires 2 <= r <= 4
    ensures Enough(r, MaxDigits(r))
  {
    if r == 2 {
      assert Pow(2, 6) == 64;
      assert Pow(2, 7) == 128;
      PowAdd(2, 6, 7);
      PowAdd(2, 13, 13);
      assert Pow(2, 6) == 64;
      assert Pow(2, 7) == 128;
      PowAdd(2, 6, 7);
      assert Pow(2, 7) == 128;
      PowAdd(2, 7, 7);
      PowAdd(2, 13, 14);
      EnoughBy(r, 54, 26, 67108864, 27, 134217728);
    } else if r == 3 {
      assert Pow(3, 8) == 6561;
      assert Pow(3, 4) == 81;
      assert Pow(3, 5) == 243;
      PowAdd(3, 4, 5);
      PowAdd(3, 8, 9);
      EnoughBy(r, 35, 17, 129140163, 17, 129140163);
    } else if r == 4 {
      assert Pow(4, 6) == 4096;
      assert Pow(4, 7) == 16384;
      PowAdd(4, 6, 7);
      assert Pow(4, 7) == 16384;
      PowAdd(4, 7, 7);
      EnoughBy(r, 28, 13, 67108864, 14, 268435456);
    }
  }

  lemma Enough5(r: nat)
    requires 5 <= r <= 8
    ensures Enough(r, MaxDigits(r))
  {
    if r == 5 {
      assert Pow(5, 5) == 3125;
      assert Pow(5, 6) == 15625;
      PowAdd(5, 5, 6);
      assert Pow(5, 6) == 15625;
      PowAdd(5, 6, 6);
      EnoughBy(r, 24, 11, 48828125, 12, 244140625);
    } else if r == 6 {
      assert Pow(6, 5) == 7776;
      PowAdd(6, 5, 5);
      assert Pow(6, 5) == 7776;
      assert Pow(6, 6) == 46656;
      PowAdd(6, 5, 6);
      EnoughBy(r, 22, 10, 60466176, 11, 362797056);
    } else if r == 7 {
      assert Pow(7, 4) == 2401;
      assert Pow(7, 5) == 16807;
      PowAdd(7, 4, 5);
      assert Pow(7, 5) == 16807;
      PowAdd(7, 5, 5);
      EnoughBy(r, 20, 9, 40353607, 10, 282475249);
    } else if r == 8 {
      assert Pow(8, 4) == 4096;
      assert Pow(8, 5) == 32768;
      PowAdd(8, 4, 5);
      EnoughBy(r, 19, 9, 134217728, 9, 134217728);
    }
  }

  lemma Enough9(r: nat)
    requires 9 <= r <= 12
    ensures Enough(r, MaxDigits(r))
  {
    if r == 9 {
      assert Pow(9, 8) == 43046721;
      assert Pow(9, 4) == 6561;
      assert Pow(9, 5) == 59049;
      PowAdd(9, 4, 5);
      EnoughBy(r, 18, 8, 43046721, 9, 387420489);
    } else if r == 10 {
      assert Pow(10, 8) == 100000000;
      EnoughBy(r, 17, 8, 100000000, 8, 100000000);
    } else if r == 11 {
      assert Pow(11, 8) == 214358881;
      EnoughBy(r, 17, 8, 214358881, 8, 214358881);
    } else if r == 12 {
      assert Pow(12, 7) == 35831808;
      assert Pow(12, 8) == 429981696;
      EnoughBy(r, 16, 7, 35831808, 8, 429981696);
    }
  }

  lemma Enough13(r: nat)
    requires 13 <= r <= 16
    ensures Enough(r, MaxDigits(r))
  {
    if r == 13 {
      assert Pow(13, 7) == 62748517;
      assert Pow(13, 8) == 815730721;
      EnoughBy(r, 16, 7, 62748517, 8, 815730721);
    } else if r == 14 {
      assert Pow(14, 7) == 105413504;
      EnoughBy(r, 15, 7, 105413504, 7, 105413504);
    } else if r == 15 {
      assert Pow(15, 7) == 170859375;
      EnoughBy(r, 15, 7, 170859375, 7, 170859375);
    } else if r == 16 {
      assert Pow(16, 7) == 268435456;
      EnoughBy(r, 15, 7, 268435456, 7, 268435456);
    }
  }

  lemma Enough17(r: nat)
    requires 17 <= r <= 20
    ensures Enough(r, MaxDigits(r))
  {
    if r == 17 {
      assert Pow(17, 6) == 24137569;
      assert Pow(17, 7) == 410338673;
      EnoughBy(r, 14, 6, 24137569, 7, 410338673);
    } else if r == 18 {
      assert Pow(18, 6) == 34012224;
      assert Pow(18, 7) == 612220032;
      EnoughBy(r, 14, 6, 34012224, 7, 612220032);
    } else if r == 19 {
      assert Pow(19, 6) == 47045881;
      assert Pow(19, 7) == 893871739;
      EnoughBy(r, 14, 6, 47045881, 7, 893871739);
    } else if r == 20 {
      assert Pow(20, 6) == 64000000;
      assert Pow(20, 7) == 1280000000;
      EnoughBy(r, 14, 6, 64000000, 7, 1280000000);
    }
  }

  lemma Enough21(r: nat)
    requires 21 <= r <= 24
    ensures Enough(r, MaxDigits(r))
  {
    if r == 21 {
      assert Pow(21, 6) == 85766121;
      assert Pow(21, 7) == 1801088541;
      EnoughBy(r, 14, 6, 85766121, 7, 1801088541);
    } else if r == 22 {
      assert Pow(22, 6) == 113379904;
      EnoughBy(r, 13, 6, 113379904, 6, 113379904);
    } else if r == 23 {
      assert Pow(23, 6) == 148035889;
      EnoughBy(r, 13, 6, 148035889, 6, 148035889);
    } else if r == 24 {
      assert Pow(24, 6) == 191102976;
      EnoughBy(r, 13, 6, 191102976, 6, 191102976);
    }
  }

  lemma Enough25(r: nat)
    requires 25 <= r <= 28
    ensures Enough(r, MaxDigits(r))
  {
    if r == 25 {
      assert Pow(25, 6) == 244140625;
      EnoughBy(r, 13, 6, 244140625, 6, 244140625);
    } else if r == 26 {
      assert Pow(26, 6) == 308915776;
      EnoughBy(r, 13, 6, 308915776, 6, 308915776);
    } else if r == 27 {
      assert Pow(27, 6) == 387420489;
      EnoughBy(r, 13, 6, 387420489, 6, 387420489);
    } else if r == 28 {
      assert Pow(28, 6) == 481890304;
      EnoughBy(r, 13, 6, 481890304, 6, 481890304);
    }
  }

  lemma Enough29(r: nat)
    requires 29 <= r <= 32
    ensures Enough(r, MaxDigits(r))
  {
    if r == 29 {
      assert Pow(29, 5) == 20511149;
      assert Pow(29, 6) == 594823321;
      EnoughBy(r, 12, 5, 20511149, 6, 594823321);
    } else if r == 30 {
      assert Pow(30, 5) == 24300000;
      assert Pow(30, 6) == 729000000;
      EnoughBy(r, 12, 5, 24300000, 6, 729000000);
    } else if r == 31 {
      assert Pow(31, 5) == 28629151;
      assert Pow(31, 6) == 887503681;
      EnoughBy(r, 12, 5, 28629151, 6, 887503681);
    } else if r == 32 {
      assert Pow(32, 5) == 33554432;
      assert Pow(32, 6) == 1073741824;
      EnoughBy(r, 12, 5, 33554432, 6, 1073741824);
    }
  }

  lemma Enough33(r: nat)
    requires 33 <= r <= 36
    ensures Enough(r, MaxDigits(r))
  {
    if r == 33 {
      assert Pow(33, 5) == 39135393;
      assert Pow(33, 6) == 1291467969;
      EnoughBy(r, 12, 5, 39135393, 6, 1291467969);
    } else if r == 34 {
      assert Pow(34, 5) == 45435424;
      assert Pow(34, 6) == 1544804416;
      EnoughBy(r, 12, 5, 45435424, 6, 1544804416);
    } else if r == 35 {
      assert Pow(35, 5) == 52521875;
      assert Pow(35, 6) == 1838265625;
      EnoughBy(r, 12, 5, 52521875, 6, 1838265625);
    } else if r == 36 {
      assert Pow(36, 5) == 60466176;
      assert Pow(36, 6) == 2176782336;
      EnoughBy(r, 12, 5, 60466176, 6, 2176782336);
    }
  }
}
