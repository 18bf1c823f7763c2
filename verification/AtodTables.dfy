// Limits for the conversion of digits to a double: the tables, and that they are what they should be.
module AtodTables {
  import opened Powers
  import opened Limbs
  import opened RadixPower
  import opened RealPowers
  import opened Log2Radix
  import opened Digits

  // Significant digits that are taken into account; more only round further in a power of two.
  function AtodMaxDigits(radix: nat): nat
    requires 2 <= radix <= RADIX_MAX
  {
    if radix == 2 then 64
    else if radix == 3 then 80
    else if radix == 4 then 32
    else if radix == 5 then 55
    else if radix == 6 then 49
    else if radix == 7 then 45
    else if radix == 8 then 21
    else if radix == 9 then 40
    else if radix == 10 then 38
    else if radix == 11 then 37
    else if radix == 12 then 35
    else if radix == 13 then 34
    else if radix == 14 then 33
    else if radix == 15 then 32
    else if radix == 16 then 16
    else if radix == 17 then 31
    else if radix == 18 then 30
    else if radix == 19 then 30
    else if radix == 20 then 29
    else if radix == 21 then 29
    else if radix == 22 then 28
    else if radix == 23 then 28
    else if radix == 24 then 27
    else if radix == 25 then 27
    else if radix == 26 then 27
    else if radix == 27 then 26
    else if radix == 28 then 26
    else if radix == 29 then 26
    else if radix == 30 then 26
    else if radix == 31 then 25
    else if radix == 32 then 12
    else if radix == 33 then 25
    else if radix == 34 then 25
    else if radix == 35 then 24
    else 24
  }

  // From this power of the radix on numbers are too large.
  function MaxExponent(radix: nat): int
    requires 2 <= radix <= RADIX_MAX
  {
    if radix == 2 then 1024
    else if radix == 3 then 647
    else if radix == 4 then 512
    else if radix == 5 then 442
    else if radix == 6 then 397
    else if radix == 7 then 365
    else if radix == 8 then 342
    else if radix == 9 then 324
    else if radix == 10 then 309
    else if radix == 11 then 297
    else if radix == 12 then 286
    else if radix == 13 then 277
    else if radix == 14 then 269
    else if radix == 15 then 263
    else if radix == 16 then 256
    else if radix == 17 then 251
    else if radix == 18 then 246
    else if radix == 19 then 242
    else if radix == 20 then 237
    else if radix == 21 then 234
    else if radix == 22 then 230
    else if radix == 23 then 227
    else if radix == 24 then 224
    else if radix == 25 then 221
    else if radix == 26 then 218
    else if radix == 27 then 216
    else if radix == 28 then 214
    else if radix == 29 then 211
    else if radix == 30 then 209
    else if radix == 31 then 207
    else if radix == 32 then 205
    else if radix == 33 then 203
    else if radix == 34 then 202
    else if radix == 35 then 200
    else 199
  }

  // Below this power of the radix numbers round to zero.
  function MinExponent(radix: nat): int
    requires 2 <= radix <= RADIX_MAX
  {
    if radix == 2 then -1075
    else if radix == 3 then -679
    else if radix == 4 then -538
    else if radix == 5 then -463
    else if radix == 6 then -416
    else if radix == 7 then -383
    else if radix == 8 then -359
    else if radix == 9 then -340
    else if radix == 10 then -324
    else if radix == 11 then -311
    else if radix == 12 then -300
    else if radix == 13 then -291
    else if radix == 14 then -283
    else if radix == 15 then -276
    else if radix == 16 then -269
    else if radix == 17 then -263
    else if radix == 18 then -258
    else if radix == 19 then -254
    else if radix == 20 then -249
    else if radix == 21 then -245
    else if radix == 22 then -242
    else if radix == 23 then -238
    else if radix == 24 then -235
    else if radix == 25 then -232
    else if radix == 26 then -229
    else if radix == 27 then -227
    else if radix == 28 then -224
    else if radix == 29 then -222
    else if radix == 30 then -220
    else if radix == 31 then -217
    else if radix == 32 then -215
    else if radix == 33 then -214
    else if radix == 34 then -212
    else if radix == 35 then -210
    else -208
  }

  // ---- The digits fit in four limbs ----

  lemma DigitsAreLog(radix: nat)
    requires 2 <= radix <= RADIX_MAX && !PowerOfTwo(radix)
    ensures AtodMaxDigits(radix) == MulLog2Radix(128, radix)
  {
  }

  lemma WholeLog(radix: nat, n: nat, k: nat)
    requires radix > 0 && RP(radix, n) <= Two(k) < RP(radix, n + 1)
    ensures Pow(radix, n) <= Pow(2, k) < Pow(radix, n + 1)
  {
    TwoNat(k);
  }

  // As many digits as 128 bits can hold, and in a power of two as many as 64 bits can.
  lemma AtodDigitsExact(radix: nat)
    requires 2 <= radix <= RADIX_MAX
    ensures var n := AtodMaxDigits(radix);
      if PowerOfTwo(radix) then n * RadixBits(radix) <= 64 < (n + 1) * RadixBits(radix)
      else Pow(radix, n) <= Pow(2, 128) < Pow(radix, n + 1)
  {
    if !PowerOfTwo(radix) {
      DigitsAreLog(radix);
      LogIsExact(128, radix);
      WholeLog(radix, AtodMaxDigits(radix), 128);
    }
  }

  lemma AtodDigitsFit(radix: nat)
    requires 2 <= radix <= RADIX_MAX
    ensures Pow(radix, AtodMaxDigits(radix)) <= Pow(B, 4)
  {
    AtodDigitsExact(radix);
    FourLimbsIs(128);
    if PowerOfTwo(radix) {
      RadixBitsIs(radix);
      BitsFit(RadixBits(radix), AtodMaxDigits(radix), 128);
    }
  }

  lemma FourLimbsIs(k: nat)
    requires k == 128
    ensures Pow(2, k) == Pow(B, 4)
  {
    Pow2Is32();
    PowPow(2, 32, 4);
  }

  lemma BitsFit(bits: nat, n: nat, k: nat)
    requires n * bits <= 64 <= k
    ensures Pow(Pow(2, bits), n) <= Pow(2, k)
  {
    PowPow(2, bits, n);
    assert bits * n == n * bits;
    PowMono(2, bits * n, k);
  }

  // ---- The limits for exponents ----

  lemma LimitsAreLogs(radix: nat)
    requires 2 <= radix <= RADIX_MAX && !PowerOfTwo(radix)
    ensures MaxExponent(radix) == MulLog2Radix(1024, radix) + 1 && MinExponent(radix) == MulLog2Radix(-1075, radix)
  {
  }

  // The largest exponent is the first power above 2^1024, and the smallest the last one that is not above 2^-1075.
  lemma LimitsAreExact(radix: nat)
    requires 2 <= radix <= RADIX_MAX && !PowerOfTwo(radix)
    ensures RP(radix, MaxExponent(radix) - 1) <= Two(1024) < RP(radix, MaxExponent(radix))
    ensures RP(radix, MinExponent(radix)) <= Two(-1075) < RP(radix, MinExponent(radix) + 1)
  {
    LimitsAreLogs(radix);
    LogIsExact(1024, radix);
    LogIsExact(-1075, radix);
  }
}
