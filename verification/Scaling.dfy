// Scaling a number by a power of the radix: exactly for positive powers, and for negative ones by a chain
// of divisions that keeps a sticky bit.
module Scaling {
  import opened Arith
  import opened Powers
  import opened Limbs
  import opened InvDiv
  import opened Rounding
  import opened Bignum
  import opened RadixPower

  predicate OddRadix(r: nat) {
    r % 2 == 1 && 1 <= r < RADIX_MAX
  }

  // v * r^f
  function Times(v: nat, r: nat, f: int): real
    requires r > 0
  {
    if f >= 0 then (v * Pow(r, f)) as real
    else
      PowPos(r, -f);
      v as real / Pow(r, -f) as real
  }

  // v * r^f * 2^k, to the sticky bit.
  function StickyTimes(v: nat, r: nat, f: int, k: int): int
    requires r > 0
  {
    StickyProduct(Times(v, r, f), Two(k))
  }

  function StickyProduct(x: real, t: real): int {
    Sticky(x * t)
  }

  // ---- One limb at a time ----

  method MulInto(a: Mpb, b: Limb)
    requires a.Valid() && a.Normal() && a.Value() > 0 && b > 0 && a.len < a.tab.Length
    modifies a`len, a.tab
    ensures a.Valid() && a.Normal() && a.Value() == old(a.Value()) * b && a.len <= old(a.len) + 1
  {
    ghost var v, n := a.Value(), a.len;
    TopLimb(a.tab[..a.len]);
    var h := Mul1(a.tab, a.len, b, 0);
    ghost var lo := a.tab[..a.len];
    if h != 0 {
      a.tab[a.len] := h;
      assert a.tab[..a.len + 1] == lo + [h];
      ValPush(lo, h);
      a.len := a.len + 1;
      Commute(Pow(B, n), h);
    } else {
      MulAtLeast(v, b);
      TopLimb(lo);
    }
  }

  method DivInto(a: Mpb, b: Limb, inverse: Limb, shift: nat, ghost b0: nat) returns (r: Limb)
    requires a.Valid() && B / 2 <= b && IsInverse(b, inverse) && shift < LIMB_BITS && b == b0 * Pow(2, shift) && b0 > 0
    modifies a`len, a.tab
    ensures a.Valid() && a.Normal() && a.len <= old(a.len)
    ensures old(a.Value()) == a.Value() * b0 + r && r < b0
  {
    r := Div1Norm(a.tab, a.len, b, 0, inverse, shift, b0);
    a.Renorm();
  }

  // ---- Positive powers ----

  method MulPowUp(a: Mpb, radix: nat, f0: nat)
    requires OddRadix(radix) && radix > 1 && a.Valid() && a.Normal() && a.Value() > 0
    requires a.len + LimbsFor(radix, f0) <= a.tab.Length
    modifies a`len, a.tab
    ensures a.Valid() && a.Normal() && a.Value() == old(a.Value()) * Pow(radix, f0)
    ensures a.len <= old(a.len) + LimbsFor(radix, f0)
  {
    DigitsFit(radix);
    var d := DigitsPerLimb(radix);
    var f: nat, b: nat, n0: nat := f0, 0, 0;
    ghost var v := a.Value();
    assert Pow(radix, 0) == 1;
    while f != 0
      invariant f <= f0 && n0 <= d
      invariant a.Valid() && a.Normal() && Scaled(v, a.Value(), radix, f0 - f)
      invariant a.len + LimbsFor(radix, f) <= old(a.len) + LimbsFor(radix, f0)
      invariant n0 > 0 ==> b == Pow(radix, n0)
      decreases f
    {
      var n := if f <= d then f else d;
      if n != n0 {
        ChunkFits(radix, n, d);
        b := PowUi(radix, n);
        Below64(Pow(radix, n));
        n0 := n;
      }
      ChunkFits(radix, n, d);
      FewerLimbs(radix, f, n);
      ghost var x := a.Value();
      MulInto(a, b);
      ScaledStep(v, x, radix, f0 - f, n, a.Value());
      f := f - n;
    }
  }

  predicate Scaled(v: nat, x: nat, radix: nat, k: nat) {
    x > 0 && x == v * Pow(radix, k)
  }

  lemma ScaledStep(v: nat, x: nat, radix: nat, k: nat, n: nat, y: nat)
    requires Scaled(v, x, radix, k) && Pow(radix, n) > 0 && y == x * Pow(radix, n)
    ensures Scaled(v, y, radix, k + n)
  {
    PowAdd(radix, k, n);
    Assoc3(v, Pow(radix, k), Pow(radix, n));
    MulPos(x, Pow(radix, n));
  }

  // How many limbs f digits need at most.
  function LimbsFor(radix: nat, f: nat): nat
    requires 2 <= radix <= RADIX_MAX
  {
    (f + DigitsPerLimb(radix) - 1) / DigitsPerLimb(radix)
  }

  lemma ChunkFits(radix: nat, n: nat, d: nat)
    requires radix > 0 && 0 < n <= d && Pow(radix, d) < B
    ensures 0 < Pow(radix, n) < B
  {
    PowPos(radix, n);
    PowMono(radix, n, d);
  }

  lemma FewerLimbs(radix: nat, f: nat, n: nat)
    requires 2 <= radix <= RADIX_MAX && 0 < f
    requires n == if f <= DigitsPerLimb(radix) then f else DigitsPerLimb(radix)
    ensures n <= f && LimbsFor(radix, f - n) + 1 == LimbsFor(radix, f)
  {
    var d := DigitsPerLimb(radix);
    var q, r := Parts(f - n + d - 1, d);
    if f <= d {
      DivModIs(d - 1, d, 0, d - 1);
      DivModIs(f + d - 1, d, 1, f - 1);
    } else {
      DivModIs(f + d - 1, d, q + 1, r);
    }
  }

  // ---- Negative powers ----

  // After divisions by factors with product p: the floor of the quotient, and whether anything was lost.
  predicate Chain(v0: nat, v: nat, p: nat, lost: bool) {
    p > 0 && v == v0 / p && (lost <==> v0 % p != 0)
  }

  lemma ChainStep(v0: nat, v: nat, p: nat, lost: bool, b: nat, q: nat, r: nat)
    requires Chain(v0, v, p, lost) && b > 0 && v == q * b + r && r < b
    ensures Chain(v0, q, p * b, lost || r != 0)
  {
    var x, lo := Parts(v0, p);
    DivSplit(lo, p, v, b);
    DivModIs(v, b, q, r);
    assert v0 == lo + p * v;
    LowZero(lo, p, r);
  }

  method DivChain(a: Mpb, radix: nat, f0: nat, ghost v0: nat) returns (rem: bool)
    requires OddRadix(radix) && radix > 1 && a.Valid() && a.Normal() && a.Value() == v0
    modifies a`len, a.tab
    ensures a.Valid() && a.Normal() && a.len <= old(a.len)
    ensures Chain(v0, a.Value(), Pow(radix, f0), rem)
  {
    DigitsFit(radix);
    var d := DigitsPerLimb(radix);
    var f: nat, b: Limb, inverse: Limb, shift: nat, n0: nat := f0, 0, 0, 0, 0;
    rem := false;
    ghost var b0 := 1;
    ChainStart(v0, radix);
    while f != 0
      invariant f <= f0 && n0 <= d
      invariant a.Valid() && a.Normal() && a.len <= old(a.len)
      invariant Chain(v0, a.Value(), Pow(radix, f0 - f), rem)
      invariant n0 > 0 ==> b0 == Pow(radix, n0) && b0 > 0 && shift < LIMB_BITS && b == b0 * Pow(2, shift)
      invariant n0 > 0 ==> B / 2 <= b && IsInverse(b, inverse)
      decreases f
    {
      var n := if f <= d then f else d;
      if n != n0 {
        ChunkFits(radix, n, d);
        b, inverse, shift := PowUiInv(radix, n);
        n0 := n;
        b0 := Pow(radix, n);
      }
      ghost var v := a.Value();
      var r := DivInto(a, b, inverse, shift, b0);
      ChainStep(v0, v, Pow(radix, f0 - f), rem, b0, a.Value(), r);
      PowAdd(radix, f0 - f, n);
      rem := rem || r != 0;
      f := f - n;
    }
  }

  lemma ChainStart(v0: nat, radix: nat)
    ensures Chain(v0, v0, Pow(radix, 0), false)
  {
    assert Pow(radix, 0) == 1;
  }

  // Set the last bit if something was lost.
  method SetSticky(a: Mpb, rem: bool)
    requires a.Valid() && a.Normal()
    modifies a.tab
    ensures a.Valid() && a.Normal()
    ensures a.Value() == if rem && old(a.Value()) % 2 == 0 then old(a.Value()) + 1 else old(a.Value())
  {
    ghost var rest := a.tab[1..a.len];
    assert a.tab[..a.len] == [a.tab[0]] + rest;
    ValFront(a.tab[0], rest);
    EvenPart(a.tab[0], B / 2 * Val(rest));
    if rem && a.tab[0] % 2 == 0 {
      a.tab[0] := a.tab[0] + 1;
      assert a.tab[..a.len] == [a.tab[0]] + rest;
      ValFront(a.tab[0], rest);
    }
  }

  // ---- The whole ----

  // How far a is shifted up before it is divided by radix^f, f being positive here.
  function ExtraBits(radix: nat, shift: nat, f: nat, isInt: bool, e: int, log2: int): int
    requires 2 <= radix <= RADIX_MAX
  {
    if isInt then Larger(2 + e - (f * shift + LimbsFor(radix, f) * LIMB_BITS), 0) else Larger(e - log2, 0)
  }

  function Larger(a: int, b: int): int {
    if a >= b then a else b
  }

  // The limbs that are needed on top of those of a.
  function LimbsNeeded(radix: nat, shift: nat, f: int, isInt: bool, e: int): nat
    requires 1 <= radix <= RADIX_MAX
  {
    if radix == 1 then 0
    else if f >= 0 then LimbsFor(radix, f)
    else LimbsFor(radix, -f) + Extra(ExtraBits(radix, shift, -f, isInt, e, 0))
  }

  // a := a * (radix * 2^shift)^f * 2^eOffset, with the last bit sticky when that is not an integer.
  // k is the power of two that goes beyond the one in the radix.
  method MulPow(a: Mpb, radix: nat, shift: nat, f: int, isInt: bool, e: int) returns (eOffset: int, ghost k: nat)
    requires OddRadix(radix) && a.Valid() && a.Normal() && a.Value() > 0
    requires a.len + LimbsNeeded(radix, shift, f, isInt, e) <= a.tab.Length
    modifies a`len, a.tab
    ensures a.Valid() && a.Normal() && eOffset == k - f * shift
    ensures a.len <= old(a.len) + LimbsNeeded(radix, shift, f, isInt, e)
    ensures a.Value() == StickyTimes(old(a.Value()), radix, f, k)
    ensures f >= 0 || radix == 1 ==> k == 0 && a.Value() as real == Times(old(a.Value()), radix, f)
    ensures f < 0 && radix > 1 ==> if isInt then eOffset >= e + 2 else e >= 0 ==> a.Value() >= Pow(2, e)
  {
    eOffset, k := -f * shift, 0;
    ghost var v := a.Value();
    if radix == 1 {
      NoPower(v, f);
    } else if f >= 0 {
      MulPowUp(a, radix, f);
      IntegerPower(v, radix, f);
    } else {
      eOffset, k := MulPowDown(a, radix, shift, -f, isInt, e);
      assert -f * shift == -(f * shift);
    }
  }

  method MulPowDown(a: Mpb, radix: nat, shift: nat, f: nat, isInt: bool, e: int) returns (eOffset: int, ghost k: nat)
    requires OddRadix(radix) && radix > 1 && f > 0 && a.Valid() && a.Normal() && a.Value() > 0
    requires a.len + LimbsNeeded(radix, shift, 0 - f, isInt, e) <= a.tab.Length
    modifies a`len, a.tab
    ensures a.Valid() && a.Normal() && eOffset == f * shift + k
    ensures a.len <= old(a.len) + LimbsNeeded(radix, shift, 0 - f, isInt, e)
    ensures a.Value() == StickyTimes(old(a.Value()), radix, 0 - f, k)
    ensures if isInt then eOffset >= e + 2 else e >= 0 ==> a.Value() >= Pow(2, e)
  {
    ghost var v := a.Value();
    var l := LimbsFor(radix, f);
    var log2 := a.FloorLog2();
    var extra: nat := ExtraBits(radix, shift, f, isInt, e, log2);
    ExtraMono(l, extra, ExtraBits(radix, shift, f, isInt, e, 0));
    var up: nat := l * LIMB_BITS + extra;
    k := up;
    eOffset := f * shift + up;
    LeftIs(v, 0 - up, TowardZero);
    a.ShrRound(0 - up, TowardZero);
    PowPos(2, up);
    MulPos(v, Pow(2, up));
    ghost var v0 := a.Value();
    assert v0 == v * Pow(2, up);
    var rem := DivChain(a, radix, f, v0);
    ghost var q := a.Value();
    SetSticky(a, rem);
    PowPos(radix, f);
    StickyQuotient(v, radix, f, up, v0, q, rem);
    if !isInt && e >= 0 {
      LargeEnough(v, log2, e, extra, l, radix, f, v0, q);
    }
  }

  // v / p * 2^up to the sticky bit, from a chain of divisions.
  lemma StickyQuotient(v: nat, radix: nat, f: nat, up: nat, v0: nat, q: nat, rem: bool)
    requires radix > 1 && f > 0 && v0 == v * Pow(2, up) && Chain(v0, q, Pow(radix, f), rem)
    ensures StickyTimes(v, radix, 0 - f, up) == if rem && q % 2 == 0 then q + 1 else q
  {
    TwoNat(up);
    ProductReal(v, Pow(2, up));
    StickyBy(v, Pow(radix, f), Two(up), Times(v, radix, 0 - f), v0, q, rem);
  }

  lemma StickyBy(v: nat, p: nat, t: real, x: real, v0: nat, q: nat, rem: bool)
    requires p > 0 && x == v as real / p as real && v0 as real == v as real * t && Chain(v0, q, p, rem)
    ensures StickyProduct(x, t) == if rem && q % 2 == 0 then q + 1 else q
  {
    QuotientReal(v as real, p as real, t, v0 as real);
    StickyOf(x * t, v0, p);
  }

  lemma QuotientReal(v: real, p: real, t: real, v0: real)
    requires p > 0.0 && v0 == v * t
    ensures (v / p * t) * p == v0
  {
    var x := v / p;
    assert x * p == v;
    assert (x * t) * p == (x * p) * t;
  }

  lemma StickyOf(y: real, n: nat, d: nat)
    requires d > 0 && y * d as real == n as real
    ensures Sticky(y) == if n % d != 0 && n / d % 2 == 0 then n / d + 1 else n / d
  {
    var q, r := Parts(n, d);
    Fraction(y, y - q as real, n, d, q, r);
    FloorIs(y, q);
    Compare(y - q as real, r as real, d as real, 0.0) by {
      assert (q * d) as real == q as real * d as real;
      assert (y - q as real) * d as real == y * d as real - q as real * d as real;
    }
  }

  lemma NoPower(v: nat, f: int)
    ensures Times(v, 1, f) == v as real && StickyTimes(v, 1, f, 0) == v
  {
    OneToThe(if f >= 0 then f else -f);
  }

  lemma {:induction false} OneToThe(n: nat)
    ensures Pow(1, n) == 1
  {
    if n > 0 {
      OneToThe(n - 1);
    }
  }

  lemma IntegerPower(v: nat, radix: nat, f: nat)
    requires radix > 0
    ensures StickyTimes(v, radix, f, 0) == v * Pow(radix, f)
    ensures (v * Pow(radix, f)) as real == Times(v, radix, f)
  {
  }

  lemma ExtraMono(l: nat, x: int, y: int)
    requires 0 <= x <= y
    ensures Extra(l * LIMB_BITS + x) <= l + Extra(y)
  {
  }

  // The quotient keeps e bits and more.
  lemma LargeEnough(v: nat, log2: nat, e: nat, extra: nat, l: nat, radix: nat, f: nat, v0: nat, q: nat)
    requires OddRadix(radix) && radix > 1 && l == LimbsFor(radix, f) && extra == Larger(e - log2, 0)
    requires Pow(2, log2) <= v && v0 == v * Pow(2, l * LIMB_BITS + extra)
    requires Pow(radix, f) > 0 && q == v0 / Pow(radix, f)
    ensures q >= Pow(2, e)
  {
    var p, r := Pow(radix, f), Pow(B, l);
    PowInLimbs(radix, f, l);
    PowLimb(l * LIMB_BITS + extra, l, extra);
    PowAdd(2, log2, extra);
    PowMono(2, e, log2 + extra);
    var w := v * Pow(2, extra);
    MulLe(Pow(2, log2), v, Pow(2, extra), Pow(2, extra));
    assert v0 == w * r by {
      Assoc3(v, Pow(2, extra), r);
      Commute(Pow(2, extra), r);
    }
    MulLe(Pow(2, e), w, p, r);
    var q', m := Parts(v0, p);
    AtLeast(q, m, p, Pow(2, e));
  }

  lemma AtLeast(q: nat, m: nat, p: nat, x: nat)
    requires q * p + m >= x * p && m < p
    ensures q >= x
  {
    assert (q + 1) * p == q * p + p;
    if q < x {
      MulLe(q + 1, x, p, p);
    }
  }

  // f digits fit in the limbs counted for them.
  lemma {:induction false} PowInLimbs(radix: nat, f: nat, l: nat)
    requires OddRadix(radix) && radix > 1 && l == LimbsFor(radix, f)
    ensures Pow(radix, f) <= Pow(B, l)
    decreases f
  {
    var d := DigitsPerLimb(radix);
    DigitsFit(radix);
    if f == 0 {
      DivModIs(d - 1, d, 0, d - 1);
    } else {
      var n := if f <= d then f else d;
      FewerLimbs(radix, f, n);
      PowInLimbs(radix, f - n, l - 1);
      PowAdd(radix, n, f - n);
      ChunkFits(radix, n, d);
      MulLe(Pow(radix, n), B, Pow(radix, f - n), Pow(B, l - 1));
    }
  }
}
