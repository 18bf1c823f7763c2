// Unsigned numbers of any length in a buffer of limbs.
module Bignum {
  import opened Arith
  import opened Powers
  import opened Limbs
  import opened Rounding

  // ---- Bits of a limb sequence ----

  lemma {:induction false} ValZeros(s: seq<Limb>)
    ensures Val(s) == 0 <==> forall i :: 0 <= i < |s| ==> s[i] == 0
  {
    if s != [] {
      ValZeros(s[1..]);
      if Val(s) == 0 {
        forall i | 0 <= i < |s|
          ensures s[i] == 0
        {
          assert i > 0 ==> s[i] == s[1..][i - 1];
        }
      }
    }
  }

  // Cutting l limbs off.
  lemma ValDrop(s: seq<Limb>, l: nat)
    requires l <= |s|
    ensures Val(s) == Val(s[..l]) + Pow(B, l) * Val(s[l..]) && Val(s[..l]) < Pow(B, l)
  {
    assert s == s[..l] + s[l..];
    ValConcat(s[..l], s[l..]);
    ValBound(s[..l]);
  }

  // Position k is bit j of limb l.
  lemma PowLimb(k: nat, l: nat, j: nat)
    requires k == l * LIMB_BITS + j
    ensures Pow(2, k) == Pow(B, l) * Pow(2, j)
  {
    PowAdd(2, l * LIMB_BITS, j);
    PowPow(2, LIMB_BITS, l);
    Pow2Is32();
    assert LIMB_BITS * l == l * LIMB_BITS;
  }

  // Dividing lo + p * x by p * d, where lo < p.
  lemma DivSplit(lo: nat, p: nat, x: nat, d: nat)
    requires lo < p && d > 0
    ensures p * d > 0
    ensures (lo + p * x) / (p * d) == x / d
    ensures (lo + p * x) % (p * d) == lo + p * (x % d)
  {
    var q, r := Parts(x, d);
    MulPos(p, d);
    assert p * x == q * (p * d) + p * r by {
      assert p * (q * d + r) == p * (q * d) + p * r;
      Assoc3(p, q, d);
      Assoc3(q, p, d);
      assert p * q == q * p;
    }
    assert lo + p * r < p * d by {
      MulLe(p, p, r + 1, d);
      assert p * (r + 1) == p * r + p;
    }
    DivModIs(lo + p * x, p * d, q, lo + p * r);
  }

  // The low bits of a number whose lowest limb is a.
  lemma LowLimb(a: Limb, x: nat, j: nat)
    requires j < LIMB_BITS
    ensures var d := Pow(2, j); d > 0 && (a + B * x) % d == a % d && (a + B * x) / d % 2 == a / d % 2
  {
    PowPos(2, j);
    PowAdd(2, j, LIMB_BITS - j);
    Pow2Is32();
    PowDouble(LIMB_BITS - j);
    LowLimbBy(a, x, Pow(2, j), Pow(2, LIMB_BITS - j - 1));
  }

  lemma PowDouble(n: nat)
    requires n > 0
    ensures Pow(2, n) == 2 * Pow(2, n - 1)
  {
  }

  lemma LowLimbBy(a: nat, x: nat, d: nat, e: nat)
    requires d > 0 && B == d * (2 * e)
    ensures (a + B * x) % d == a % d && (a + B * x) / d % 2 == a / d % 2
  {
    var q, r := Parts(a, d);
    Assoc3(d, 2 * e, x);
    Assoc3(2, e, x);
    assert B * x == (2 * (e * x)) * d;
    assert a + B * x == (q + 2 * (e * x)) * d + r;
    DivModIs(a + B * x, d, q + 2 * (e * x), r);
    EvenPart(q, e * x);
  }

  lemma EvenPart(q: nat, x: nat)
    ensures (q + 2 * x) % 2 == q % 2
  {
  }

  // Bit k of a number and the bits below it, from its limbs.
  lemma BitsAt(s: seq<Limb>, k: nat, l: nat, j: nat)
    requires k == l * LIMB_BITS + j && j < LIMB_BITS
    ensures Pow(2, k) > 0 && Pow(2, j) > 0
    ensures Val(s) / Pow(2, k) % 2 == if l < |s| then s[l] / Pow(2, j) % 2 else 0
    ensures Val(s) % Pow(2, k) != 0
       <==> (exists i :: 0 <= i < l && i < |s| && s[i] != 0) || (l < |s| && s[l] % Pow(2, j) != 0)
  {
    PowLimb(k, l, j);
    PowPos(2, k);
    PowPos(2, j);
    if l < |s| {
      ValDrop(s, l);
      DivSplit(Val(s[..l]), Pow(B, l), Val(s[l..]), Pow(2, j));
      assert s[l..][0] == s[l];
      LowLimb(s[l], Val(s[l..][1..]), j);
      ValZeros(s[..l]);
      LowZero(Val(s[..l]), Pow(B, l), Val(s[l..]) % Pow(2, j));
      assert forall i :: 0 <= i < l ==> s[..l][i] == s[i];
    } else {
      Below(s, l, j);
      ValZeros(s);
    }
  }

  lemma LowZero(lo: nat, p: nat, m: nat)
    requires p > 0
    ensures lo + p * m == 0 <==> lo == 0 && m == 0
  {
    if m > 0 {
      MulPos(p, m);
    }
  }

  // Limbs that do not reach up to a power.
  lemma Below(s: seq<Limb>, l: nat, j: nat)
    requires |s| <= l
    ensures var p := Pow(B, l) * Pow(2, j); Val(s) < p && Val(s) / p == 0 && Val(s) % p == Val(s)
  {
    ValBound(s);
    PowMono(B, |s|, l);
    PowPos(2, j);
    MulAtLeast(Pow(B, l), Pow(2, j));
    DivModIs(Val(s), Pow(B, l) * Pow(2, j), 0, Val(s));
  }

  // The top limb is set when the number is as large as its length says.
  lemma TopLimb(s: seq<Limb>)
    requires |s| > 0
    ensures s[|s| - 1] != 0 <==> Val(s) >= Pow(B, |s| - 1)
  {
    var n := |s| - 1;
    assert s == s[..n] + [s[n]];
    ValPush(s[..n], s[n]);
    ValBound(s[..n]);
    if s[n] > 0 {
      MulLe(Pow(B, n), Pow(B, n), 1, s[n]);
    }
  }

  lemma TwoLimbs(s: seq<Limb>)
    requires |s| == 2
    ensures Val(s) == s[0] + B * s[1]
  {
    assert s == [s[0]] + [s[1]];
    ValFront(s[0], [s[1]]);
    ValOne(s[1]);
  }

  // ---- The number of bits ----

  function BitLen(v: nat): nat {
    if v == 0 then 0 else 1 + BitLen(v / 2)
  }

  lemma {:induction false} BitLenIs(v: nat)
    requires v > 0
    ensures BitLen(v) > 0 && Pow(2, BitLen(v) - 1) <= v < Pow(2, BitLen(v))
  {
    if v > 1 {
      BitLenIs(v / 2);
    } else {
      assert BitLen(1) == 1 + BitLen(0) && Pow(2, 0) == 1 && Pow(2, 1) == 2 * Pow(2, 0);
    }
  }

  lemma BitLenLimb(v: Limb)
    ensures BitLen(v) <= LIMB_BITS
  {
    if BitLen(v) > LIMB_BITS {
      BitLenIs(v);
      PowMono(2, LIMB_BITS, BitLen(v) - 1);
      Pow2Is32();
    }
  }

  // Count of leading zeros.
  function Clz32(v: Limb): nat {
    BitLenLimb(v);
    LIMB_BITS - BitLen(v)
  }

  // ---- The buffer ----

  class Mpb {
    const tab: array<Limb>
    var len: nat

    constructor (size: nat)
      requires size > 0
      ensures Valid() && fresh(tab) && tab.Length == size && Value() == 0 && len == 1
    {
      tab := new Limb[size](_ => 0);
      len := 1;
      new;
      assert tab[..1] == [0];
      ValOne(0);
    }

    ghost predicate Valid()
      reads this
    {
      1 <= len <= tab.Length
    }

    ghost function Value(): nat
      reads this, tab
      requires Valid()
    {
      Val(tab[..len])
    }

    // The top limb is set, unless there is only one.
    ghost predicate Normal()
      reads this, tab
      requires Valid()
    {
      len == 1 || tab[len - 1] != 0
    }

    method Renorm()
      requires Valid()
      modifies this`len
      ensures Valid() && Normal() && Value() == old(Value()) && len <= old(len)
    {
      while len > 1 && tab[len - 1] == 0
        invariant 1 <= len <= old(len) && Val(tab[..len]) == old(Val(tab[..len]))
      {
        assert tab[..len] == tab[..len - 1] + [0];
        ValPush(tab[..len - 1], 0);
        len := len - 1;
      }
    }

    method GetBit(k: nat) returns (bit: nat)
      requires Valid()
      ensures Pow(2, k) > 0 && bit == Value() / Pow(2, k) % 2
    {
      var l, j := k / LIMB_BITS, k % LIMB_BITS;
      BitsAt(tab[..len], k, l, j);
      bit := if l >= len then 0 else tab[l] / Pow(2, j) % 2;
    }

    // Is one of the k lowest bits set?
    method AnyBelow(k: nat) returns (any: bool)
      requires Valid()
      ensures Pow(2, k) > 0 && (any <==> Value() % Pow(2, k) != 0)
    {
      var l, j := k / LIMB_BITS, k % LIMB_BITS;
      BitsAt(tab[..len], k, l, j);
      any := false;
      var i := 0;
      while i < l && i < len
        invariant 0 <= i <= l && i <= len
        invariant any <==> exists m :: 0 <= m < i && tab[..len][m] != 0
      {
        any := any || tab[i] != 0;
        assert tab[..len][i] == tab[i];
        i := i + 1;
      }
      if l < len {
        any := any || tab[l] % Pow(2, j) != 0;
      }
    }

    // Position of the highest bit that is set, or -1.
    method FloorLog2() returns (k: int)
      requires Valid() && Normal()
      ensures Value() == 0 <==> k == -1
      ensures Value() > 0 ==> k >= 0 && Pow(2, k) <= Value() < Pow(2, k + 1)
    {
      var v := tab[len - 1];
      ghost var lo := tab[..len - 1];
      assert tab[..len] == lo + [v];
      ValPush(lo, v);
      if v == 0 {
        assert tab[..1] == [0];
        ValOne(0);
        return -1;
      }
      k := len * LIMB_BITS - 1 - Clz32(v);
      BitLenIs(v);
      BitLenLimb(v);
      ValBound(lo);
      PowPos(B, len - 1);
      TopBit(Val(lo), v, len - 1, BitLen(v), k);
      MulPos(Pow(B, len - 1), v);
    }

    method SetU64(m: nat)
      requires Valid() && tab.Length >= 2 && m < B * B
      modifies this`len, tab
      ensures Valid() && Normal() && Value() == m && len <= 2
    {
      DivBelow(m, B, B);
      tab[0] := m % B;
      tab[1] := m / B;
      TwoLimbs(tab[..2]);
      len := 2;
      if tab[1] == 0 {
        len := 1;
        assert tab[..1] == [tab[0]];
        ValOne(tab[0]);
      }
    }

    // The low 64 bits.
    method GetU64() returns (m: nat)
      requires Valid()
      ensures m < B * B && m == Value() % (B * B)
    {
      if len == 1 {
        m := tab[0];
        assert tab[..1] == [tab[0]];
        ValOne(tab[0]);
      } else {
        m := tab[0] + tab[1] * B;
        TwoLimbs(tab[..2]);
        assert tab[..len] == tab[..2] + tab[2..len];
        ValConcat(tab[..2], tab[2..len]);
        assert Pow(B, 2) == B * (B * Pow(B, 0));
        DivModIs(Value(), B * B, Val(tab[2..len]), m);
      }
    }

    // ---- Shifting with rounding ----

    // Does rounding the lost bits add one?
    method RoundsUp(shift: nat, mode: Mode) returns (up: bool)
      requires Valid() && shift > 0
      ensures Pow(2, shift) > 0
      ensures RoundDiv(Value(), Pow(2, shift), mode) == Value() / Pow(2, shift) + if up then 1 else 0
    {
      PowDouble(shift);
      PowPos(2, shift - 1);
      RoundBits(Value(), Pow(2, shift - 1), mode);
      if mode == TowardZero {
        return false;
      }
      var bit1 := GetBit(shift - 1);
      if bit1 == 0 {
        return false;
      }
      var bit2 := true;
      if mode != NearestAway {
        bit2 := AnyBelow(shift - 1);
      }
      if bit2 {
        return true;
      }
      var last := GetBit(shift);
      up := last == 1;
    }

    // Move the limbs l places up and clear the places below.
    method MoveUp(l: nat)
      requires Valid() && len + l <= tab.Length
      modifies this`len, tab
      ensures Valid() && len == old(len) + l && Value() == Pow(B, l) * old(Value())
      ensures old(Normal()) && Value() > 0 ==> Normal()
    {
      ghost var was, n := tab[..len], len;
      if Normal() {
        TopOfNormal(was);
      }
      CopyUp(l);
      ClearBelow(l);
      len := len + l;
      assert tab[..len][l..] == tab[l..][..n];
      MovedUp(tab[..len], was, l);
      ZeroTimes(Pow(B, l), Val(was));
      assert tab[len - 1] == tab[..len][l..][n - 1];
    }

    method CopyUp(l: nat)
      requires Valid() && len + l <= tab.Length
      modifies tab
      ensures tab[l..][..len] == old(tab[..len])
    {
      ghost var was := tab[..len];
      var i := len;
      while i > 0
        invariant 0 <= i <= len
        invariant tab[..i] == was[..i] && tab[i + l..len + l] == was[i..]
      {
        i := i - 1;
        ghost var hi := tab[i + 1 + l..len + l];
        assert tab[i] == was[i] by {
          assert tab[..i + 1][i] == was[..i + 1][i];
        }
        assert tab[..i] == was[..i] by {
          assert tab[..i + 1][..i] == was[..i + 1][..i];
        }
        tab[i + l] := tab[i];
        assert tab[i + l..len + l] == [was[i]] + hi;
      }
      assert tab[l..][..len] == tab[0 + l..len + l];
    }

    method ClearBelow(l: nat)
      requires l <= tab.Length
      modifies tab
      ensures tab[l..] == old(tab[l..]) && forall m :: 0 <= m < l ==> tab[m] == 0
    {
      ghost var was := tab[l..];
      var i := 0;
      while i < l
        invariant 0 <= i <= l && tab[l..] == was
        invariant forall m :: 0 <= m < i ==> tab[m] == 0
      {
        tab[i] := 0;
        i := i + 1;
      }
    }

    // Move the limbs l places down, over the lowest ones.
    method MoveDown(l: nat)
      requires Valid() && l < len
      modifies this`len, tab
      ensures Valid() && len == old(len) - l && tab[..len] == old(tab[l..len])
    {
      ghost var was := tab[..len];
      len := len - l;
      var i := 0;
      while i < len
        invariant 0 <= i <= len && len + l == |was| <= tab.Length
        invariant forall m :: 0 <= m < i ==> tab[m] == was[m + l]
        invariant forall m :: i <= m < len + l ==> tab[m] == was[m]
      {
        tab[i] := tab[i + l];
        i := i + 1;
      }
      assert tab[..len] == was[l..];
    }

    // A shift left by less than a limb.
    method ShlBits(s: nat)
      requires Valid() && 0 < s < LIMB_BITS && len < tab.Length
      modifies this`len, tab
      ensures Valid() && Normal() && len <= old(len) + 1 && Value() == old(Value()) * Pow(2, s)
    {
      PowPos(2, s);
      var carry := Shl(tab, len, s, 0);
      ghost var lo := tab[..len];
      tab[len] := carry;
      assert tab[..len + 1] == lo + [carry];
      ValPush(lo, carry);
      len := len + 1;
      assert Value() == Val(lo) + Pow(B, |lo|) * carry;
      Commute(Pow(B, |lo|), carry);
      Renorm();
    }

    method ShiftUp(n: nat)
      requires Valid() && len + Extra(n) <= tab.Length
      modifies this`len, tab
      ensures Valid() && len <= old(len) + Extra(n) && Value() == old(Value()) * Pow(2, n)
      ensures old(Normal()) && Value() > 0 ==> Normal()
    {
      var l, s := n / LIMB_BITS, n % LIMB_BITS;
      ghost var v := Value();
      if s != 0 {
        ShlBits(s);
      } else {
        assert Pow(2, 0) == 1;
      }
      ghost var v1 := Value();
      if l > 0 {
        MoveUp(l);
      } else {
        assert Pow(B, 0) == 1;
      }
      ShiftedUp(v, v1, Value(), n, l, s);
    }

    // The limbs after l whole limbs have been dropped.
    method DropLimbs(l: nat)
      requires Valid() && l < len
      modifies this`len, tab
      ensures Valid() && len == old(len) - l && Pow(B, l) > 0 && Value() == old(Value()) / Pow(B, l)
      ensures old(Normal()) ==> Normal()
    {
      ghost var was := tab[..len];
      PowPos(B, l);
      ValDrop(was, l);
      DivModIs(Val(was), Pow(B, l), Val(was[l..]), Val(was[..l])) by {
        assert Pow(B, l) * Val(was[l..]) == Val(was[l..]) * Pow(B, l);
      }
      if l > 0 {
        MoveDown(l);
        assert len > 1 ==> tab[..len][len - 1] == was[l..][len - 1];
      } else {
        assert was[0..] == was;
        assert Pow(B, 0) == 1;
      }
    }

    // A shift right by less than a limb.
    method ShrBits(s: nat)
      requires Valid() && 0 < s < LIMB_BITS
      modifies this`len, tab
      ensures Valid() && Normal() && len <= old(len) && Pow(2, s) > 0 && Value() == old(Value()) / Pow(2, s)
    {
      PowPos(2, s);
      ghost var v := Value();
      var rem := Shr(tab, len, s, 0);
      assert Low(0, s) == 0;
      DivModIs(v, Pow(2, s), Value(), rem);
      Renorm();
    }

    method AddOne()
      requires Valid() && (len < tab.Length || Value() + 1 < Pow(B, len))
      modifies this`len, tab
      ensures Valid() && Value() == old(Value()) + 1
      ensures len == old(len) || (len == old(len) + 1 && old(Value()) + 1 >= Pow(B, old(len)))
      ensures old(Normal()) ==> Normal()
    {
      ghost var was := tab[..len];
      ghost var n := len;
      var a := AddUi(tab, 1, len);
      ghost var lo := tab[..len];
      ValBound(lo);
      ValBound(was);
      CarryOne(Val(lo), a, Pow(B, len), Val(was));
      TopLimb(was);
      if a != 0 {
        tab[len] := a;
        assert tab[..len + 1] == lo + [a];
        ValPush(lo, a);
        len := len + 1;
      } else {
        TopLimb(lo);
      }
    }

    // r := round(r / 2^shift)
    method ShrRound(shift: int, mode: Mode)
      requires Valid() && (shift < 0 ==> len + Extra(-shift) <= tab.Length)
      modifies this`len, tab
      ensures Valid() && len <= old(len) + (if shift < 0 then Extra(-shift) else 0)
      ensures Value() == RoundShifted(old(Value()), shift, mode)
      ensures old(Normal()) && Value() > 0 ==> Normal()
    {
      ghost var v := Value();
      if shift <= 0 {
        LeftIs(v, shift, mode);
        if shift < 0 {
          ShiftUp(-shift);
        }
      } else {
        RightIs(v, shift, mode);
        var up := RoundsUp(shift, mode);
        ShiftDown(shift, up);
      }
    }

    method ShiftDown(shift: nat, up: bool)
      requires Valid() && shift > 0
      modifies this`len, tab
      ensures Valid() && len <= old(len) && Pow(2, shift) > 0
      ensures Value() == old(Value()) / Pow(2, shift) + if up then 1 else 0
      ensures old(Normal()) ==> Normal()
    {
      var l, s := shift / LIMB_BITS, shift % LIMB_BITS;
      PowLimb(shift, l, s);
      PowPos(2, shift);
      if l >= len {
        Below(tab[..len], l, s);
        len := 1;
        tab[0] := if up then 1 else 0;
        assert tab[..1] == [tab[0]];
        ValOne(tab[0]);
      } else {
        ghost var len0 := len;
        ShiftLimbsAndBits(l, s);
        if up {
          AddOne();
        }
      }
    }

    method ShiftLimbsAndBits(l: nat, s: nat)
      requires Valid() && l < len && s < LIMB_BITS && (l > 0 || s > 0)
      modifies this`len, tab
      ensures Valid() && len <= old(len) && Pow(B, l) * Pow(2, s) > 0
      ensures Value() == old(Value()) / (Pow(B, l) * Pow(2, s)) && (old(Normal()) ==> Normal())
      ensures len < old(len) || Value() + 1 < Pow(B, len)
    {
      ghost var v, len0 := Value(), len;
      PowPos(B, l);
      PowPos(2, s);
      DivTwice(v, Pow(B, l), Pow(2, s));
      DropLimbs(l);
      ghost var v1 := Value();
      ValBound(tab[..len]);
      if s != 0 {
        ShrBits(s);
      } else {
        assert Pow(2, 0) == 1;
      }
      RoomForOne(v1, s, Value(), len0, len, l);
    }
  }

  lemma ShiftedUp(v: nat, v1: nat, v2: nat, n: nat, l: nat, s: nat)
    requires n == l * LIMB_BITS + s && v1 == v * Pow(2, s) && v2 == Pow(B, l) * v1
    ensures v2 == v * Pow(2, n)
  {
    PowLimb(n, l, s);
    Assoc3(Pow(B, l), v, Pow(2, s));
    Assoc3(v, Pow(B, l), Pow(2, s));
  }

  // Limbs that a shift to the left can add.
  function Extra(n: nat): nat {
    n / LIMB_BITS + if n % LIMB_BITS != 0 then 1 else 0
  }

  lemma Commute(a: nat, b: nat)
    ensures a * b == b * a
  {
  }

  lemma ZeroTimes(p: nat, v: nat)
    ensures v == 0 ==> p * v == 0
  {
  }

  lemma TopOfNormal(s: seq<Limb>)
    requires |s| > 0 && (|s| == 1 || s[|s| - 1] != 0)
    ensures Val(s) > 0 ==> s[|s| - 1] != 0
  {
    if |s| == 1 {
      assert s == [s[0]];
      ValOne(s[0]);
    }
  }

  lemma MovedUp(s: seq<Limb>, was: seq<Limb>, l: nat)
    requires |s| == l + |was| && (forall m :: 0 <= m < l ==> s[m] == 0) && s[l..] == was
    ensures Val(s) == Pow(B, l) * Val(was)
  {
    assert s == s[..l] + was;
    ValConcat(s[..l], was);
    ValZeros(s[..l]);
  }

  lemma CarryOne(lo: nat, a: nat, p: nat, v: nat)
    requires lo + a * p == v + 1 && lo < p && v < p
    ensures a == 0 || (a == 1 && v + 1 >= p)
  {
    if a >= 2 {
      MulLe(2, a, p, p);
    }
  }

  lemma DivTwice(v: nat, p: nat, d: nat)
    requires p > 0 && d > 0
    ensures p * d > 0 && v / (p * d) == v / p / d
  {
    var x, lo := Parts(v, p);
    DivSplit(lo, p, x, d);
    assert v == lo + p * x;
  }

  // After a shift right there is room for a carry.
  lemma RoomForOne(v: nat, s: nat, w: nat, len0: nat, len: nat, l: nat)
    requires 0 < len <= len0 - l && v < Pow(B, len0 - l) && (l > 0 || s > 0)
    requires Pow(2, s) > 0 && w == v / Pow(2, s)
    ensures len < len0 || w + 1 < Pow(B, len)
  {
    if l == 0 && len == len0 {
      PowMono(2, 1, s);
      assert Pow(2, 1) == 2 * Pow(2, 0);
      PowMono(B, 1, len);
      assert Pow(B, 1) == B * Pow(B, 0);
      HalfAtMost(v, Pow(2, s));
    }
  }

  lemma HalfAtMost(v: nat, d: nat)
    requires d >= 2
    ensures v / d * 2 <= v
  {
    var q, r := Parts(v, d);
    MulLe(q, q, 2, d);
  }

  // round(v / 2^shift)
  ghost function RoundShifted(v: nat, shift: int, mode: Mode): int {
    RoundBy(v, Two(-shift), mode)
  }

  function RoundBy(v: nat, x: real, mode: Mode): int {
    Round(v as real * x, mode)
  }

  lemma LeftIs(v: nat, shift: int, mode: Mode)
    requires shift <= 0
    ensures RoundShifted(v, shift, mode) == v * Pow(2, -shift)
    ensures shift == 0 ==> RoundShifted(v, shift, mode) == v
  {
    TwoNat(-shift);
    RoundExact(v, Pow(2, -shift), Two(-shift), mode);
    assert Pow(2, 0) == 1;
  }

  lemma RoundExact(v: nat, p: nat, x: real, mode: Mode)
    requires x == p as real
    ensures RoundBy(v, x, mode) == v * p
  {
    ProductReal(v, p);
    RoundInt(v * p, mode);
  }

  lemma RightIs(v: nat, shift: int, mode: Mode)
    requires shift > 0
    ensures Pow(2, shift) > 0 && RoundShifted(v, shift, mode) == RoundDiv(v, Pow(2, shift), mode)
  {
    PowPos(2, shift);
    TwoNat(shift);
    TwoInverse(shift);
    RoundScaled(v, Pow(2, shift), Two(shift), Two(-shift), mode);
  }

  lemma ProductReal(a: nat, b: nat)
    ensures a as real * b as real == (a * b) as real
  {
  }

  // Multiplying by the inverse x of y = d.
  lemma RoundScaled(v: nat, d: nat, y: real, x: real, mode: Mode)
    requires d > 0 && y == d as real && y * x == 1.0
    ensures RoundBy(v, x, mode) == RoundDiv(v, d, mode)
  {
    Cancel(v as real, x, y);
    RoundByIs(v, x, v as real * x, d, mode);
  }

  lemma RoundByIs(v: nat, x: real, z: real, d: nat, mode: Mode)
    requires d > 0 && z == v as real * x && z * d as real == v as real
    ensures RoundBy(v, x, mode) == RoundDiv(v, d, mode)
  {
    RoundOf(z, v, d, mode);
  }

  lemma Cancel(v: real, x: real, y: real)
    requires y * x == 1.0
    ensures (v * x) * y == v
  {
    assert (v * x) * y == v * (y * x);
  }

  // The highest bit of lo + B^n * v is that of v.
  lemma TopBit(lo: nat, v: Limb, n: nat, b: nat, k: int)
    requires lo < Pow(B, n) && b > 0 && Pow(2, b - 1) <= v < Pow(2, b) && k == n * LIMB_BITS + b - 1
    ensures Pow(2, k) <= lo + Pow(B, n) * v < Pow(2, k + 1)
  {
    PowLimb(k, n, b - 1);
    PowLimb(k + 1, n, b);
    var p := Pow(B, n);
    MulLe(p, p, Pow(2, b - 1), v);
    MulLe(p, p, v + 1, Pow(2, b));
    assert p * (v + 1) == p * v + p;
  }
}
