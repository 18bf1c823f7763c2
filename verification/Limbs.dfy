// Multi-precision arithmetic on arrays of 32-bit limbs, the lowest limb first, in place.
module Limbs {
  import opened Arith
  import opened Powers

  const LIMB_BITS: nat := 32
  const B: nat := 0x1_0000_0000

  type Limb = x: nat | x < B

  // The number a limb sequence stands for.
  function Val(s: seq<Limb>): nat {
    if s == [] then 0 else s[0] + B * Val(s[1..])
  }

  lemma {:induction false} ValConcat(a: seq<Limb>, b: seq<Limb>)
    ensures Val(a + b) == Val(a) + Pow(B, |a|) * Val(b)
  {
    if a == [] {
      assert a + b == b;
    } else {
      assert (a + b)[1..] == a[1..] + b;
      ValConcat(a[1..], b);
      var x, p, y := Val(a[1..]), Pow(B, |a| - 1), Val(b);
      assert B * (x + p * y) == B * x + (B * p) * y by {
        Assoc3(B, p, y);
      }
    }
  }

  lemma ValPush(a: seq<Limb>, x: Limb)
    ensures Val(a + [x]) == Val(a) + Pow(B, |a|) * x
  {
    ValConcat(a, [x]);
    ValOne(x);
  }

  lemma ValOne(x: Limb)
    ensures Val([x]) == x
  {
    assert [x][1..] == [];
  }

  lemma ValFront(x: Limb, a: seq<Limb>)
    ensures Val([x] + a) == x + B * Val(a)
  {
    assert ([x] + a)[1..] == a;
  }

  lemma {:induction false} ValBound(a: seq<Limb>)
    ensures Val(a) < Pow(B, |a|)
  {
    if a != [] {
      ValBound(a[1..]);
      assert B * (Val(a[1..]) + 1) <= B * Pow(B, |a| - 1);
    }
  }

  // The or of two numbers that share no bit: the first is a multiple of the power of two p, the second is below p.
  function Or(a: nat, b: nat, p: nat): nat
    requires p > 0 && a % p == 0 && b < p
  {
    a + b
  }

  // ---- Addition of one limb ----

  method AddUi(tab: array<Limb>, b: Limb, n: nat) returns (k: Limb)
    requires n <= tab.Length
    modifies tab
    ensures Val(tab[..n]) + k * Pow(B, n) == Val(old(tab[..n])) + b
    ensures tab[n..] == old(tab[n..])
  {
    ghost var was := tab[..];
    k := b;
    MultipliedStart(was, 1, b);
    var i := 0;
    while i < n
      invariant 0 <= i <= n
      invariant Multiplied(was, tab[..], i, 1, b, k)
    {
      if k == 0 {
        break;
      }
      var a := (tab[i] + k) % B;
      ghost var k0 := k;
      k := if a < k then 1 else 0;
      AddCarry(tab[i], k0, a, k);
      MultipliedStep(was, tab[..], i, 1, b, k0, a, k);
      tab[i] := a;
      i := i + 1;
    }
    if i < n {
      NoCarry(was, tab[..], i, n, b);
    }
  }

  // Without a carry the limbs that were not reached stay as they are.
  lemma NoCarry(was: seq<Limb>, now: seq<Limb>, i: nat, n: nat, c: nat)
    requires i <= n <= |was| == |now| && Multiplied(was, now, i, 1, c, 0)
    ensures Val(now[..n]) == Val(was[..n]) + c && now[n..] == was[n..]
  {
    Rest(now, was, i, n);
    assert now[..n] == now[..i] + now[i..n] && was[..n] == was[..i] + was[i..n];
    ValConcat(now[..i], now[i..n]);
    ValConcat(was[..i], was[i..n]);
  }

  // The carry out of a limb is what the wrapped sum being small says.
  lemma AddCarry(a: Limb, k: Limb, t: nat, k': nat)
    requires t == (a + k) % B && k' == (if t < k then 1 else 0)
    ensures a + k == t + k' * B
  {
  }

  lemma Rest(s: seq<Limb>, t: seq<Limb>, i: nat, n: nat)
    requires i <= n <= |s| && |t| == |s| && s[i..] == t[i..]
    ensures s[i..n] == t[i..n] && s[n..] == t[n..]
  {
    assert s[i..n] == s[i..][..n - i] && t[i..n] == t[i..][..n - i];
    assert s[n..] == s[i..][n - i..] && t[n..] == t[i..][n - i..];
  }

  // ---- Multiplication by one limb ----

  // The limbs below i have been multiplied by b, c was added, and l is carried.
  predicate Multiplied(was: seq<Limb>, now: seq<Limb>, i: nat, b: nat, c: nat, l: nat)
    requires i <= |was| == |now|
  {
    Val(now[..i]) + l * Pow(B, i) == Val(was[..i]) * b + c && now[i..] == was[i..]
  }

  lemma MultipliedStart(was: seq<Limb>, b: nat, c: nat)
    ensures Multiplied(was, was, 0, b, c, c)
  {
    assert was[..0] == [];
  }

  lemma MultipliedStep(was: seq<Limb>, now: seq<Limb>, i: nat, b: nat, c: nat, l: nat, t: Limb, l': nat)
    requires i < |was| == |now| && Multiplied(was, now, i, b, c, l) && now[i] * b + l == t + l' * B
    ensures Multiplied(was, now[i := t], i + 1, b, c, l')
  {
    var next := now[i := t];
    assert now[i..][0] == was[i..][0];
    assert next[..i + 1] == now[..i] + [t] && was[..i + 1] == was[..i] + [was[i]];
    ValPush(now[..i], t);
    ValPush(was[..i], was[i]);
    MulStep(Val(now[..i]), Val(was[..i]), Pow(B, i), was[i], t, l, l', b, c);
    assert next[i + 1..] == now[i..][1..] && was[i + 1..] == was[i..][1..];
  }

  lemma MulStep(x: nat, y: nat, p: nat, a: nat, a': nat, l: nat, l': nat, b: nat, c: nat)
    requires x + l * p == y * b + c && a * b + l == a' + l' * B
    ensures (x + p * a') + l' * (B * p) == (y + p * a) * b + c
  {
    assert p * (a * b + l) == p * (a' + l' * B);
    assert p * (a' + l' * B) == p * a' + l' * (B * p) by {
      Assoc3(l', B, p);
      assert p * (a' + l' * B) == p * a' + p * (l' * B);
    }
    assert p * (a * b + l) == (p * a) * b + l * p by {
      Assoc3(p, a, b);
    }
    assert (y + p * a) * b == y * b + (p * a) * b;
  }

  // tab := tab * b + low, and the carry out.
  method Mul1(tab: array<Limb>, n: nat, b: Limb, low: Limb) returns (l: Limb)
    requires n <= tab.Length
    modifies tab
    ensures Val(tab[..n]) + l * Pow(B, n) == Val(old(tab[..n])) * b + low
    ensures tab[n..] == old(tab[n..])
  {
    ghost var was := tab[..];
    l := low;
    MultipliedStart(was, b, low);
    var i := 0;
    while i < n
      invariant 0 <= i <= n
      invariant Multiplied(was, tab[..], i, b, low, l)
    {
      var t, l1 := MulLimb(tab[i], b, l);
      MultipliedStep(was, tab[..], i, b, low, l, t, l1);
      tab[i], l := t, l1;
      i := i + 1;
    }
  }

  method MulLimb(a: Limb, b: Limb, l: Limb) returns (t: Limb, l1: Limb)
    ensures a * b + l == t + l1 * B
  {
    MulLe(a, B - 1, b, B - 1);
    var x: nat := a * b + l;
    DivBelow(x, B, B);
    t, l1 := x % B, x / B;
  }

  // ---- Shifts by less than a limb ----

  lemma SplitPow(shift: nat)
    requires 1 <= shift < LIMB_BITS
    ensures Pow(2, shift) * Pow(2, LIMB_BITS - shift) == B
    ensures 1 < Pow(2, shift) < B && 1 < Pow(2, LIMB_BITS - shift) < B
  {
    PowAdd(2, shift, LIMB_BITS - shift);
    assert Pow(2, 32) == B by {
      Pow2Is32();
    }
    PowMono(2, 1, shift);
    PowMono(2, 1, LIMB_BITS - shift);
    assert Pow(2, 1) == 2 * Pow(2, 0);
    ProperFactor(Pow(2, shift), Pow(2, LIMB_BITS - shift));
    ProperFactor(Pow(2, LIMB_BITS - shift), Pow(2, shift));
  }

  lemma Pow2Is32()
    ensures Pow(2, 32) == B
  {
    assert Pow(2, 8) == 256;
    PowAdd(2, 8, 8);
    PowAdd(2, 16, 16);
  }

  lemma ProperFactor(a: nat, b: nat)
    requires a > 0 && b > 1
    ensures a < a * b
  {
    MulLe(a, a, 2, b);
  }

  // Shifting a limb left: the part that stays and the part that goes on to the next limb.
  lemma ShlParts(a: Limb, d: nat, r: nat)
    requires d * r == B && d > 0 && r > 0
    ensures (a * d) % B % d == 0 && (a * d) / B == a / r && a / r < d
    ensures (a * d) % B + (a * d) / B * B == a * d && (a * d) % B + d <= B
  {
    var q, m := a / r, a % r;
    ShlSplit(a, d, r, q, m);
    DivModIs(a * d, B, q, m * d);
    DivModIs(m * d, d, m, 0);
    DivBelow(a, r, d);
  }

  lemma ShlSplit(a: nat, d: nat, r: nat, q: nat, m: nat)
    requires d * r == B && a == q * r + m && m < r
    ensures a * d == q * B + m * d && m * d + d <= B
  {
    Assoc3(q, r, d);
    MulLe(m + 1, r, d, d);
  }

  // One limb shifted left, with the bits l from below in front of it.
  method ShlLimb(a: Limb, l: Limb, shift: nat) returns (t: Limb, l1: Limb)
    requires 1 <= shift < LIMB_BITS && l < Pow(2, shift)
    ensures a * Pow(2, shift) + l == t + l1 * B && l1 < Pow(2, shift)
  {
    SplitPow(shift);
    t, l1 := ShlLimbBy(a, l, Pow(2, shift), Pow(2, LIMB_BITS - shift));
  }

  method ShlLimbBy(a: Limb, l: Limb, d: nat, r: nat) returns (t: Limb, l1: Limb)
    requires d * r == B && 0 < d && 0 < r && l < d <= B
    ensures a * d + l == t + l1 * B && l1 < d
  {
    ShlParts(a, d, r);
    var up: nat := a * d;
    t, l1 := Or(up % B, l, d), a / r;
  }

  // tab := (tab << shift) + low, and the bits shifted out.
  method Shl(tab: array<Limb>, n: nat, shift: nat, low: Limb) returns (l: Limb)
    requires n <= tab.Length && 1 <= shift < LIMB_BITS && low < Pow(2, shift)
    modifies tab
    ensures Val(tab[..n]) + l * Pow(B, n) == Val(old(tab[..n])) * Pow(2, shift) + low
    ensures l < Pow(2, shift) && tab[n..] == old(tab[n..])
  {
    ghost var was := tab[..];
    ghost var d := Pow(2, shift);
    l := low;
    MultipliedStart(was, d, low);
    var i := 0;
    while i < n
      invariant 0 <= i <= n && l < d
      invariant Multiplied(was, tab[..], i, d, low, l)
    {
      var t, l1 := ShlLimb(tab[i], l, shift);
      MultipliedStep(was, tab[..], i, d, low, l, t, l1);
      tab[i], l := t, l1;
      i := i + 1;
    }
  }

  // One limb of a right shift: l holds the limb above, of which the low bits m count.
  lemma ShrStep(m: nat, a: Limb, d: nat, r: nat, t: nat)
    requires d * r == B && d > 0 && r > 0 && m < d && t == a / d + m * r
    ensures m * B + a == t * d + a % d && t < B && a / d < r
  {
    DivBelow(a, d, r);
    MulLe(m + 1, d, r, r);
    ShrNum(m, a / d, a % d, d, r);
  }

  lemma ShrNum(m: nat, q: nat, x: nat, d: nat, r: nat)
    requires d * r == B
    ensures m * B + (q * d + x) == (q + m * r) * d + x
  {
    Assoc3(m, r, d);
  }

  // What the top bits of a limb are worth once they have been shifted down.
  lemma ShrTop(l: nat, d: nat, r: nat)
    requires d * r == B && d > 0 && r > 0
    ensures (l * r) % B == l % d * r && (l % d * r) % r == 0
  {
    var q, m := l / d, l % d;
    Assoc3(q, d, r);
    assert l * r == q * B + m * r;
    MulLe(m + 1, d, r, r);
    DivModIs(l * r, B, q, m * r);
    DivModIs(m * r, r, m, 0);
  }

  // One more limb at the bottom of a number that is divided from the top.
  lemma DownStep(x: nat, y: nat, top: nat, r: nat, r': nat, p: nat, d: nat, a: nat, t: nat)
    requires top * p + x == y * d + r && r * B + a == t * d + r'
    ensures top * (B * p) + (a + B * x) == (t + B * y) * d + r'
  {
    assert top * (B * p) == B * (top * p) by {
      Assoc3(top, B, p);
      Assoc3(B, top, p);
    }
    assert B * (top * p + x) == B * (y * d) + B * r;
    assert (t + B * y) * d == t * d + B * (y * d) by {
      Assoc3(B, y, d);
    }
  }

  // Division of the limbs from i to n, with top above them.
  predicate Divided(was: seq<Limb>, now: seq<Limb>, i: nat, n: nat, top: nat, d: nat, r: nat)
    requires i <= n <= |was| == |now|
  {
    && top * Pow(B, n - i) + Val(was[i..n]) == Val(now[i..n]) * d + r
    && now[..i] == was[..i] && now[n..] == was[n..]
  }

  lemma DividedStart(was: seq<Limb>, n: nat, top: nat, d: nat)
    requires n <= |was|
    ensures Divided(was, was, n, n, top, d, top)
  {
    assert was[n..n] == [];
  }

  lemma DividedStep(was: seq<Limb>, now: seq<Limb>, i: nat, n: nat, top: nat, d: nat, r: nat, t: Limb, r': nat)
    requires i < n <= |was| == |now| && Divided(was, now, i + 1, n, top, d, r)
    requires r * B + now[i] == t * d + r'
    ensures Divided(was, now[i := t], i, n, top, d, r')
  {
    var next := now[i := t];
    assert now[..i + 1][i] == was[..i + 1][i];
    assert next[i..n] == [t] + now[i + 1..n] && was[i..n] == [was[i]] + was[i + 1..n];
    ValFront(t, now[i + 1..n]);
    ValFront(was[i], was[i + 1..n]);
    DownStep(Val(was[i + 1..n]), Val(now[i + 1..n]), top, r, r', Pow(B, n - (i + 1)), d, was[i], t);
    assert next[..i] == was[..i] by {
      assert next[..i] == now[..i + 1][..i];
      assert was[..i] == was[..i + 1][..i];
    }
    assert next[n..] == now[n..];
  }

  lemma DividedEnd(was: seq<Limb>, now: seq<Limb>, n: nat, top: nat, d: nat, r: nat)
    requires n <= |was| == |now| && Divided(was, now, 0, n, top, d, r)
    ensures top * Pow(B, n) + Val(was[..n]) == Val(now[..n]) * d + r && now[n..] == was[n..]
  {
    assert was[0..n] == was[..n] && now[0..n] == now[..n];
  }

  // One limb shifted right, with the low bits of the limb above it on top.
  method ShrLimb(l: Limb, a: Limb, shift: nat) returns (t: Limb)
    requires 1 <= shift < LIMB_BITS
    ensures Low(l, shift) * B + a == t * Pow(2, shift) + Low(a, shift)
  {
    SplitPow(shift);
    t := ShrLimbBy(l, a, Pow(2, shift), Pow(2, LIMB_BITS - shift));
  }

  method ShrLimbBy(l: Limb, a: Limb, d: nat, r: nat) returns (t: Limb)
    requires d * r == B && 0 < d && 0 < r
    ensures l % d * B + a == t * d + a % d
  {
    ShrTop(l, d, r);
    DivBelow(a, d, r);
    var up: nat := l * r;
    t := Or(up % B, a / d, r);
    ShrStep(l % d, a, d, r, t);
  }

  function Low(l: nat, shift: nat): (m: nat)
    ensures m < Pow(2, shift)
  {
    PowPos(2, shift);
    l % Pow(2, shift)
  }

  // tab := (tab + high * B^n) >> shift, and the bits shifted out.
  method Shr(tab: array<Limb>, n: nat, shift: nat, high: Limb) returns (rem: nat)
    requires n <= tab.Length && 1 <= shift < LIMB_BITS
    modifies tab
    ensures rem < Pow(2, shift) && tab[n..] == old(tab[n..])
    ensures Low(high, shift) * Pow(B, n) + Val(old(tab[..n])) == Val(tab[..n]) * Pow(2, shift) + rem
  {
    ghost var was, top, d := tab[..], Low(high, shift), Pow(2, shift);
    var l := high;
    var i := n;
    DividedStart(was, n, top, d);
    while i > 0
      invariant 0 <= i <= n
      invariant Divided(was, tab[..], i, n, top, d, Low(l, shift))
    {
      i := i - 1;
      var a := tab[i];
      var t := ShrLimb(l, a, shift);
      DividedStep(was, tab[..], i, n, top, d, Low(l, shift), t, Low(a, shift));
      tab[i] := t;
      l := a;
    }
    DividedEnd(was, tab[..], n, top, d, Low(l, shift));
    rem := Low(l, shift);
  }

  // ---- Division by one limb ----

  method DivLimb(r: nat, a: Limb, b: Limb) returns (q: Limb, m: Limb)
    requires r < b
    ensures r * B + a == q * b + m && m < b
  {
    MulLe(r + 1, b, B, B);
    var x := r * B + a;
    DivBelow(x, b, B);
    q, m := x / b, x % b;
  }

  // tab := (tab + high * B^n) / b, and the remainder.
  method Div1(tab: array<Limb>, n: nat, b: Limb, high: Limb) returns (r: Limb)
    requires n <= tab.Length && high < b
    modifies tab
    ensures r < b && tab[n..] == old(tab[n..])
    ensures high * Pow(B, n) + Val(old(tab[..n])) == Val(tab[..n]) * b + r
  {
    ghost var was := tab[..];
    r := high;
    var i := n;
    DividedStart(was, n, high, b);
    while i > 0
      invariant 0 <= i <= n && r < b
      invariant Divided(was, tab[..], i, n, high, b, r)
    {
      i := i - 1;
      var q, m := DivLimb(r, tab[i], b);
      DividedStep(was, tab[..], i, n, high, b, r, q, m);
      tab[i] := q;
      r := m;
    }
    DividedEnd(was, tab[..], n, high, b, r);
  }
}
