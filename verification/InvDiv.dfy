// Division by a limb that is known in advance: the quotient is estimated with a precomputed inverse, and
// all arithmetic wraps around at 32 or 64 bits.
module InvDiv {
  import opened Arith
  import opened Powers
  import opened Limbs

  const B2: nat := 0x1_0000_0000_0000_0000

  type DLimb = x: nat | x < B2

  function Wrap32(x: int): Limb {
    x % B
  }

  function Wrap64(x: int): DLimb {
    x % B2
  }

  // m & d for a mask of all zeros or all ones.
  function Mask(m: Limb, d: Limb): Limb
    requires m == 0 || m == B - 1
  {
    if m == 0 then 0 else d
  }

  // v is the floor of (B^2 - 1) / d, less B.
  predicate IsInverse(d: Limb, v: Limb) {
    (v + B) * d <= B2 - 1 < (v + B) * d + d
  }

  method InverseOf(d: Limb) returns (v: Limb)
    requires d >= B / 2
    ensures IsInverse(d, v)
  {
    var a1, a0 := Wrap32(-1 - d), B - 1;
    assert a1 == B - 1 - d;
    var x: nat := a1 * B + a0;
    assert x == B2 - 1 - B * d;
    DivBelow(x, d, B);
    v := Quotient(x, d);
  }

  method Quotient(x: nat, d: nat) returns (q: nat)
    requires d > 0
    ensures q * d <= x < q * d + d && q == x / d
  {
    q := x / d;
  }

  // ---- The estimate ----

  // The estimated quotient is the right one or one less. h says that the top bit of a0 is set.
  lemma Estimate(a1: nat, a0: Limb, d: Limb, v: Limb, h: bool, adj: int, x: int, q: nat)
    requires B / 2 <= d && a1 < d && IsInverse(d, v) && (h <==> a0 >= B / 2)
    requires adj == if h then a0 + d - B else a0
    requires x == (v + B) * a1 + (if h then v else 0) + adj && q * B <= x < q * B + B
    ensures 0 <= a1 * B + a0 - q * d < 2 * d
  {
    var u := (v + B) * d;
    var rho := B2 - 1 - u;
    Gap(a1, a0, d, v, h, adj, x, u, rho);
    var gap := B * (a1 * B + a0) - d * x;
    assert 0 <= gap <= d * B by {
      GapBound(a1, a0, d, rho, h, gap);
    }
    // q <= x / B < q + 1, scaled by d
    assert d * (q * B) <= d * x by {
      MulLe(d, d, q * B, x);
    }
    assert d * x < d * (q * B + B) by {
      LessTimes(d, x, q * B + B);
    }
    Scaled(d, q, B, a1 * B + a0, gap, d * x);
  }

  lemma Scaled(d: nat, q: nat, b: nat, n: nat, gap: int, dx: int)
    requires b > 0 && b * n == dx + gap && 0 <= gap <= d * b
    requires d * (q * b) <= dx < d * (q * b + b)
    ensures 0 <= n - q * d < 2 * d
  {
    assert d * (q * b) == b * (q * d);
    assert d * (q * b + b) == b * (q * d) + b * d;
    assert b * (n - q * d) >= 0;
    assert b * (n - q * d) < b * (2 * d);
    if n - q * d < 0 {
      LessTimes(b, n - q * d, 0);
    }
    if n - q * d >= 2 * d {
      MulLe(b, b, 2 * d, n - q * d);
    }
  }

  // B times the dividend, less d times the scaled estimate.
  lemma Gap(a1: nat, a0: Limb, d: Limb, v: Limb, h: bool, adj: int, x: int, u: nat, rho: int)
    requires u == (v + B) * d && rho == B2 - 1 - u
    requires adj == (if h then a0 + d - B else a0) && x == (v + B) * a1 + (if h then v else 0) + adj
    ensures B * (a1 * B + a0) - d * x
         == if h then (1 + rho) * (a1 + 1) + (B - d) * (a0 - (B - d)) else (1 + rho) * a1 + (B - d) * a0
  {
    var w := v + B;
    assert d * (w * a1) == u * a1 by {
      assert d * (w * a1) == (w * d) * a1;
    }
    assert u * a1 == (B2 - 1 - rho) * a1;
    if h {
      assert d * x == d * (w * a1) + d * v + d * adj;
      assert d * v == u - B * d;
      assert d * adj == d * a0 + d * d - d * B;
    } else {
      assert d * x == d * (w * a1) + d * a0;
    }
  }

  lemma GapBound(a1: nat, a0: Limb, d: Limb, rho: int, h: bool, gap: int)
    requires B / 2 <= d && a1 < d && 0 <= rho < d && (h <==> a0 >= B / 2)
    requires gap == if h then (1 + rho) * (a1 + 1) + (B - d) * (a0 - (B - d)) else (1 + rho) * a1 + (B - d) * a0
    ensures 0 <= gap <= d * B
  {
    if h {
      GapParts(1 + rho, d, a1 + 1, d, B - d, a0 - (B - d), d - 1);
      Squares(d);
    } else {
      GapParts(1 + rho, d, a1, d - 1, B - d, a0, d);
      Squares(d);
    }
  }

  lemma GapParts(x: nat, x': nat, y: nat, y': nat, c: nat, z: nat, z': nat)
    requires x <= x' && y <= y' && z <= z'
    ensures 0 <= x * y + c * z <= x' * y' + c * z'
  {
    MulLe(x, x', y, y');
    MulLe(c, c, z, z');
  }

  lemma Squares(d: nat)
    requires d <= B
    ensures d * d + (B - d) * (d - 1) <= d * B
    ensures d * (d - 1) + (B - d) * d <= d * B
  {
  }

  // ---- One step ----

  // The quotient and remainder of a1 * B + a0 by d.
  method Udiv1Norm(a1: Limb, a0: Limb, d: Limb, v: Limb) returns (q: Limb, r: Limb)
    requires B / 2 <= d && a1 < d && IsInverse(d, v)
    ensures a1 * B + a0 == q * d + r && r < d
  {
    var n1m: Limb := if a0 >= B / 2 then B - 1 else 0;
    var adj := Wrap32(a0 + Mask(n1m, d));
    var a := Wrap64(v * Wrap32(a1 - n1m) + adj);
    var q0 := Wrap32(a / B + a1);
    EstimateWrapped(a1, a0, d, v, n1m, adj, a, q0);
    a := Wrap64(Wrap64(a1 * B + a0 - q0 * d) - d);
    var ah: Limb := High(a);
    AdjustWrapped(a1, a0, d, q0, a, ah);
    q := Wrap32(q0 + 1 + ah);
    r := Wrap32(a % B + Mask(ah, d));
  }

  function High(a: DLimb): Limb {
    DivBelow(a, B, B);
    a / B
  }

  // Nothing overflows on the way to the estimate.
  lemma EstimateWrapped(a1: Limb, a0: Limb, d: Limb, v: Limb, n1m: Limb, adj: Limb, a: DLimb, q: Limb)
    requires B / 2 <= d && a1 < d && IsInverse(d, v)
    requires n1m == (if a0 >= B / 2 then B - 1 else 0) && adj == Wrap32(a0 + Mask(n1m, d))
    requires a == Wrap64(v * Wrap32(a1 - n1m) + adj) && q == Wrap32(a / B + a1)
    ensures 0 <= a1 * B + a0 - q * d < 2 * d
  {
    var h := a0 >= B / 2;
    NothingWraps(a1, a0, d, v, n1m, adj, a);
    var q1, x := a / B + a1, a + a1 * B;
    ScaledEstimate(a1, v, h, adj, a, x);
    Estimate(a1, a0, d, v, h, adj, x, q1);
    QuotientBelow(q1, d, a1 * B + a0, a1, a0);
  }

  lemma NothingWraps(a1: Limb, a0: Limb, d: Limb, v: Limb, n1m: Limb, adj: Limb, a: DLimb)
    requires B / 2 <= d && a1 < d
    requires n1m == (if a0 >= B / 2 then B - 1 else 0) && adj == Wrap32(a0 + Mask(n1m, d))
    requires a == Wrap64(v * Wrap32(a1 - n1m) + adj)
    ensures adj == if a0 >= B / 2 then a0 + d - B else a0
    ensures a == v * (if a0 >= B / 2 then a1 + 1 else a1) + adj
  {
    var k := if a0 >= B / 2 then a1 + 1 else a1;
    assert Wrap32(a1 - n1m) == k;
    MulLe(v, B - 1, k, B - 1);
  }

  lemma ScaledEstimate(a1: nat, v: nat, h: bool, adj: nat, a: nat, x: nat)
    requires a == v * (if h then a1 + 1 else a1) + adj && x == a + a1 * B
    ensures x == (v + B) * a1 + (if h then v else 0) + adj
  {
    assert v * (a1 + 1) == v * a1 + v;
    assert (v + B) * a1 == v * a1 + B * a1;
  }

  lemma QuotientBelow(q: nat, d: nat, n: nat, a1: nat, a0: Limb)
    requires n == a1 * B + a0 && a1 < d && q * d <= n
    ensures q < B
  {
    MulLe(a1 + 1, d, B, B);
    if q >= B {
      MulLe(B, q, d, d);
    }
  }

  // The last correction, read off the sign of the remainder less d.
  lemma AdjustWrapped(a1: Limb, a0: Limb, d: Limb, q: Limb, a: DLimb, ah: Limb)
    requires B / 2 <= d && a1 < d && 0 <= a1 * B + a0 - q * d < 2 * d
    requires a == Wrap64(Wrap64(a1 * B + a0 - q * d) - d) && ah == High(a)
    ensures ah == 0 || ah == B - 1
    ensures var q', r := Wrap32(q + 1 + ah), Wrap32(a % B + Mask(ah, d)); a1 * B + a0 == q' * d + r && r < d
  {
    var t := a1 * B + a0 - q * d;
    Sign(t, d, a, ah);
    if t >= d {
      assert (q + 1) * d == q * d + d;
      QuotientBelow(q + 1, d, a1 * B + a0, a1, a0);
      AdjustUp(q, t - d, ah, d);
    } else {
      AdjustBack(q, t, a, ah, d);
    }
  }

  lemma AdjustUp(q: nat, r: nat, ah: Limb, d: Limb)
    requires q + 1 < B && r < d && ah == 0
    ensures Wrap32(q + 1 + ah) == q + 1 && Wrap32(r + Mask(ah, d)) == r
  {
  }

  lemma AdjustBack(q: Limb, t: nat, a: DLimb, ah: Limb, d: Limb)
    requires t < d && ah == B - 1 && a % B == B + t - d
    ensures Wrap32(q + 1 + ah) == q && Wrap32(a % B + Mask(ah, d)) == t
  {
  }

  lemma Sign(t: nat, d: Limb, a: DLimb, ah: Limb)
    requires t < 2 * d && a == Wrap64(Wrap64(t) - d) && ah == High(a)
    ensures if t >= d then a == t - d && ah == 0 && a % B == t - d
            else ah == B - 1 && a % B == B + t - d
  {
  }

  // ---- A whole number ----

  // tab := (tab + high * B^n) / b0 and the remainder, where b is b0 shifted left until its top bit is set.
  method Div1Norm(tab: array<Limb>, n: nat, b: Limb, high: Limb, v: Limb, shift: nat, ghost b0: nat) returns (r: Limb)
    requires n <= tab.Length && B / 2 <= b && IsInverse(b, v) && shift < LIMB_BITS
    requires b == b0 * Pow(2, shift) && high < b0
    modifies tab
    ensures r < b0 && tab[n..] == old(tab[n..])
    ensures high * Pow(B, n) + Val(old(tab[..n])) == Val(tab[..n]) * b0 + r
  {
    ghost var x := high * Pow(B, n) + Val(tab[..n]);
    ghost var d := Pow(2, shift);
    PowPos(2, shift);
    r := Normalize(tab, n, b, high, shift, b0, x, d);
    r := DivNormalized(tab, n, b, r, v, x * d);
    Unscaled(x, Val(tab[..n]), b, b0, r, d);
    r := DownBy(r, Pow(2, shift));
  }

  function DownBy(r: Limb, d: nat): Limb
    requires d > 0
  {
    MulLe(1, d, r + 1, r + 1);
    DivBelow(r, d, r + 1);
    r / d
  }

  // The division by the shifted divisor.
  method DivNormalized(tab: array<Limb>, n: nat, b: Limb, high: Limb, v: Limb, ghost x: nat) returns (r: Limb)
    requires n <= tab.Length && B / 2 <= b && IsInverse(b, v) && high < b
    requires x == high * Pow(B, n) + Val(tab[..n])
    modifies tab
    ensures r < b && tab[n..] == old(tab[n..])
    ensures x == Val(tab[..n]) * b + r
  {
    ghost var was := tab[..];
    r := high;
    var i := n;
    DividedStart(was, n, high, b);
    while i > 0
      invariant 0 <= i <= n && r < b
      invariant Divided(was, tab[..], i, n, high, b, r)
    {
      i := i - 1;
      var q, m := Udiv1Norm(r, tab[i], b, v);
      DividedStep(was, tab[..], i, n, high, b, r, q, m);
      tab[i] := q;
      r := m;
    }
    DividedEnd(was, tab[..], n, high, b, r);
  }

  // Shift the number that is to be divided along with its divisor.
  method Normalize(tab: array<Limb>, n: nat, b: Limb, high: Limb, shift: nat, ghost b0: nat, ghost x: nat,
                   ghost d: nat) returns (r: Limb)
    requires n <= tab.Length && shift < LIMB_BITS && d == Pow(2, shift) && b == b0 * d && high < b0
    requires x == high * Pow(B, n) + Val(tab[..n])
    modifies tab
    ensures r < b && tab[n..] == old(tab[n..])
    ensures x * d == r * Pow(B, n) + Val(tab[..n])
  {
    ghost var y := Val(tab[..n]);
    if shift == 0 {
      return high;
    }
    PowPos(2, shift);
    var carry := Shl(tab, n, shift, 0);
    r := JoinHigh(high, carry, Pow(2, shift), b0, b);
    ScaledUp(y, Val(tab[..n]), Pow(B, n), high, carry, d, r);
  }

  method JoinHigh(high: Limb, carry: Limb, d: nat, ghost b0: nat, ghost b: Limb) returns (r: Limb)
    requires high < b0 && b == b0 * d && carry < d
    ensures r == high * d + carry && r < b
  {
    MulLe(high + 1, b0, d, d);
    assert (high + 1) * d == high * d + d;
    DivModIs(high * d, d, high, 0);
    var up: nat := high * d;
    r := Or(up, carry, d);
  }

  lemma ScaledUp(x: nat, y: nat, p: nat, high: nat, carry: nat, d: nat, r: nat)
    requires y + carry * p == x * d + 0 && r == high * d + carry
    ensures r * p + y == (high * p + x) * d
  {
    assert (high * d) * p == (high * p) * d;
  }

  // Both sides of the division lose the factor.
  lemma Unscaled(x: nat, y: nat, b: nat, b0: nat, r: nat, d: nat)
    requires b == b0 * d && x * d == y * b + r && r < b && d > 0
    ensures x == y * b0 + r / d && r / d < b0
  {
    var m := x - y * b0;
    assert m * d == r by {
      Assoc3(y, b0, d);
    }
    UnscaledBounds(m, b0, d);
    DivModIs(r, d, m, 0);
  }

  lemma UnscaledBounds(m: int, b0: nat, d: nat)
    requires d > 0 && 0 <= m * d < b0 * d
    ensures 0 <= m < b0
  {
    if m < 0 {
      LessTimes(d, m, 0);
    } else if m >= b0 {
      MulLe(b0, m, d, d);
    }
  }
}
