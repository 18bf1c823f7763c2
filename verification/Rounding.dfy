// Rounding of non-negative reals to integers, and the sticky bit that stands for a lost remainder.
module Rounding {
  import opened Arith

  datatype Mode = Nearest | NearestAway | TowardZero

  function Round(x: real, mode: Mode): int {
    var q := x.Floor;
    var f := x - q as real;
    if mode != TowardZero && (f > 0.5 || (f == 0.5 && (mode == NearestAway || q % 2 == 1))) then q + 1 else q
  }

  // The same for a fraction of integers.
  function RoundDiv(n: nat, d: nat, mode: Mode): nat
    requires d > 0
  {
    var q, r := n / d, n % d;
    if mode != TowardZero && (2 * r > d || (2 * r == d && (mode == NearestAway || q % 2 == 1))) then q + 1 else q
  }

  lemma FloorIs(x: real, q: int)
    requires q as real <= x < q as real + 1.0
    ensures x.Floor == q
  {
  }

  lemma RoundInt(n: int, mode: Mode)
    ensures Round(n as real, mode) == n
  {
    FloorIs(n as real, n);
  }

  lemma RoundOf(x: real, n: nat, d: nat, mode: Mode)
    requires d > 0 && x * d as real == n as real
    ensures Round(x, mode) == RoundDiv(n, d, mode)
  {
    var q, r := n / d, n % d;
    var f := x - q as real;
    Fraction(x, f, n, d, q, r);
    FloorIs(x, q);
  }

  // The fraction part of n / d, compared with 0, 1/2 and 1.
  lemma Fraction(x: real, f: real, n: nat, d: nat, q: nat, r: nat)
    requires d > 0 && x * d as real == n as real && n == q * d + r && r < d && f == x - q as real
    ensures 0.0 <= f < 1.0 && (f > 0.5 <==> 2 * r > d) && (f == 0.5 <==> 2 * r == d)
  {
    var e := d as real;
    assert f * e == r as real by {
      assert (q * d) as real == q as real * e;
      assert f * e == x * e - q as real * e;
    }
    Compare(f, r as real, e, 0.0);
    Compare(f, r as real, e, 0.5);
    Compare(f, r as real, e, 1.0);
  }

  lemma Compare(f: real, r: real, e: real, c: real)
    requires e > 0.0 && f * e == r
    ensures (f > c <==> r > c * e) && (f == c <==> r == c * e)
  {
    assert (f - c) * e == r - c * e;
    if f > c {
      assert (f - c) * e > 0.0;
    } else if f < c {
      assert (c - f) * e > 0.0;
    }
  }

  // Rounding read off the bits: the first bit that is lost, the bits below it, and the last that stays.
  lemma RoundBits(n: nat, h: nat, mode: Mode)
    requires h > 0
    ensures RoundDiv(n, 2 * h, mode)
         == n / (2 * h)
            + if mode != TowardZero && n / h % 2 == 1 && (mode == NearestAway || n % h != 0 || n / (2 * h) % 2 == 1)
                          then 1 else 0
  {
    HalfDigit(n, h, n / (2 * h), n % (2 * h));
    Halves(n % (2 * h), h);
  }

  lemma Halves(r: nat, h: nat)
    requires h > 0 && r < 2 * h
    ensures (2 * r > 2 * h <==> r >= h && r - h != 0) && (2 * r == 2 * h <==> r >= h && r - h == 0)
  {
  }

  lemma HalfDigit(n: nat, h: nat, q: nat, r: nat)
    requires h > 0 && n == q * (2 * h) + r && r < 2 * h
    ensures n / h % 2 == (if r >= h then 1 else 0) && n % h == if r >= h then r - h else r
  {
    assert n == (2 * q) * h + r;
    if r >= h {
      DivModIs(n, h, 2 * q + 1, r - h);
    } else {
      DivModIs(n, h, 2 * q, r);
    }
  }

  // ---- The sticky bit ----

  // The floor, with its last bit set when something was lost.
  function Sticky(y: real): int {
    var k := y.Floor;
    if k as real == y || k % 2 == 1 then k else k + 1
  }

  // Rounding away at least two bits gives the same from the sticky floor as from the number itself.
  lemma StickyRound(y: real, d: nat, z: real, w: real, mode: Mode)
    requires y >= 0.0 && d > 0 && d % 4 == 0
    requires z * d as real == y && w * d as real == Sticky(y) as real
    ensures Round(z, mode) == Round(w, mode)
  {
    var k := y.Floor;
    var q, r := Parts(k, d);
    StickyAt(y, d, z, w, k, q, r, Sticky(y), mode);
  }

  lemma StickyAt(y: real, d: nat, z: real, w: real, k: nat, q: nat, r: nat, s: nat, mode: Mode)
    requires d > 0 && d % 4 == 0 && k as real <= y < k as real + 1.0 && s == Sticky(y)
    requires z * d as real == y && w * d as real == s as real && k == q * d + r && r < d
    ensures Round(z, mode) == Round(w, mode)
  {
    FloorIs(y, k);
    var f, g := z - q as real, w - q as real;
    var t := r + (s - k);
    Within(z, f, y, d, q, r, k);
    if k as real == y {
      Fraction(w, g, s, d, q, r);
    } else {
      OddRest(k, q, d, r, t, s);
      Fraction(w, g, s, d, q, t);
    }
    SameRounding(z, w, q, f, g, mode);
  }

  // Rounding depends on the floor, and on how the fraction compares with a half.
  lemma SameRounding(z: real, w: real, q: int, f: real, g: real, mode: Mode)
    requires f == z - q as real && g == w - q as real && 0.0 <= f < 1.0 && 0.0 <= g < 1.0
    requires (f > 0.5 <==> g > 0.5) && (f == 0.5 <==> g == 0.5)
    ensures Round(z, mode) == Round(w, mode)
  {
    FloorIs(z, q);
    FloorIs(w, q);
  }

  // A remainder that was made odd is on the same side of the half way point, which is even.
  lemma OddRest(k: nat, q: nat, d: nat, r: nat, t: nat, s: nat)
    requires d % 4 == 0 && k == q * d + r && r < d && s == (if k % 2 == 1 then k else k + 1) && t == r + (s - k)
    ensures t < d && s == q * d + t && 2 * t != d && (2 * t > d <==> 2 * r >= d)
  {
    var e := d / 4;
    assert q * d == 4 * (q * e);
    assert r % 2 == k % 2;
  }

  // A number between k and k + 1, compared with the half way point.
  lemma Within(z: real, f: real, y: real, d: nat, q: nat, r: nat, k: nat)
    requires d > 0 && d % 2 == 0 && z * d as real == y && k as real <= y < k as real + 1.0
    requires k == q * d + r && r < d && f == z - q as real
    ensures 0.0 <= f < 1.0 && (k as real != y ==> (f > 0.5 <==> 2 * r >= d) && f != 0.5)
    ensures k as real == y ==> (f > 0.5 <==> 2 * r > d) && (f == 0.5 <==> 2 * r == d)
  {
    var e := d as real;
    var p := y - (q * d) as real;
    assert f * e == p by {
      assert (q * d) as real == q as real * e;
      assert f * e == z * e - q as real * e;
    }
    assert r as real <= p < r as real + 1.0;
    Compare(f, p, e, 0.0);
    Compare(f, p, e, 0.5);
    Compare(f, p, e, 1.0);
  }
}
