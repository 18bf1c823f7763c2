// Powers of naturals, and of reals with an exponent of either sign.
module Powers {
  import opened Arith

  function Pow(b: nat, n: nat): nat {
    if n == 0 then 1 else b * Pow(b, n - 1)
  }

  lemma {:induction false} PowPos(b: nat, n: nat)
    requires b > 0
    ensures Pow(b, n) > 0
  {
    if n > 0 {
      PowPos(b, n - 1);
      MulPos(b, Pow(b, n - 1));
    }
  }

  lemma {:induction false} PowAdd(b: nat, m: nat, n: nat)
    ensures Pow(b, m + n) == Pow(b, m) * Pow(b, n)
  {
    if m > 0 {
      PowAdd(b, m - 1, n);
      Assoc3(b, Pow(b, m - 1), Pow(b, n));
    }
  }

  lemma {:induction false} PowMono(b: nat, m: nat, n: nat)
    requires b > 0 && m <= n
    ensures Pow(b, m) <= Pow(b, n)
  {
    PowAdd(b, m, n - m);
    PowPos(b, n - m);
    PowPos(b, m);
    MulAtLeast(Pow(b, m), Pow(b, n - m));
  }

  lemma MulAtLeast(a: nat, b: nat)
    requires b > 0
    ensures a <= a * b
  {
    assert a * b == a + a * (b - 1);
  }

  // (ab)^n
  lemma {:induction false} PowTimes(a: nat, b: nat, n: nat)
    ensures Pow(a * b, n) == Pow(a, n) * Pow(b, n)
  {
    if n > 0 {
      PowTimes(a, b, n - 1);
      var x, y := Pow(a, n - 1), Pow(b, n - 1);
      assert (a * b) * (x * y) == (a * x) * (b * y) by {
        Assoc3(a, b, x * y);
        Assoc3(b, x, y);
        Assoc3(x, b, y);
        Assoc3(a, x, b * y);
      }
    }
  }

  // (b^m)^n
  lemma {:induction false} PowPow(b: nat, m: nat, n: nat)
    ensures Pow(Pow(b, m), n) == Pow(b, m * n)
  {
    if n > 0 {
      PowPow(b, m, n - 1);
      assert m * n == m + m * (n - 1);
      PowAdd(b, m, m * (n - 1));
    }
  }

  // ---- Powers of two with an exponent of either sign ----

  function Two(k: int): real
    decreases if k >= 0 then k else -k
  {
    if k == 0 then 1.0 else if k > 0 then 2.0 * Two(k - 1) else Two(k + 1) / 2.0
  }

  lemma {:induction false} TwoPos(k: int)
    ensures Two(k) > 0.0
    decreases if k >= 0 then k else -k
  {
    if k > 0 {
      TwoPos(k - 1);
    } else if k < 0 {
      TwoPos(k + 1);
    }
  }

  lemma TwoAdd(j: int, k: int)
    ensures Two(j + k) == Two(j) * Two(k)
  {
    var z := TwoAddTo(j, k, Two(j), Two(k));
  }

  lemma {:induction false} TwoAddTo(j: int, k: int, x: real, y: real) returns (z: real)
    requires x == Two(j) && y == Two(k)
    ensures z == Two(j + k) && z == x * y
    decreases if k >= 0 then k else -k
  {
    if k == 0 {
      z := x;
    } else if k > 0 {
      var y1, z1;
      y1 := HalfTwo(k);
      z1 := TwoAddTo(j, k - 1, x, y1);
      z := 2.0 * z1;
      HalfTwoIs(j + k);
      Doubled(x, y1, z1);
    } else {
      var z1 := TwoAddTo(j, k + 1, x, 2.0 * y);
      z := z1 / 2.0;
      Doubled(x, y, z);
    }
  }

  lemma HalfTwo(k: int) returns (y: real)
    ensures y == Two(k - 1) && Two(k) == 2.0 * y
  {
    y := Two(k - 1);
  }

  lemma HalfTwoIs(k: int)
    ensures Two(k) == 2.0 * Two(k - 1)
  {
  }

  lemma Doubled(x: real, y: real, z: real)
    ensures z == x * y <==> 2.0 * z == x * (2.0 * y)
  {
  }

  lemma TwoNext(k: int)
    ensures Two(k + 1) == 2.0 * Two(k)
  {
  }

  lemma TwoMono(j: int, k: int)
    requires j <= k
    ensures Two(j) <= Two(k)
    decreases k - j
  {
    if j < k {
      TwoMono(j, k - 1);
      TwoNext(k - 1);
      TwoPos(k - 1);
    }
  }

  lemma {:induction false} TwoNat(k: nat)
    ensures Two(k) == Pow(2, k) as real
  {
    if k > 0 {
      TwoNat(k - 1);
    }
  }

  lemma TwoInverse(k: int)
    ensures Two(k) * Two(-k) == 1.0
  {
    TwoAdd(k, -k);
  }
}
