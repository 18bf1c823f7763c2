// Real powers of a radix, with an exponent of either sign.
module RealPowers {
  import opened Powers

  function RP(r: nat, k: int): real
    requires r > 0
  {
    if k >= 0 then Pow(r, k) as real
    else
      PowPos(r, -k);
      1.0 / Pow(r, -k) as real
  }

  lemma RPPos(r: nat, k: int)
    requires r > 0
    ensures RP(r, k) > 0.0
  {
    PowPos(r, if k >= 0 then k else -k);
  }

  lemma RPNext(r: nat, k: int, x: real, y: real)
    requires r > 0 && x == RP(r, k) && y == RP(r, k + 1)
    ensures y == r as real * x
  {
    if k >= 0 {
      ProductIs(r, Pow(r, k));
    } else {
      PowPos(r, -k);
      PowPos(r, -k - 1);
      ProductIs(r, Pow(r, -k - 1));
      InverseNext(r as real, Pow(r, -k - 1) as real, Pow(r, -k) as real);
    }
  }

  lemma ProductIs(a: nat, b: nat)
    ensures (a * b) as real == a as real * b as real
  {
  }

  lemma InverseNext(r: real, p: real, q: real)
    requires p > 0.0 && q > 0.0 && q == r * p
    ensures 1.0 / p == r * (1.0 / q)
  {
    var x := 1.0 / q;
    assert q * x == 1.0;
    assert (r * x) * p == 1.0;
    InverseIs(p, r * x);
  }

  lemma InverseIs(p: real, x: real)
    requires p > 0.0 && x * p == 1.0
    ensures 1.0 / p == x
  {
    assert (1.0 / p) * p == 1.0;
    assert (1.0 / p - x) * p == 0.0;
  }

  function Product(x: real, y: real): real {
    x * y
  }

  lemma Next(r: nat, b: real, k: int, x: real) returns (y: real)
    requires r > 0 && b == r as real && x == RP(r, k)
    ensures y == RP(r, k + 1) && y == b * x
  {
    y := RP(r, k + 1);
    RPNext(r, k, x, y);
  }

  lemma Before(r: nat, b: real, k: int, y: real) returns (x: real)
    requires r > 0 && b == r as real && y == RP(r, k)
    ensures x == RP(r, k - 1) && y == b * x
  {
    x := RP(r, k - 1);
    RPNext(r, k - 1, x, y);
  }

  lemma {:induction false} AddTo(r: nat, b: real, j: int, k: int, x: real, y: real) returns (z: real)
    requires r > 0 && b == r as real && b > 0.0 && x == RP(r, j) && y == RP(r, k)
    ensures z == RP(r, j + k) && z == x * y
    decreases if k >= 0 then k else -k
  {
    if k == 0 {
      z := x;
      assert y == 1.0;
    } else if k > 0 {
      var y1 := Before(r, b, k, y);
      var z1 := AddTo(r, b, j, k - 1, x, y1);
      z := Next(r, b, j + k - 1, z1);
      Up(b, x, y1, z1, y, z);
    } else {
      var y1 := Next(r, b, k, y);
      var z1 := AddTo(r, b, j, k + 1, x, y1);
      z := Before(r, b, j + k + 1, z1);
      Down(b, x, y1, z1, y, z);
    }
  }

  lemma Up(b: real, x: real, y: real, xy: real, y': real, xy': real)
    requires xy == x * y && y' == b * y && xy' == b * xy
    ensures xy' == x * y'
  {
  }

  lemma Down(b: real, x: real, y: real, xy: real, y': real, xy': real)
    requires b > 0.0 && xy == x * y && y == b * y' && xy == b * xy'
    ensures xy' == x * y'
  {
    assert b * (x * y') == x * (b * y');
    assert b * (xy' - x * y') == 0.0;
  }

  lemma AddToProduct(r: nat, b: real, j: int, k: int, x: real, y: real) returns (z: real)
    requires r > 0 && b == r as real && x == RP(r, j) && y == RP(r, k)
    ensures z == RP(r, j + k) && z == Product(x, y)
  {
    z := AddTo(r, b, j, k, x, y);
  }

  lemma RPAdd(r: nat, j: int, k: int, n: int)
    requires r > 0 && j + k == n
    ensures RP(r, n) == Product(RP(r, j), RP(r, k))
  {
    var z := AddToProduct(r, r as real, j, k, RP(r, j), RP(r, k));
  }
}
