// Rounding to the nearest double, seen from the points halfway between two of them: the bits of the result count the
// points that a number is over.
module Halfway {
  import opened Powers
  import opened Float64
  import opened NearestEven
  import opened Doubles

  // The point above b where rounding goes on to the next double, or to infinity.
  function Half(b: nat): real {
    if b + 1 < INFINITY then (ValueOf(b) + ValueOf(b + 1)) / 2.0 else Overflow()
  }

  // A number on the point goes to the even side.
  predicate Over(x: real, b: nat) {
    x > Half(b) || (x == Half(b) && b % 2 == 1)
  }

  // x is over just the points below a.
  ghost predicate Ranked(x: real, a: nat) {
    a <= INFINITY && forall b: nat :: b < INFINITY ==> (Over(x, b) <==> b < a)
  }

  lemma BelowOverflow(a: nat)
    requires a < INFINITY
    ensures ValueOf(a) < Overflow()
  {
    var top := INFINITY - 1;
    if a < top {
      ValueOrder(a, top);
    }
    assert Significand(top) == M53 - 1 && LastPlace(top) == 971;
    HalfwayPoint(Scale((M53 - 1) as real, 971), Scale((M53 / 2) as real, 972));
  }

  lemma HalfOrder(b: nat)
    requires b < INFINITY
    ensures ValueOf(b) < Half(b) && (b + 1 < INFINITY ==> Half(b) < ValueOf(b + 1))
  {
    if b + 1 < INFINITY {
      NextValue(b);
    } else {
      BelowOverflow(INFINITY - 1);
    }
  }

  // Doubles in between move the middle.
  lemma BelowNearest(x: real, a: nat, b: nat)
    requires IsNearest(x, a) && b < a <= INFINITY
    ensures Over(x, b)
  {
    BelowOverflow(INFINITY - 1);
    if a == INFINITY {
      if b + 1 < INFINITY {
        HalfOrder(b);
        if b + 1 < INFINITY - 1 {
          ValueOrder(b + 1, INFINITY - 1);
        }
      }
    } else {
      ValueOrder(b, a);
      assert NoNearer(x, a, b);
      if b + 1 < a {
        ValueOrder(b + 1, a);
      }
    }
  }

  lemma AboveNearest(x: real, a: nat, b: nat)
    requires IsNearest(x, a) && a <= b < INFINITY
    ensures !Over(x, b)
  {
    if b + 1 < INFINITY {
      ValueOrder(a, b + 1);
      assert NoNearer(x, a, b + 1);
      if a < b {
        ValueOrder(a, b);
      }
    }
  }

  lemma RankedNearest(x: real, a: nat)
    requires x >= 0.0 && Ranked(x, a)
    ensures IsNearest(x, a)
  {
    if a == INFINITY {
      assert Over(x, INFINITY - 1);
    } else {
      assert !Over(x, a);
      LastPoint(x);
      if x < ValueOf(a) {
        RankedBelow(x, a);
      } else if a + 1 < INFINITY {
        HalfOrder(a);
        NearestOfTwo(x, a);
      } else {
        TopNearest(x);
      }
    }
  }

  lemma LastPoint(x: real)
    ensures x >= Overflow() <==> Over(x, INFINITY - 1)
  {
  }

  lemma RankedBelow(x: real, a: nat)
    requires 0.0 <= x < ValueOf(a) && x < Overflow() && a < INFINITY && Ranked(x, a)
    ensures IsNearest(x, a)
  {
    ZeroValue();
    assert Over(x, a - 1);
    HalfOrder(a - 1);
    NearestOfTwo(x, a - 1);
  }

  lemma TopNearest(x: real)
    requires ValueOf(INFINITY - 1) <= x < Overflow()
    ensures IsNearest(x, INFINITY - 1)
  {
    var a := INFINITY - 1;
    forall b: nat | b < INFINITY
      ensures NoNearer(x, a, b)
    {
      if b < a {
        ValueOrder(b, a);
      }
    }
  }

  // The nearest double is the number of points that x is over.
  lemma NearestIsRank(x: real, a: nat)
    requires x >= 0.0 && a <= INFINITY
    ensures IsNearest(x, a) <==> Ranked(x, a)
  {
    if IsNearest(x, a) {
      forall b: nat | b < INFINITY
        ensures Over(x, b) <==> b < a
      {
        if b < a {
          BelowNearest(x, a, b);
        } else {
          AboveNearest(x, a, b);
        }
      }
    } else if Ranked(x, a) {
      RankedNearest(x, a);
    }
  }

  // Two numbers have the same nearest double just when no point is between them.
  lemma SameNearest(x: real, y: real, a: nat)
    requires 0.0 <= x <= y && IsNearest(x, a)
    ensures IsNearest(y, a) <==> forall b: nat :: b < INFINITY && Over(y, b) ==> Over(x, b)
  {
    NearestIsRank(x, a);
    NearestIsRank(y, a);
    if forall b: nat :: b < INFINITY && Over(y, b) ==> Over(x, b) {
      forall b: nat | b < INFINITY
        ensures Over(y, b) <==> b < a
      {
        assert Over(x, b) <==> b < a;
      }
    }
  }

  // ---- How far the points are ----

  // Half a unit of the last place, on both sides of a point.
  lemma Gap(a: nat)
    requires a < INFINITY
    ensures Half(a) - ValueOf(a) == Two(LastPlace(a) - 1)
    ensures a + 1 < INFINITY ==> ValueOf(a + 1) - Half(a) == Two(LastPlace(a) - 1)
  {
    var q := LastPlace(a);
    TwoNext(q - 1);
    if a + 1 < INFINITY {
      if LastPlace(a + 1) == q {
        SamePlace(a);
        OneMore(Significand(a), Two(q));
      } else {
        NextPlace(a);
        TwoNext(q);
        assert ValueOf(a + 1) == M52 as real * (2.0 * Two(q));
      }
    } else {
      assert Significand(a) == M53 - 1 && q == 971;
      TopGap(Two(970));
    }
  }

  lemma OneMore(n: nat, t: real)
    ensures (n + 1) as real * t - n as real * t == t
  {
  }

  lemma TopGap(t: real)
    ensures (2 * M53 - 1) as real * t - (M53 - 1) as real * (2.0 * t) == t
  {
  }

  // Doubles are at least 2^-1074 apart.
  lemma Spacing(a: nat)
    requires a < INFINITY
    ensures Half(a) - ValueOf(a) >= Two(-1075) && (a + 1 < INFINITY ==> ValueOf(a + 1) - Half(a) >= Two(-1075))
  {
    Gap(a);
    SignificandIs(a);
    TwoMono(-1075, LastPlace(a) - 1);
  }

  // The gap below a double is as large as the one above, but for a power of two above the smallest normal number.
  predicate SameGaps(b: nat) {
    b % M52 != 0 || b == M52
  }

  lemma Gaps(b: nat) returns (below: real, above: real)
    requires 0 < b < INFINITY
    ensures below == ValueOf(b) - Half(b - 1) && above == Half(b) - ValueOf(b) && 0.0 < below <= above
    ensures SameGaps(b) ==> below == above
  {
    below, above := ValueOf(b) - Half(b - 1), Half(b) - ValueOf(b);
    Gap(b - 1);
    Gap(b);
    TwoPos(LastPlace(b - 1) - 1);
    TwoMono(LastPlace(b - 1) - 1, LastPlace(b) - 1);
  }

  lemma PointOrder(a: nat, b: nat)
    requires a < b < INFINITY
    ensures Half(a) < Half(b)
  {
    HalfOrder(a);
    HalfOrder(b);
    if a + 1 < b {
      ValueOrder(a + 1, b);
    }
  }

  // A double is nearest to what lies between the points around it.
  lemma BetweenPoints(z: real, b: nat)
    requires z >= 0.0 && 0 < b < INFINITY
    ensures IsNearest(z, b) <==> Over(z, b - 1) && !Over(z, b)
  {
    NearestIsRank(z, b);
    if Over(z, b - 1) && !Over(z, b) {
      forall i: nat | i < INFINITY
        ensures Over(z, i) <==> i < b
      {
        if i < b - 1 {
          PointOrder(i, b - 1);
        } else if b < i {
          PointOrder(b, i);
        }
      }
    }
  }

  predicate IsBetween(z: real, lo: real, hi: real, even: bool) {
    (z > lo || (z == lo && even)) && (z < hi || (z == hi && even))
  }

  lemma BetweenIs(z: real, b: nat, lo: real, hi: real)
    requires z >= 0.0 && 0 < b < INFINITY && lo == Half(b - 1) && hi == Half(b)
    ensures IsNearest(z, b) <==> IsBetween(z, lo, hi, b % 2 == 0)
  {
    BetweenPoints(z, b);
  }

  // What is as close is read as the double too. Below a power of two closer is needed than above.
  lemma CloserIsNearest(y: real, z: real, b: nat, x: real)
    requires 0 < b < INFINITY && y >= 0.0 && z >= 0.0 && IsNearest(y, b) && x == ValueOf(b)
    requires Abs(z - x) <= Abs(y - x) && (SameGaps(b) || y <= x || z >= x)
    ensures IsNearest(z, b)
  {
    var lo, hi := PointsAround(b, x);
    BetweenIs(y, b, lo, hi);
    BetweenIs(z, b, lo, hi);
    CloserIsBetween(x, y, z, lo, hi, b % 2 == 0);
  }

  lemma PointsAround(b: nat, x: real) returns (lo: real, hi: real)
    requires 0 < b < INFINITY && x == ValueOf(b)
    ensures lo == Half(b - 1) && hi == Half(b) && lo < x < hi && x - lo <= hi - x
    ensures SameGaps(b) ==> x - lo == hi - x
  {
    lo, hi := Half(b - 1), Half(b);
    var below, above := Gaps(b);
  }

  lemma CloserIsBetween(x: real, y: real, z: real, lo: real, hi: real, even: bool)
    requires lo < x < hi && x - lo <= hi - x && (x - lo == hi - x || y <= x || z >= x)
    requires IsBetween(y, lo, hi, even) && Abs(z - x) <= Abs(y - x)
    ensures IsBetween(z, lo, hi, even)
  {
  }
}
