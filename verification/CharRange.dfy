// Sets of code points as sorted boundary lists.
module CharRange {
  const UINT32_MAX: nat := 0xffff_ffff

  // Number of boundary points at or below c.
  function CountLe(pts: seq<nat>, c: nat): (n: nat)
    ensures n <= |pts|
  {
    if pts == [] then 0
    else CountLe(pts[..|pts| - 1], c) + (if pts[|pts| - 1] <= c then 1 else 0)
  }

  predicate Member(pts: seq<nat>, c: nat) {
    CountLe(pts, c) % 2 == 1
  }

  predicate Sorted(pts: seq<nat>) {
    forall i, j :: 0 <= i < j < |pts| ==> pts[i] < pts[j]
  }

  // The points at or below c are the first CountLe(pts, c) ones.
  lemma {:induction false} CountSplits(pts: seq<nat>, c: nat)
    requires Sorted(pts)
    ensures forall i :: 0 <= i < |pts| ==> (pts[i] <= c <==> i < CountLe(pts, c))
  {
    if pts != [] {
      var front := pts[..|pts| - 1];
      CountSplits(front, c);
      assert forall i :: 0 <= i < |front| ==> pts[i] == front[i];
      assert pts[|pts| - 1] <= c ==> (CountLe(front, c) < |front| ==> front[CountLe(front, c)] <= c);
    }
  }

  // A character is in a sorted set iff it lies in one of its half-open intervals.
  lemma MemberInterval(pts: seq<nat>, c: nat)
    requires Sorted(pts) && |pts| % 2 == 0
    ensures Member(pts, c) <==> exists i :: 0 <= i < |pts| / 2 && pts[2 * i] <= c < pts[2 * i + 1]
  {
    CountSplits(pts, c);
    var k := CountLe(pts, c);
    if Member(pts, c) {
      var i := k / 2;
      assert 2 * i == k - 1 && pts[2 * i] <= c < pts[2 * i + 1];
    }
    if exists i :: 0 <= i < |pts| / 2 && pts[2 * i] <= c < pts[2 * i + 1] {
      var i :| 0 <= i < |pts| / 2 && pts[2 * i] <= c < pts[2 * i + 1];
      assert 2 * i < k && !(2 * i + 1 < k);
    }
  }
}
