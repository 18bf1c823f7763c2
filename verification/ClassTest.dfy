// The tests emitted for character classes accept exactly the members of the class.
module ClassTest {
  import opened CharRange
  import opened RegexSyntax
  import opened Bytecode
  import opened Codegen

  const MAX_CHAR: nat := 0x10ffff

  // The subject and its folded form are made of code points.
  ghost predicate EnvOk(e: Env) {
    forall i {:trigger e.input[i]} :: 0 <= i < |e.input| ==> e.input[i] <= MAX_CHAR && e.canon(e.input[i]) <= MAX_CHAR
  }

  lemma RangesWide(pts: seq<nat>, c: nat)
    requires Sorted(pts) && |pts| % 2 == 0
    ensures InRanges(RangesOf(pts, true), c) <==> Member(pts, c)
  {
    MemberInterval(pts, c);
    var rs := RangesOf(pts, true);
    if InRanges(rs, c) {
      var i :| 0 <= i < |rs| && rs[i].0 <= c <= rs[i].1;
      assert pts[2 * i] <= c < pts[2 * i + 1];
    }
    if Member(pts, c) {
      var i :| 0 <= i < |pts| / 2 && pts[2 * i] <= c < pts[2 * i + 1];
      assert rs[i].0 <= c <= rs[i].1;
    }
  }

  // One 16-bit range holds the characters of one interval, up to the stand-in for infinity.
  lemma RangeNarrow(pts: seq<nat>, i: nat, c: nat)
    requires Sorted(pts) && |pts| % 2 == 0 && i < |pts| / 2 && HighPoint(pts) <= 0xffff && c < UINT32_MAX
    requires pts[|pts| - 1] <= UINT32_MAX
    ensures var r := RangesOf(pts, false)[i];
      && (pts[2 * i + 1] < UINT32_MAX ==> r.1 < 0xffff && (r.0 <= c <= r.1 <==> pts[2 * i] <= c < pts[2 * i + 1]))
      && (pts[2 * i + 1] == UINT32_MAX ==> 2 * i + 2 == |pts| && r == (pts[2 * i], 0xffff) && pts[2 * i] <= 0xffff)
  {
    var n := |pts|;
    if 2 * i + 1 < n - 1 {
      assert pts[2 * i + 1] < pts[n - 1];
      assert 2 * i + 1 <= n - 2 && (2 * i + 1 < n - 2 ==> pts[2 * i + 1] < pts[n - 2]);
    }
    assert pts[2 * i] < pts[2 * i + 1];
    assert RangesOf(pts, false)[i] == (pts[2 * i], if pts[2 * i + 1] == UINT32_MAX then 0xffff else pts[2 * i + 1] - 1);
  }

  lemma NarrowIsMember(pts: seq<nat>, c: nat)
    requires Sorted(pts) && |pts| % 2 == 0 && pts != [] && HighPoint(pts) <= 0xffff && c < UINT32_MAX
    requires pts[|pts| - 1] <= UINT32_MAX && InRanges16(RangesOf(pts, false), c)
    ensures exists i :: 0 <= i < |pts| / 2 && pts[2 * i] <= c < pts[2 * i + 1]
  {
    var rs, h := RangesOf(pts, false), |pts| / 2;
    var i := h - 1;
    if InRanges(rs, c) {
      i :| 0 <= i < |rs| && rs[i].0 <= c <= rs[i].1;
    }
    RangeNarrow(pts, h - 1, c);
    RangeNarrow(pts, i, c);
    assert pts[2 * i] <= c < pts[2 * i + 1];
  }

  lemma MemberIsNarrow(pts: seq<nat>, c: nat, i: nat)
    requires Sorted(pts) && |pts| % 2 == 0 && pts != [] && HighPoint(pts) <= 0xffff && c < UINT32_MAX
    requires pts[|pts| - 1] <= UINT32_MAX && i < |pts| / 2 && pts[2 * i] <= c < pts[2 * i + 1]
    ensures InRanges16(RangesOf(pts, false), c)
  {
    var rs := RangesOf(pts, false);
    RangeNarrow(pts, i, c);
    if c < 0xffff || pts[2 * i + 1] < UINT32_MAX {
      assert rs[i].0 <= c <= rs[i].1;
    }
  }

  lemma RangesNarrow(pts: seq<nat>, c: nat)
    requires Sorted(pts) && |pts| % 2 == 0 && pts != [] && HighPoint(pts) <= 0xffff && c < UINT32_MAX
    requires pts[|pts| - 1] <= UINT32_MAX
    ensures InRanges16(RangesOf(pts, false), c) <==> Member(pts, c)
  {
    MemberInterval(pts, c);
    if InRanges16(RangesOf(pts, false), c) {
      NarrowIsMember(pts, c);
    }
    if Member(pts, c) {
      var i :| 0 <= i < |pts| / 2 && pts[2 * i] <= c < pts[2 * i + 1];
      MemberIsNarrow(pts, c, i);
    }
  }

  // Whatever form the test takes, it passes the members of the class and nothing else.
  lemma TestIsClass(e: Env, cls: CharClass, ch: nat)
    requires WellFormed(Char(cls))
    requires ch <= MAX_CHAR && e.canon(ch) <= MAX_CHAR
    ensures Passes(e, TestOf(e, cls), ch) <==> InClass(e, cls, ch)
  {
    if cls.Points? {
      var pts, c := cls.points, Fold(e, cls.icase, ch);
      if pts != [] {
        assert pts[|pts| - 1] <= UINT32_MAX;
        if HighPoint(pts) <= 0xffff {
          RangesNarrow(pts, c);
        } else {
          RangesWide(pts, c);
        }
      }
    }
  }
}
