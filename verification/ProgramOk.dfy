// The range tables in compiled code are sorted, as the bisection in the matcher needs.
module ProgramOk {
  import opened CharRange
  import opened RegexSyntax
  import opened Bytecode
  import opened Codegen
  import opened BacktrackVM

  lemma TestsConcat(a: seq<Op>, b: seq<Op>)
    requires ProgOk(a) && ProgOk(b)
    ensures ProgOk(a + b)
  {
    forall i | 0 <= i < |a + b| && (a + b)[i].OChar?
      ensures TestOk((a + b)[i].t)
    {
      assert (a + b)[i] == if i < |a| then a[i] else b[i - |a|];
    }
  }

  lemma RangesOk(pts: seq<nat>, wide: bool)
    requires Sorted(pts) && |pts| % 2 == 0 && 0 < |pts| / 2 < 65535
    requires !wide ==> HighPoint(pts) <= 0xffff
    requires forall i :: 0 <= i < |pts| ==> pts[i] <= UINT32_MAX
    ensures RangesSorted(RangesOf(pts, wide))
  {
    var rs, n := RangesOf(pts, wide), |pts| / 2;
    forall i | 0 <= i < n
      ensures rs[i].0 <= rs[i].1 && (i + 1 < n ==> rs[i].1 == pts[2 * i + 1] - 1)
    {
      assert pts[2 * i] < pts[2 * i + 1];
      if i + 1 < n {
        assert pts[2 * i + 1] < pts[|pts| - 1] <= UINT32_MAX;
      } else {
        assert 2 * i + 2 == |pts|;
      }
    }
    forall i, j | 0 <= i < j < n
      ensures rs[i].1 < rs[j].0
    {
      assert rs[i].1 == pts[2 * i + 1] - 1 && rs[j].0 == pts[2 * j];
      assert 2 * i + 1 < 2 * j;
    }
  }

  lemma TestIsOk(e: Env, cls: CharClass)
    requires WellFormed(Char(cls))
    ensures TestOk(TestOf(e, cls))
  {
    if cls.Points? && cls.points != [] {
      assert |cls.points| / 2 > 0;
      RangesOk(cls.points, HighPoint(cls.points) > 0xffff);
    }
  }

  lemma {:induction false} CodeOk(e: Env, n: Node, bw: bool, lo: nat, d: nat)
    requires WellFormed(n)
    ensures ProgOk(CodeR(e, n, bw, lo, d))
    decreases n, 1
  {
    match n
    case Empty =>
    case Char(cls) => CharOk(e, cls, bw, lo, d);
    case Assert(_) =>
    case BackRef(_, _) =>
    case Seq(l, r) => SeqOk(e, l, r, bw, lo, d);
    case Alt(l, r) => AltNodeOk(e, l, r, bw, lo, d);
    case Group(b) => GroupOk(e, b, bw, lo, d);
    case Look(behind, neg, b) => LookOk(e, behind, neg, b, bw, lo, d);
    case Quant(b, min, max, greedy) => QuantNodeOk(e, b, min, max, greedy, bw, lo, d);
  }

  lemma CharOk(e: Env, cls: CharClass, bw: bool, lo: nat, d: nat)
    requires WellFormed(Char(cls))
    ensures ProgOk(CodeR(e, Char(cls), bw, lo, d))
  {
    TestIsOk(e, cls);
    assert CodeR(e, Char(cls), bw, lo, d) == Stepwise(bw, OChar(TestOf(e, cls)));
  }

  lemma {:induction false} SeqOk(e: Env, l: Node, r: Node, bw: bool, lo: nat, d: nat)
    requires WellFormed(Seq(l, r))
    ensures ProgOk(CodeR(e, Seq(l, r), bw, lo, d))
    decreases Seq(l, r), 0
  {
    CodeOk(e, l, bw, lo, d);
    CodeOk(e, r, bw, lo + Groups(l), d);
    SeqJoin(e, l, r, bw, lo, d);
  }

  lemma SeqJoin(e: Env, l: Node, r: Node, bw: bool, lo: nat, d: nat)
    requires WellFormed(Seq(l, r))
    requires ProgOk(CodeR(e, l, bw, lo, d)) && ProgOk(CodeR(e, r, bw, lo + Groups(l), d))
    ensures ProgOk(CodeR(e, Seq(l, r), bw, lo, d))
  {
    var cl, cr := CodeR(e, l, bw, lo, d), CodeR(e, r, bw, lo + Groups(l), d);
    assert CodeR(e, Seq(l, r), bw, lo, d) == if bw then cr + cl else cl + cr;
    if bw {
      TestsConcat(cr, cl);
    } else {
      TestsConcat(cl, cr);
    }
  }

  lemma {:induction false} AltNodeOk(e: Env, l: Node, r: Node, bw: bool, lo: nat, d: nat)
    requires WellFormed(Alt(l, r))
    ensures ProgOk(CodeR(e, Alt(l, r), bw, lo, d))
    decreases Alt(l, r), 0
  {
    CodeOk(e, l, bw, lo, d);
    CodeOk(e, r, bw, lo + Groups(l), d);
    var cl, cr := CodeR(e, l, bw, lo, d), CodeR(e, r, bw, lo + Groups(l), d);
    assert CodeR(e, Alt(l, r), bw, lo, d) == AltCode(cl, cr);
    AltOk(cl, cr);
  }

  lemma {:induction false} GroupOk(e: Env, b: Node, bw: bool, lo: nat, d: nat)
    requires WellFormed(Group(b))
    ensures ProgOk(CodeR(e, Group(b), bw, lo, d))
    decreases Group(b), 0
  {
    CodeOk(e, b, bw, lo + 1, d);
    var c := CodeR(e, b, bw, lo + 1, d);
    assert CodeR(e, Group(b), bw, lo, d) == [OSave(bw, lo)] + c + [OSave(!bw, lo)];
    WrapOk(OSave(bw, lo), c, OSave(!bw, lo));
  }

  lemma {:induction false} LookOk(e: Env, behind: bool, neg: bool, b: Node, bw: bool, lo: nat, d: nat)
    requires WellFormed(Look(behind, neg, b))
    ensures ProgOk(CodeR(e, Look(behind, neg, b), bw, lo, d))
    decreases Look(behind, neg, b), 0
  {
    CodeOk(e, b, behind, lo, d);
    var c := CodeR(e, b, behind, lo, d);
    assert CodeR(e, Look(behind, neg, b), bw, lo, d) == [OLook(neg, |c| + 1)] + c + [OLookMatch(neg)];
    WrapOk(OLook(neg, |c| + 1), c, OLookMatch(neg));
  }

  lemma {:induction false} QuantNodeOk(e: Env, b: Node, min: nat, max: Option<nat>, greedy: bool, bw: bool, lo: nat,
                                       d: nat)
    requires WellFormed(Quant(b, min, max, greedy))
    ensures ProgOk(CodeR(e, Quant(b, min, max, greedy), bw, lo, d))
    decreases Quant(b, min, max, greedy), 0
  {
    var p := PlanOf(Code(e, b, bw, lo), Groups(b), min);
    CodeOk(e, b, bw, lo, d + Held(p, min, MaxInt(max)));
    QuantJoin(e, b, min, max, greedy, bw, lo, d, p);
  }

  lemma QuantJoin(e: Env, b: Node, min: nat, max: Option<nat>, greedy: bool, bw: bool, lo: nat, d: nat, p: Plan)
    requires WellFormed(Quant(b, min, max, greedy)) && p == PlanOf(Code(e, b, bw, lo), Groups(b), min)
    requires ProgOk(CodeR(e, b, bw, lo, d + Held(p, min, MaxInt(max))))
    ensures ProgOk(CodeR(e, Quant(b, min, max, greedy), bw, lo, d))
  {
    var rp := PosReg(ShapeOf(min, MaxInt(max), p.check), d);
    var c := CodeR(e, b, bw, lo, d + Held(p, min, MaxInt(max)));
    QuantCodeIs(e, b, min, max, greedy, bw, lo, d, p, c);
    QuantOk(p, c, lo, Groups(b), min, MaxInt(max), greedy, d, rp);
  }

  lemma AltOk(l: seq<Op>, r: seq<Op>)
    requires ProgOk(l) && ProgOk(r)
    ensures ProgOk(AltCode(l, r))
  {
    WrapOk(OSplit(true, |l| + 1), l, OGoto(|r|));
    TestsConcat([OSplit(true, |l| + 1)] + l + [OGoto(|r|)], r);
  }

  lemma WrapOk(first: Op, c: seq<Op>, last: Op)
    requires !first.OChar? && !last.OChar? && ProgOk(c)
    ensures ProgOk([first] + c + [last])
  {
    TestsConcat([first], c);
    TestsConcat([first] + c, [last]);
  }

  lemma QuantOk(p: Plan, c: seq<Op>, lo: nat, groups: nat, min: nat, max: nat, greedy: bool, rc: nat, rp: nat)
    requires (groups == 0 ==> !p.reset && !p.pre) && min <= max && ProgOk(c)
    ensures ProgOk(QuantCode(p, c, lo, groups, min, max, greedy, rc, rp))
  {
    var a := WithReset(p, c, lo, groups);
    TestsConcat(if p.reset then [OSaveReset(lo, lo + groups - 1)] else [], c);
    LoopOk(a, p.check, min, max, greedy, rc, rp);
    TestsConcat(if p.pre then [OSaveReset(lo, lo + groups - 1)] else [],
                LoopCode(a, p.check, min, max, greedy, rc, rp));
  }

  lemma StarOk(a: seq<Op>, check: bool, once: bool, greedy: bool, rp: nat)
    requires ProgOk(a)
    ensures ProgOk(StarCode(a, check, once, greedy, rp))
  {
    var sp := [OSplit(greedy, |a| + B2I(!once) + 2 * B2I(check))];
    TestsConcat(sp, If(check, OSetCharPos(rp)));
    TestsConcat(sp + If(check, OSetCharPos(rp)), a);
    TestsConcat(sp + If(check, OSetCharPos(rp)) + a, If(check, OCheckAdvance(rp)));
    TestsConcat(sp + If(check, OSetCharPos(rp)) + a + If(check, OCheckAdvance(rp)),
                If(!once, OGoto(-(|a| + 2 + 2 * B2I(check)))));
  }

  lemma LoopOk(a: seq<Op>, check: bool, min: nat, max: nat, greedy: bool, rc: nat, rp: nat)
    requires min <= max && ProgOk(a)
    ensures ProgOk(LoopCode(a, check, min, max, greedy, rc, rp))
  {
    match ShapeOf(min, max, check)
    case Nothing =>
    case Star(once) =>
      StarOk(a, check, once, greedy, rp);
    case Optional =>
      CountedOk(a, check, greedy, max, max, rc, rp);
      TestsConcat([OSplit(greedy, |CountedCode(a, check, greedy, max, max, rc, rp)|)],
                  CountedCode(a, check, greedy, max, max, rc, rp));
    case Plus =>
      TestsConcat(a, [OSplit(!greedy, -(|a| + 1))]);
    case Counted =>
      CountedOk(a, check && min != max, greedy, max, max - min, rc, rp);
  }

  lemma CountedOk(a: seq<Op>, check: bool, greedy: bool, count: nat, limit: nat, rc: nat, rp: nat)
    requires ProgOk(a)
    ensures ProgOk(CountedCode(a, check, greedy, count, limit, rc, rp))
  {
    var si := [OSetI32(rc, count)];
    TestsConcat(si, If(check, OSetCharPos(rp)));
    TestsConcat(si + If(check, OSetCharPos(rp)), a);
    TestsConcat(si + If(check, OSetCharPos(rp)) + a,
                [if limit == 0 then OLoop(rc, -(|a| + 1))
                 else OLoopSplit(!greedy, check, rc, limit, -(|a| + 1 + B2I(check)))]);
  }
}
