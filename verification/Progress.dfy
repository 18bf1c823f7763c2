// Where a run can end: never behind its start, and strictly ahead of it when the scan of the code
// found that no advance check is needed.
module Progress {
  import opened RegexSyntax
  import opened Bytecode
  import opened Codegen
  import opened StructuredRun

  // y can follow x: same number of words, inside the input, not against the direction.
  predicate Onward(e: Env, bw: bool, x: VState, y: VState) {
    |y.w| == |x.w| && y.pos <= |e.input| && (if bw then y.pos <= x.pos else x.pos <= y.pos)
  }

  ghost predicate AllOnward(e: Env, bw: bool, x: VState, ys: seq<VState>) {
    forall y :: y in ys ==> Onward(e, bw, x, y)
  }

  ghost predicate AllAdvance(e: Env, bw: bool, x: VState, ys: seq<VState>) {
    forall y :: y in ys ==> Advances(e, bw, x.pos, y.pos)
  }

  lemma {:induction false} SameFromOnward(e: Env, icase: bool, i: int, t: int, p: nat)
    requires p <= |e.input|
    ensures var r := SameFrom(e, icase, i, t, p); r.Some? ==> p <= r.value <= |e.input|
    decreases t - i
  {
    if i < t && p < |e.input| {
      SameFromOnward(e, icase, i + 1, t, p + 1);
    }
  }

  lemma {:induction false} SameDownOnward(e: Env, icase: bool, s: int, t: int, p: nat)
    ensures var r := SameDown(e, icase, s, t, p); r.Some? ==> r.value <= p
    decreases t - s
  {
    if s < t && p > 0 {
      SameDownOnward(e, icase, s, t - 1, p - 1);
    }
  }

  lemma {:induction false} BackRefOnward(e: Env, bw: bool, icase: bool, groups: seq<nat>, x: VState)
    requires x.pos <= |e.input|
    ensures var r := BackRefV(e, bw, icase, groups, x); r.Some? ==> Onward(e, bw, x, VState(r.value, x.w))
  {
    if groups != [] {
      var g := groups[0];
      if 2 * g + 1 < |x.w| {
        SameDownOnward(e, icase, x.w[2 * g], x.w[2 * g + 1], x.pos);
        SameFromOnward(e, icase, x.w[2 * g], x.w[2 * g + 1], x.pos);
        BackRefOnward(e, bw, icase, groups[1..], x);
      }
    }
  }

  lemma CloseOnward(e: Env, bw: bool, lo: nat, x: VState, ys: seq<VState>)
    requires AllOnward(e, bw, OpenV(bw, lo, x), ys)
    ensures AllOnward(e, bw, x, CloseAllV(bw, lo, ys))
    ensures AllAdvance(e, bw, x, ys) ==> AllAdvance(e, bw, x, CloseAllV(bw, lo, ys))
  {
    forall y | y in CloseAllV(bw, lo, ys)
      ensures Onward(e, bw, x, y) && (AllAdvance(e, bw, x, ys) ==> Advances(e, bw, x.pos, y.pos))
    {
      var k :| 0 <= k < |ys| && y == CloseV(bw, lo, ys[k]);
      assert Onward(e, bw, OpenV(bw, lo, x), ys[k]);
    }
  }

  lemma {:induction false} RunOnward(e: Env, n: Node, bw: bool, lo: nat, x: VState)
    requires WellFormed(n) && x.pos <= |e.input|
    ensures AllOnward(e, bw, x, Run(e, n, bw, lo, x))
    decreases n, 1, 0, 0, 0
  {
    match n
    case Empty =>
      LeafOnward(e, n, bw, x);
    case Char(_) =>
      LeafOnward(e, n, bw, x);
    case Assert(_) =>
      LeafOnward(e, n, bw, x);
    case BackRef(groups, icase) =>
      LeafOnward(e, n, bw, x);
    case Seq(l, r) =>
      SeqOnward(e, n, bw, lo, x);
    case Alt(l, r) =>
      RunOnward(e, l, bw, lo, x);
      RunOnward(e, r, bw, lo + Groups(l), x);
      OnwardConcat(e, bw, x, Run(e, l, bw, lo, x), Run(e, r, bw, lo + Groups(l), x));
    case Group(b) =>
      RunOnward(e, b, bw, lo + 1, OpenV(bw, lo, x));
      CloseOnward(e, bw, lo, x, Run(e, b, bw, lo + 1, OpenV(bw, lo, x)));
    case Look(behind, neg, b) =>
      LookOnward(e, n, bw, lo, x);
    case Quant(b, min, max, greedy) =>
      QuantOnward(e, n, bw, lo, x);
  }

  lemma LeafOnward(e: Env, n: Node, bw: bool, x: VState)
    requires n.Empty? || n.Char? || n.Assert? || n.BackRef?
    requires WellFormed(n) && x.pos <= |e.input|
    ensures AllOnward(e, bw, x, AtV(AtomToV(e, n, bw, x), x))
  {
    if n.BackRef? {
      BackRefOnward(e, bw, n.icase, n.groups, x);
    }
  }

  lemma OnwardConcat(e: Env, bw: bool, x: VState, ys: seq<VState>, zs: seq<VState>)
    requires AllOnward(e, bw, x, ys) && AllOnward(e, bw, x, zs)
    ensures AllOnward(e, bw, x, ys + zs)
  {
  }

  lemma {:induction false} SeqOnward(e: Env, n: Node, bw: bool, lo: nat, x: VState)
    requires n.Seq? && WellFormed(n) && x.pos <= |e.input|
    ensures AllOnward(e, bw, x, Run(e, n, bw, lo, x))
    decreases n, 0, 0, 0, 0
  {
    if bw {
      RunOnward(e, n.r, bw, lo + Groups(n.l), x);
      RunAllOnward(e, n.l, bw, lo, x, Run(e, n.r, bw, lo + Groups(n.l), x));
    } else {
      RunOnward(e, n.l, bw, lo, x);
      RunAllOnward(e, n.r, bw, lo + Groups(n.l), x, Run(e, n.l, bw, lo, x));
    }
  }

  lemma {:induction false} LookOnward(e: Env, n: Node, bw: bool, lo: nat, x: VState)
    requires n.Look? && WellFormed(n) && x.pos <= |e.input|
    ensures AllOnward(e, bw, x, Run(e, n, bw, lo, x))
    decreases n, 0, 0, 0, 0
  {
    RunOnward(e, n.body, n.behind, lo, x);
    var ys := Run(e, n.body, n.behind, lo, x);
    if ys != [] {
      assert Onward(e, n.behind, x, ys[0]);
    }
  }

  lemma {:induction false} QuantOnward(e: Env, n: Node, bw: bool, lo: nat, x: VState)
    requires n.Quant? && WellFormed(n) && x.pos <= |e.input|
    ensures AllOnward(e, bw, x, Run(e, n, bw, lo, x))
    decreases n, 0, 0, 0, 0
  {
    var Quant(b, min, max, greedy) := n;
    var p := PlanOf(Code(e, b, bw, lo), Groups(b), min);
    RunQuantOnward(e, Loop(b, bw, lo, p, greedy), min, MaxInt(max), ClearIf(p.pre, x, lo, Groups(b)));
  }

  lemma {:induction false} RunQuantOnward(e: Env, q: Loop, min: nat, max: nat, x: VState)
    requires WellFormed(q.b) && min <= max && x.pos <= |e.input|
    ensures AllOnward(e, q.bw, x, RunQuant(e, q, min, max, x))
    decreases q.b, 4, 0, 0, 0
  {
    match ShapeOf(min, max, q.plan.check)
    case Nothing =>
    case Star(once) =>
      StarOnward(e, q, once, x);
    case Optional =>
      CountedOnward(e, q, q.plan.check, max, max, x);
    case Plus =>
      AtomOnward(e, q, x);
      StarAllOnward(e, q, false, x, Run(e, q.b, q.bw, q.lo, ClearIf(q.plan.reset, x, q.lo, Groups(q.b))));
    case Counted =>
      CountedOnward(e, q, q.plan.check && min != max, max, max - min, x);
  }

  lemma {:induction false} RunAllOnward(e: Env, n: Node, bw: bool, lo: nat, x: VState, xs: seq<VState>)
    requires WellFormed(n) && x.pos <= |e.input| && AllOnward(e, bw, x, xs)
    ensures AllOnward(e, bw, x, RunAll(e, n, bw, lo, xs))
    decreases n, 2, |xs|, 0, 0
  {
    if xs != [] {
      assert Onward(e, bw, x, xs[0]);
      RunOnward(e, n, bw, lo, xs[0]);
      RunAllOnward(e, n, bw, lo, x, xs[1..]);
    }
  }

  lemma {:induction false} AtomOnward(e: Env, q: Loop, x: VState)
    requires WellFormed(q.b) && x.pos <= |e.input|
    ensures AllOnward(e, q.bw, x, Run(e, q.b, q.bw, q.lo, ClearIf(q.plan.reset, x, q.lo, Groups(q.b))))
    decreases q.b, 2, 0, 0, 0
  {
    RunOnward(e, q.b, q.bw, q.lo, ClearIf(q.plan.reset, x, q.lo, Groups(q.b)));
  }

  lemma {:induction false} StarOnward(e: Env, q: Loop, once: bool, x: VState)
    requires WellFormed(q.b) && x.pos <= |e.input|
    ensures AllOnward(e, q.bw, x, RunStar(e, q, once, x))
    decreases q.b, 3, Room(e, q.bw, x.pos), 1, 0
  {
    AtomOnward(e, q, x);
    StarAllOnward(e, q, once, x, Run(e, q.b, q.bw, q.lo, ClearIf(q.plan.reset, x, q.lo, Groups(q.b))));
  }

  lemma {:induction false} StarAllOnward(e: Env, q: Loop, once: bool, x: VState, ys: seq<VState>)
    requires WellFormed(q.b) && x.pos <= |e.input| && AllOnward(e, q.bw, x, ys)
    ensures AllOnward(e, q.bw, x, RunStarAll(e, q, once, x.pos, ys))
    decreases q.b, 3, Room(e, q.bw, x.pos), 0, |ys|
  {
    if ys != [] {
      assert Onward(e, q.bw, x, ys[0]);
      if Advances(e, q.bw, x.pos, ys[0].pos) && !once {
        StarOnward(e, q, once, ys[0]);
      }
      StarAllOnward(e, q, once, x, ys[1..]);
    }
  }

  lemma {:induction false} CountedOnward(e: Env, q: Loop, check: bool, count: nat, limit: nat, x: VState)
    requires WellFormed(q.b) && count > 0 && x.pos <= |e.input|
    ensures AllOnward(e, q.bw, x, RunCounted(e, q, check, count, limit, x))
    decreases q.b, 3, count, 1, 0
  {
    AtomOnward(e, q, x);
    CountedAllOnward(e, q, check, count - 1, limit, x,
                     Run(e, q.b, q.bw, q.lo, ClearIf(q.plan.reset, x, q.lo, Groups(q.b))));
  }

  lemma {:induction false} CountedAllOnward(e: Env, q: Loop, check: bool, left: nat, limit: nat, x: VState,
                                            ys: seq<VState>)
    requires WellFormed(q.b) && x.pos <= |e.input| && AllOnward(e, q.bw, x, ys)
    ensures AllOnward(e, q.bw, x, RunCountedAll(e, q, check, left, limit, x.pos, ys))
    decreases q.b, 3, left + 1, 0, |ys|
  {
    if ys != [] {
      assert Onward(e, q.bw, x, ys[0]);
      if left != 0 {
        CountedOnward(e, q, check, left, limit, ys[0]);
      }
      CountedAllOnward(e, q, check, left, limit, x, ys[1..]);
    }
  }

  // ---- Strict progress ----

  // If the scan of the emitted code says that no advance check is needed, every way through the
  // pattern moves strictly in the direction of matching.
  lemma {:induction false} NoCheckNeeded(e: Env, n: Node, bw: bool, lo: nat, x: VState)
    requires WellFormed(n) && x.pos <= |e.input|
    requires !Scan(Code(e, n, bw, lo)).needAdv
    ensures AllAdvance(e, bw, x, Run(e, n, bw, lo, x))
    decreases n, 1, 0
  {
    match n
    case Empty =>
    case Char(_) =>
    case Assert(a) =>
      ScanOne(OAssert(a));
    case BackRef(groups, icase) =>
      ScanOne(OBackRef(bw, icase, groups));
    case Seq(l, r) =>
      NoCheckSeq(e, l, r, bw, lo, x);
    case Alt(l, r) =>
    case Group(b) =>
      NoCheckGroup(e, n, bw, lo, x);
    case Look(behind, neg, b) =>
    case Quant(b, min, max, greedy) =>
      NoCheckQuant(e, n, bw, lo, x);
  }

  lemma {:induction false} NoCheckGroup(e: Env, n: Node, bw: bool, lo: nat, x: VState)
    requires n.Group? && WellFormed(n) && x.pos <= |e.input|
    requires !Scan(Code(e, n, bw, lo)).needAdv
    ensures AllAdvance(e, bw, x, Run(e, n, bw, lo, x))
    decreases n, 0, 0
  {
    var b := n.body;
    var c := Code(e, b, bw, lo + 1);
    assert Code(e, n, bw, lo)[1..] == c + [OSave(!bw, lo)];
    ScanOne(OSave(!bw, lo));
    ScanConcat(c, [OSave(!bw, lo)]);
    NoCheckNeeded(e, b, bw, lo + 1, OpenV(bw, lo, x));
    RunOnward(e, b, bw, lo + 1, OpenV(bw, lo, x));
    CloseOnward(e, bw, lo, x, Run(e, b, bw, lo + 1, OpenV(bw, lo, x)));
  }

  lemma ScanOne(op: Op)
    ensures op.OAssert? || op.OBackRef? || op.OSave? || op.OSaveReset? ==> Scan([op]).needAdv
    ensures op.OSetI32? || op.OSetCharPos? ==> Scan([op]).needAdv
    ensures op.OSplit? || op.OLoop? || op.OLoopSplit? ==> Scan([op]) == ScanResult(true, true)
  {
    assert [op][1..] == [];
  }

  lemma {:induction false} NoCheckSeq(e: Env, l: Node, r: Node, bw: bool, lo: nat, x: VState)
    requires WellFormed(Seq(l, r)) && x.pos <= |e.input|
    requires !Scan(Code(e, Seq(l, r), bw, lo)).needAdv
    ensures AllAdvance(e, bw, x, Run(e, Seq(l, r), bw, lo, x))
    decreases Seq(l, r), 0, 1
  {
    if bw {
      NoCheckThen(e, Seq(l, r), r, lo + Groups(l), l, lo, bw, x);
    } else {
      NoCheckThen(e, Seq(l, r), l, lo, r, lo + Groups(l), bw, x);
    }
  }

  lemma {:induction false} NoCheckThen(e: Env, n: Node, a: Node, la: nat, b: Node, lb: nat, bw: bool, x: VState)
    requires n.Seq? && ((a == n.l && b == n.r) || (a == n.r && b == n.l))
    requires WellFormed(a) && WellFormed(b) && x.pos <= |e.input|
    requires !Scan(Code(e, a, bw, la) + Code(e, b, bw, lb)).needAdv
    ensures AllAdvance(e, bw, x, RunAll(e, b, bw, lb, Run(e, a, bw, la, x)))
    decreases n, 0, 0
  {
    ScanConcat(Code(e, a, bw, la), Code(e, b, bw, lb));
    RunOnward(e, a, bw, la, x);
    var before := !Scan(Code(e, a, bw, la)).needAdv;
    if before {
      NoCheckNeeded(e, a, bw, la, x);
    }
    NoCheckAll(e, b, bw, lb, x, Run(e, a, bw, la, x), before);
  }

  lemma {:induction false} NoCheckAll(e: Env, n: Node, bw: bool, lo: nat, x: VState, xs: seq<VState>, before: bool)
    requires WellFormed(n) && x.pos <= |e.input| && AllOnward(e, bw, x, xs)
    requires if before then AllAdvance(e, bw, x, xs) else !Scan(Code(e, n, bw, lo)).needAdv
    ensures AllAdvance(e, bw, x, RunAll(e, n, bw, lo, xs))
    decreases n, 2, |xs|
  {
    if xs != [] {
      assert Onward(e, bw, x, xs[0]);
      assert before ==> Advances(e, bw, x.pos, xs[0].pos);
      RunOnward(e, n, bw, lo, xs[0]);
      if !before {
        NoCheckNeeded(e, n, bw, lo, xs[0]);
      }
      forall y | y in Run(e, n, bw, lo, xs[0])
        ensures Advances(e, bw, x.pos, y.pos)
      {
        assert Onward(e, bw, xs[0], y);
      }
      NoCheckAll(e, n, bw, lo, x, xs[1..], before);
    }
  }

  // The atom advances already when the scan of the whole quantifier finds no need for a check.
  lemma {:induction false} QuantScan(p: Plan, c: seq<Op>, lo: nat, groups: nat, min: nat, max: nat, greedy: bool)
    requires groups == 0 ==> !p.reset && !p.pre
    requires p == PlanOf(c, groups, min)
    requires min <= max
    requires !Scan(QuantCode(p, c, lo, groups, min, max, greedy, 0, 0)).needAdv
    ensures !Scan(c).needAdv
    ensures ShapeOf(min, max, p.check).Plus? || ShapeOf(min, max, p.check).Counted?
  {
    var a := WithReset(p, c, lo, groups);
    var loop := LoopCode(a, p.check, min, max, greedy, 0, 0);
    ResetScan(p.pre, lo, groups, loop);
    ResetScan(p.reset, lo, groups, c);
    LoopScan(a, p.check, min, max, greedy);
  }

  // Resetting captures makes no difference to the scan.
  lemma ResetScan(on: bool, lo: nat, groups: nat, c: seq<Op>)
    requires on ==> groups > 0
    ensures var code := if on then [OSaveReset(lo, lo + groups - 1)] + c else c;
      (if on then [OSaveReset(lo, lo + groups - 1)] else []) + c == code && Scan(code).needAdv == Scan(c).needAdv
  {
    if on {
      ScanOne(OSaveReset(lo, lo + groups - 1));
      ScanConcat([OSaveReset(lo, lo + groups - 1)], c);
    }
  }

  lemma LoopScan(a: seq<Op>, check: bool, min: nat, max: nat, greedy: bool)
    requires min <= max
    requires !Scan(LoopCode(a, check, min, max, greedy, 0, 0)).needAdv
    ensures !Scan(a).needAdv
    ensures ShapeOf(min, max, check).Plus? || ShapeOf(min, max, check).Counted?
  {
    match ShapeOf(min, max, check)
    case Nothing =>
    case Star(once) =>
    case Optional =>
    case Plus =>
      ScanOne(OSplit(!greedy, -(|a| + 1)));
      ScanConcat(a, [OSplit(!greedy, -(|a| + 1))]);
    case Counted =>
      CountedScan(a, check && min != max, greedy, max, max - min);
  }

  lemma CountedScan(a: seq<Op>, check: bool, greedy: bool, count: nat, limit: nat)
    ensures !Scan(CountedCode(a, check, greedy, count, limit, 0, 0)).needAdv ==> !Scan(a).needAdv
  {
    var code := CountedCode(a, check, greedy, count, limit, 0, 0);
    var last := code[|code| - 1];
    var front := [OSetI32(0, count)] + If(check, OSetCharPos(0));
    assert code == front + (a + [last]);
    ScanOne(OSetI32(0, count));
    ScanOne(OSetCharPos(0));
    ScanConcat([OSetI32(0, count)], If(check, OSetCharPos(0)));
    ScanConcat(front, a + [last]);
    ScanOne(last);
    ScanConcat(a, [last]);
  }

  lemma {:induction false} NoCheckQuant(e: Env, n: Node, bw: bool, lo: nat, x: VState)
    requires n.Quant? && WellFormed(n) && x.pos <= |e.input|
    requires !Scan(Code(e, n, bw, lo)).needAdv
    ensures AllAdvance(e, bw, x, Run(e, n, bw, lo, x))
    decreases n, 0, 0
  {
    var Quant(b, min, max, greedy) := n;
    var c := Code(e, b, bw, lo);
    var p := PlanOf(c, Groups(b), min);
    var q := Loop(b, bw, lo, p, greedy);
    var m := MaxInt(max);
    QuantScan(p, c, lo, Groups(b), min, m, greedy);
    var x' := ClearIf(p.reset, x, lo, Groups(b));
    var ys := Run(e, b, bw, lo, x');
    RunOnward(e, b, bw, lo, x');
    NoCheckNeeded(e, b, bw, lo, x');
    if ShapeOf(min, m, p.check).Plus? {
      StarAllKeepsAdvance(e, q, x, ys);
    } else {
      assert RunQuant(e, q, min, m, x) == RunCounted(e, q, p.check && min != m, m, m - min, x);
      CountedAllKeepsAdvance(e, q, p.check && min != m, m - 1, m - min, x, ys);
    }
  }

  lemma {:induction false} StarAllKeepsAdvance(e: Env, q: Loop, x: VState, ys: seq<VState>)
    requires WellFormed(q.b) && x.pos <= |e.input| && AllOnward(e, q.bw, x, ys) && AllAdvance(e, q.bw, x, ys)
    ensures AllAdvance(e, q.bw, x, RunStarAll(e, q, false, x.pos, ys))
    decreases |ys|
  {
    if ys != [] {
      assert Onward(e, q.bw, x, ys[0]) && Advances(e, q.bw, x.pos, ys[0].pos);
      StarOnward(e, q, false, ys[0]);
      forall y | y in RunStar(e, q, false, ys[0])
        ensures Advances(e, q.bw, x.pos, y.pos)
      {
        assert Onward(e, q.bw, ys[0], y);
      }
      StarAllKeepsAdvance(e, q, x, ys[1..]);
    }
  }

  lemma {:induction false} CountedAllKeepsAdvance(e: Env, q: Loop, check: bool, left: nat, limit: nat, x: VState,
                                                  ys: seq<VState>)
    requires WellFormed(q.b) && x.pos <= |e.input| && AllOnward(e, q.bw, x, ys) && AllAdvance(e, q.bw, x, ys)
    ensures AllAdvance(e, q.bw, x, RunCountedAll(e, q, check, left, limit, x.pos, ys))
    decreases |ys|
  {
    if ys != [] {
      assert Onward(e, q.bw, x, ys[0]) && Advances(e, q.bw, x.pos, ys[0].pos);
      if left != 0 {
        CountedOnward(e, q, check, left, limit, ys[0]);
        forall y | y in RunCounted(e, q, check, left, limit, ys[0])
          ensures Advances(e, q.bw, x.pos, y.pos)
        {
          assert Onward(e, q.bw, ys[0], y);
        }
      }
      CountedAllKeepsAdvance(e, q, check, left, limit, x, ys[1..]);
    }
  }
}
