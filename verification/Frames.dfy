// What a match leaves alone, in ECMA-262 and in the machine.
module Frames {
  import opened RegexSyntax
  import opened Codegen
  import opened EcmaSemantics
  import opened StructuredRun

  // The groups that running the pattern can set: those not under a quantifier {0}.
  function Live(n: Node, lo: nat): set<nat> {
    match n
    case Empty => {}
    case Char(_) => {}
    case Assert(_) => {}
    case BackRef(_, _) => {}
    case Seq(l, r) => Live(l, lo) + Live(r, lo + Groups(l))
    case Alt(l, r) => Live(l, lo) + Live(r, lo + Groups(l))
    case Group(b) => {lo} + Live(b, lo + 1)
    case Look(_, _, b) => Live(b, lo)
    case Quant(b, _, max, _) => if max == Some(0) then {} else Live(b, lo)
  }

  lemma {:induction false} LiveInside(n: Node, lo: nat)
    ensures forall g :: g in Live(n, lo) ==> lo <= g < lo + Groups(n)
    decreases n
  {
    match n
    case Empty =>
    case Char(_) =>
    case Assert(_) =>
    case BackRef(_, _) =>
    case Seq(l, r) =>
      LiveInside(l, lo);
      LiveInside(r, lo + Groups(l));
    case Alt(l, r) =>
      LiveInside(l, lo);
      LiveInside(r, lo + Groups(l));
    case Group(b) =>
      LiveInside(b, lo + 1);
    case Look(_, _, b) =>
      LiveInside(b, lo);
    case Quant(b, _, _, _) =>
      LiveInside(b, lo);
  }

  // The groups from lo to hi are undefined.
  ghost predicate Fresh(x: MState, lo: nat, hi: nat) {
    forall g :: lo <= g < hi && g < |x.caps| ==> x.caps[g].None?
  }

  // ---- Frames: what a match leaves alone ----

  // Same number of groups, and the same values outside the set.
  ghost predicate SameCaps(x: MState, y: MState, live: set<nat>) {
    |y.caps| == |x.caps| && forall g :: 0 <= g < |x.caps| && g !in live ==> y.caps[g] == x.caps[g]
  }

  ghost predicate AllSameCaps(x: MState, ys: seq<MState>, live: set<nat>) {
    forall y :: y in ys ==> SameCaps(x, y, live)
  }

  lemma {:induction false} SemFrame(e: Env, n: Node, bw: bool, lo: nat, x: MState)
    requires Fresh(x, lo, lo + Groups(n))
    ensures AllSameCaps(x, Sem(e, n, bw, lo, x), Live(n, lo))
    decreases n, 1, 0, 0, 0, 0
  {
    match n
    case Empty =>
    case Char(_) =>
    case Assert(_) =>
    case BackRef(_, _) =>
    case Seq(l, r) =>
      var live := Live(l, lo) + Live(r, lo + Groups(l));
      if bw {
        SeqFrame(e, n, r, lo + Groups(l), l, lo, bw, x, live);
      } else {
        SeqFrame(e, n, l, lo, r, lo + Groups(l), bw, x, live);
      }
    case Alt(l, r) =>
      SemFrame(e, l, bw, lo, x);
      SemFrame(e, r, bw, lo + Groups(l), x);
      CapsConcat(x, Sem(e, l, bw, lo, x), Sem(e, r, bw, lo + Groups(l), x), Live(l, lo), Live(r, lo + Groups(l)));
    case Group(b) =>
      SemFrame(e, b, bw, lo + 1, x);
      CloseFrame(bw, lo, x, Sem(e, b, bw, lo + 1, x), Live(b, lo + 1));
    case Look(behind, neg, b) =>
      SemFrame(e, b, behind, lo, x);
      LookFrame(x, Sem(e, b, behind, lo, x), Live(b, lo));
    case Quant(b, min, max, greedy) =>
      if max != Some(0) {
        RepFrame(e, b, bw, lo, min, max, greedy, x, x);
      }
  }

  lemma CapsConcat(x: MState, ys: seq<MState>, zs: seq<MState>, a: set<nat>, b: set<nat>)
    requires AllSameCaps(x, ys, a) && AllSameCaps(x, zs, b)
    ensures AllSameCaps(x, ys + zs, a + b)
  {
    forall y | y in ys + zs
      ensures SameCaps(x, y, a + b)
    {
      assert SameCaps(x, y, a) || SameCaps(x, y, b);
    }
  }

  lemma LookFrame(x: MState, ys: seq<MState>, live: set<nat>)
    requires AllSameCaps(x, ys, live)
    ensures ys != [] ==> SameCaps(x, MState(x.pos, ys[0].caps), live)
  {
    if ys != [] {
      assert ys[0] in ys;
    }
  }

  lemma CloseFrame(bw: bool, lo: nat, x: MState, ys: seq<MState>, live: set<nat>)
    requires AllSameCaps(x, ys, live)
    ensures AllSameCaps(x, CloseAll(bw, lo, x.pos, ys), {lo} + live)
  {
    forall z | z in CloseAll(bw, lo, x.pos, ys)
      ensures SameCaps(x, z, {lo} + live)
    {
      var k :| 0 <= k < |ys| && z == Close(bw, lo, x.pos, ys[k]);
      assert SameCaps(x, ys[k], live);
    }
  }

  lemma {:induction false} SeqFrame(e: Env, n: Node, a: Node, la: nat, b: Node, lb: nat, bw: bool, x: MState,
                                    live: set<nat>)
    requires Fresh(x, la, la + Groups(a)) && Fresh(x, lb, lb + Groups(b))
    requires la + Groups(a) <= lb || lb + Groups(b) <= la
    requires Live(a, la) <= live && Live(b, lb) <= live
    requires n.Seq? && ((a == n.l && b == n.r) || (a == n.r && b == n.l))
    ensures AllSameCaps(x, SemAll(e, b, bw, lb, Sem(e, a, bw, la, x)), live)
    decreases n, 0, 0, 0, 0, 0
  {
    SemFrame(e, a, bw, la, x);
    LiveInside(a, la);
    SemAllFrame(e, b, bw, lb, x, Sem(e, a, bw, la, x), Live(a, la), live);
  }

  lemma {:induction false} SemAllFrame(e: Env, n: Node, bw: bool, lo: nat, x: MState, xs: seq<MState>,
                                       before: set<nat>, live: set<nat>)
    requires Fresh(x, lo, lo + Groups(n)) && AllSameCaps(x, xs, before)
    requires before <= live && Live(n, lo) <= live
    requires forall g :: g in before ==> g < lo || lo + Groups(n) <= g
    ensures AllSameCaps(x, SemAll(e, n, bw, lo, xs), live)
    decreases n, 2, |xs|, 0, 0, 0
  {
    if xs != [] {
      assert SameCaps(x, xs[0], before);
      SemFrame(e, n, bw, lo, xs[0]);
      SemAllFrame(e, n, bw, lo, x, xs[1..], before, live);
    }
  }

  // x0 is the state in which the quantifier was entered.
  lemma {:induction false} RepFrame(e: Env, b: Node, bw: bool, lo: nat, min: nat, max: Option<nat>, greedy: bool,
                                    x0: MState, x: MState)
    requires Fresh(x0, lo, lo + Groups(b)) && SameCaps(x0, x, Live(b, lo))
    ensures AllSameCaps(x0, Rep(e, b, bw, lo, min, max, greedy, x), Live(b, lo))
    decreases b, 3, min, Room(e, bw, x.pos), 1, 0
  {
    if max != Some(0) {
      var xr := MState(x.pos, Forget(x.caps, lo, lo + Groups(b)));
      IterFrame(e, b, bw, lo, x0, x);
      RepAllFrame(e, b, bw, lo, min, max, greedy, x0, x.pos, Sem(e, b, bw, lo, xr));
    }
  }

  // One iteration: clearing the groups only undoes earlier iterations.
  lemma {:induction false} IterFrame(e: Env, b: Node, bw: bool, lo: nat, x0: MState, x: MState)
    requires Fresh(x0, lo, lo + Groups(b)) && SameCaps(x0, x, Live(b, lo))
    ensures AllSameCaps(x0, Sem(e, b, bw, lo, MState(x.pos, Forget(x.caps, lo, lo + Groups(b)))), Live(b, lo))
    decreases b, 2, 0, 0, 0, 0
  {
    var xr := MState(x.pos, Forget(x.caps, lo, lo + Groups(b)));
    LiveInside(b, lo);
    SemFrame(e, b, bw, lo, xr);
    forall y | y in Sem(e, b, bw, lo, xr)
      ensures SameCaps(x0, y, Live(b, lo))
    {
      assert SameCaps(xr, y, Live(b, lo));
    }
  }

  lemma {:induction false} RepAllFrame(e: Env, b: Node, bw: bool, lo: nat, min: nat, max: Option<nat>, greedy: bool,
                                       x0: MState, p: nat,
                                       ys: seq<MState>)
    requires Fresh(x0, lo, lo + Groups(b)) && AllSameCaps(x0, ys, Live(b, lo))
    ensures AllSameCaps(x0, RepAll(e, b, bw, lo, min, max, greedy, p, ys), Live(b, lo))
    decreases b, 3, min, Room(e, bw, p), 0, |ys|
  {
    if ys != [] {
      assert SameCaps(x0, ys[0], Live(b, lo));
      if !(min == 0 && !Advances(e, bw, p, ys[0].pos)) {
        RepFrame(e, b, bw, lo, Pred(min), Dec(max), greedy, x0, ys[0]);
      }
      RepAllFrame(e, b, bw, lo, min, max, greedy, x0, p, ys[1..]);
    }
  }

  // The machine only writes the words of the groups of the pattern.
  ghost predicate SameWords(x: VState, y: VState, lo: nat, hi: nat) {
    |y.w| == |x.w| && forall i :: 0 <= i < |x.w| && !(2 * lo <= i < 2 * hi) ==> y.w[i] == x.w[i]
  }

  ghost predicate AllSameWords(x: VState, ys: seq<VState>, lo: nat, hi: nat) {
    forall y :: y in ys ==> SameWords(x, y, lo, hi)
  }

  lemma {:induction false} RunFrame(e: Env, n: Node, bw: bool, lo: nat, x: VState)
    requires WellFormed(n)
    ensures AllSameWords(x, Run(e, n, bw, lo, x), lo, lo + Groups(n))
    decreases n, 1, 0, 0, 0
  {
    match n
    case Empty =>
    case Char(_) =>
    case Assert(_) =>
    case BackRef(_, _) =>
    case Seq(l, r) =>
      if bw {
        SeqWords(e, n, r, lo + Groups(l), l, lo, bw, x, lo, lo + Groups(n));
      } else {
        SeqWords(e, n, l, lo, r, lo + Groups(l), bw, x, lo, lo + Groups(n));
      }
    case Alt(l, r) =>
      AltRunFrame(e, l, r, bw, lo, x);
    case Group(b) =>
      GroupRunFrame(e, b, bw, lo, x);
    case Look(behind, neg, b) =>
      LookRunFrame(e, behind, neg, b, bw, lo, x);
    case Quant(b, min, max, greedy) =>
      var p := PlanOf(Code(e, b, bw, lo), Groups(b), min);
      QuantWords(e, Loop(b, bw, lo, p, greedy), min, MaxInt(max), x, ClearIf(p.pre, x, lo, Groups(b)));
  }

  lemma {:induction false} AltRunFrame(e: Env, l: Node, r: Node, bw: bool, lo: nat, x: VState)
    requires WellFormed(Alt(l, r))
    ensures AllSameWords(x, Run(e, Alt(l, r), bw, lo, x), lo, lo + Groups(Alt(l, r)))
    decreases Alt(l, r), 0, 0, 0, 0
  {
    RunFrame(e, l, bw, lo, x);
    RunFrame(e, r, bw, lo + Groups(l), x);
    WordsConcat(x, Run(e, l, bw, lo, x), Run(e, r, bw, lo + Groups(l), x), lo, lo + Groups(l), lo + Groups(Alt(l, r)));
  }

  lemma {:induction false} GroupRunFrame(e: Env, b: Node, bw: bool, lo: nat, x: VState)
    requires WellFormed(Group(b))
    ensures AllSameWords(x, Run(e, Group(b), bw, lo, x), lo, lo + Groups(Group(b)))
    decreases Group(b), 0, 0, 0, 0
  {
    RunFrame(e, b, bw, lo + 1, OpenV(bw, lo, x));
    CloseWords(bw, lo, x, Run(e, b, bw, lo + 1, OpenV(bw, lo, x)), lo + Groups(Group(b)));
  }

  lemma {:induction false} LookRunFrame(e: Env, behind: bool, neg: bool, b: Node, bw: bool, lo: nat, x: VState)
    requires WellFormed(Look(behind, neg, b))
    ensures AllSameWords(x, Run(e, Look(behind, neg, b), bw, lo, x), lo, lo + Groups(Look(behind, neg, b)))
    decreases Look(behind, neg, b), 0, 0, 0, 0
  {
    RunFrame(e, b, behind, lo, x);
    LookWords(x, Run(e, b, behind, lo, x), lo, lo + Groups(b));
  }

  lemma WordsConcat(x: VState, ys: seq<VState>, zs: seq<VState>, lo: nat, mid: nat, hi: nat)
    requires AllSameWords(x, ys, lo, mid) && AllSameWords(x, zs, mid, hi) && lo <= mid <= hi
    ensures AllSameWords(x, ys + zs, lo, hi)
  {
    forall y | y in ys + zs
      ensures SameWords(x, y, lo, hi)
    {
      assert SameWords(x, y, lo, mid) || SameWords(x, y, mid, hi);
    }
  }

  lemma CloseWords(bw: bool, lo: nat, x: VState, ys: seq<VState>, hi: nat)
    requires lo < hi && AllSameWords(OpenV(bw, lo, x), ys, lo + 1, hi)
    ensures AllSameWords(x, CloseAllV(bw, lo, ys), lo, hi)
  {
    forall z | z in CloseAllV(bw, lo, ys)
      ensures SameWords(x, z, lo, hi)
    {
      var k :| 0 <= k < |ys| && z == CloseV(bw, lo, ys[k]);
      assert SameWords(OpenV(bw, lo, x), ys[k], lo + 1, hi);
    }
  }

  lemma LookWords(x: VState, ys: seq<VState>, lo: nat, hi: nat)
    requires AllSameWords(x, ys, lo, hi)
    ensures ys != [] ==> SameWords(x, VState(x.pos, ys[0].w), lo, hi)
  {
    if ys != [] {
      assert ys[0] in ys;
    }
  }

  lemma {:induction false} SeqWords(e: Env, n: Node, a: Node, la: nat, b: Node, lb: nat, bw: bool, x: VState, lo: nat,
                                    hi: nat)
    requires n.Seq? && ((a == n.l && b == n.r) || (a == n.r && b == n.l))
    requires WellFormed(a) && WellFormed(b)
    requires lo <= la && la + Groups(a) <= hi && lo <= lb && lb + Groups(b) <= hi
    ensures AllSameWords(x, RunAll(e, b, bw, lb, Run(e, a, bw, la, x)), lo, hi)
    decreases n, 0, 0, 0, 0
  {
    RunFrame(e, a, bw, la, x);
    forall y | y in Run(e, a, bw, la, x)
      ensures SameWords(x, y, lo, hi)
    {
      assert SameWords(x, y, la, la + Groups(a));
    }
    RunAllWords(e, b, bw, lb, x, Run(e, a, bw, la, x), lo, hi);
  }

  lemma {:induction false} RunAllWords(e: Env, n: Node, bw: bool, ln: nat, x: VState, xs: seq<VState>, lo: nat, hi: nat)
    requires WellFormed(n) && lo <= ln && ln + Groups(n) <= hi
    requires AllSameWords(x, xs, lo, hi)
    ensures AllSameWords(x, RunAll(e, n, bw, ln, xs), lo, hi)
    decreases n, 2, |xs|, 0, 0
  {
    if xs != [] {
      assert SameWords(x, xs[0], lo, hi);
      RunFrame(e, n, bw, ln, xs[0]);
      forall y | y in Run(e, n, bw, ln, xs[0])
        ensures SameWords(x, y, lo, hi)
      {
        assert SameWords(xs[0], y, ln, ln + Groups(n));
      }
      RunAllWords(e, n, bw, ln, x, xs[1..], lo, hi);
    }
  }

  // In the loop lemmas x0 is the state in which the quantifier was entered.
  lemma {:induction false} QuantWords(e: Env, q: Loop, min: nat, max: nat, x0: VState, x: VState)
    requires WellFormed(q.b) && min <= max && SameWords(x0, x, q.lo, q.lo + Groups(q.b))
    ensures AllSameWords(x0, RunQuant(e, q, min, max, x), q.lo, q.lo + Groups(q.b))
    decreases q.b, 4, 0, 0, 0
  {
    match ShapeOf(min, max, q.plan.check)
    case Nothing =>
    case Star(once) =>
      StarWords(e, q, once, x0, x);
    case Optional =>
      CountedWords(e, q, q.plan.check, max, max, x0, x);
    case Plus =>
      IterWords(e, q, x0, x);
      StarAllWords(e, q, false, x0, x.pos, Run(e, q.b, q.bw, q.lo, ClearIf(q.plan.reset, x, q.lo, Groups(q.b))));
    case Counted =>
      CountedWords(e, q, q.plan.check && min != max, max, max - min, x0, x);
  }

  lemma {:induction false} IterWords(e: Env, q: Loop, x0: VState, x: VState)
    requires WellFormed(q.b) && SameWords(x0, x, q.lo, q.lo + Groups(q.b))
    ensures AllSameWords(x0, Run(e, q.b, q.bw, q.lo, ClearIf(q.plan.reset, x, q.lo, Groups(q.b))), q.lo,
                         q.lo + Groups(q.b))
    decreases q.b, 2, 0, 0, 0
  {
    var xr := ClearIf(q.plan.reset, x, q.lo, Groups(q.b));
    RunFrame(e, q.b, q.bw, q.lo, xr);
    forall y | y in Run(e, q.b, q.bw, q.lo, xr)
      ensures SameWords(x0, y, q.lo, q.lo + Groups(q.b))
    {
      assert SameWords(xr, y, q.lo, q.lo + Groups(q.b));
    }
  }

  lemma {:induction false} StarWords(e: Env, q: Loop, once: bool, x0: VState, x: VState)
    requires WellFormed(q.b) && SameWords(x0, x, q.lo, q.lo + Groups(q.b))
    ensures AllSameWords(x0, RunStar(e, q, once, x), q.lo, q.lo + Groups(q.b))
    decreases q.b, 3, Room(e, q.bw, x.pos), 1, 0
  {
    IterWords(e, q, x0, x);
    StarAllWords(e, q, once, x0, x.pos, Run(e, q.b, q.bw, q.lo, ClearIf(q.plan.reset, x, q.lo, Groups(q.b))));
  }

  lemma {:induction false} StarAllWords(e: Env, q: Loop, once: bool, x0: VState, p: nat, ys: seq<VState>)
    requires WellFormed(q.b) && AllSameWords(x0, ys, q.lo, q.lo + Groups(q.b))
    ensures AllSameWords(x0, RunStarAll(e, q, once, p, ys), q.lo, q.lo + Groups(q.b))
    decreases q.b, 3, Room(e, q.bw, p), 0, |ys|
  {
    if ys != [] {
      assert ys[0] in ys;
      if Advances(e, q.bw, p, ys[0].pos) && !once {
        StarWords(e, q, once, x0, ys[0]);
      }
      StarAllWords(e, q, once, x0, p, ys[1..]);
    }
  }

  lemma {:induction false} CountedWords(e: Env, q: Loop, check: bool, count: nat, limit: nat, x0: VState, x: VState)
    requires WellFormed(q.b) && count > 0 && SameWords(x0, x, q.lo, q.lo + Groups(q.b))
    ensures AllSameWords(x0, RunCounted(e, q, check, count, limit, x), q.lo, q.lo + Groups(q.b))
    decreases q.b, 3, count, 1, 0
  {
    IterWords(e, q, x0, x);
    CountedAllWords(e, q, check, count - 1, limit, x0, x.pos,
                    Run(e, q.b, q.bw, q.lo, ClearIf(q.plan.reset, x, q.lo, Groups(q.b))));
  }

  lemma {:induction false} CountedAllWords(e: Env, q: Loop, check: bool, left: nat, limit: nat, x0: VState, p: nat,
                                           ys: seq<VState>)
    requires WellFormed(q.b) && AllSameWords(x0, ys, q.lo, q.lo + Groups(q.b))
    ensures AllSameWords(x0, RunCountedAll(e, q, check, left, limit, p, ys), q.lo, q.lo + Groups(q.b))
    decreases q.b, 3, left + 1, 0, |ys|
  {
    if ys != [] {
      assert ys[0] in ys;
      if left != 0 {
        CountedWords(e, q, check, left, limit, x0, ys[0]);
      }
      assert AllSameWords(x0, AfterOne(e, q, check, left, limit, p, ys[0]), q.lo, q.lo + Groups(q.b));
      CountedAllWords(e, q, check, left, limit, x0, p, ys[1..]);
    }
  }
}
