// The snapshot machine running the code of a pattern comes out in exactly the states of Run, in order.
module CodegenCorrect {
  import opened RegexSyntax
  import opened Bytecode
  import opened Codegen
  import opened EcmaSemantics
  import opened StructuredRun
  import opened SnapshotVM
  import opened Progress
  import opened Fragments
  import opened LoopsCorrect

  // A fragment of code that fits the machine, with the state it starts in.
  ghost predicate Fits(m: Machine, n: Node, bw: bool, lo: nat, d: nat, i: int, x: VState, keep: seq<int>, nr: nat) {
    && WellFormed(n)
    && |x.w| == 2 * m.nc && x.pos <= |m.e.input|
    && lo + Groups(n) <= m.nc
    && |keep| == d && d + Regs(m.e, n, bw, lo) <= nr
    && HasCode(m, i, CodeR(m.e, n, bw, lo, d))
  }

  // ---- Leaves ----

  lemma CharForward(m: Machine, cls: CharClass, i: int, x: VState, keep: seq<int>, nr: nat)
    requires WellFormed(Char(cls)) && x.pos <= |m.e.input|
    requires HasCode(m, i, [OChar(TestOf(m.e, cls))])
    ensures Continues(m, i, x, AtV(AtomToV(m.e, Char(cls), false, x), x), i + 1, keep, keep, nr)
  {
    assert m.prog[i] == [OChar(TestOf(m.e, cls))][0];
    StepTo(m, i, x, AtomToV(m.e, Char(cls), false, x), keep, nr);
  }

  lemma PrevStep(m: Machine, i: int, x: VState, keep: seq<int>, nr: nat)
    requires x.pos <= |m.e.input| && 0 <= i < |m.prog| && m.prog[i] == OPrev
    ensures Continues(m, i, x, AtV(if x.pos == 0 then None else Some(x.pos - 1), x), i + 1, keep, keep, nr)
  {
    StepTo(m, i, x, if x.pos == 0 then None else Some(x.pos - 1), keep, nr);
  }

  lemma CharBackward(m: Machine, cls: CharClass, i: int, x: VState, keep: seq<int>, nr: nat)
    requires WellFormed(Char(cls)) && x.pos <= |m.e.input|
    requires HasCode(m, i, Stepwise(true, OChar(TestOf(m.e, cls))))
    ensures Continues(m, i, x, AtV(AtomToV(m.e, Char(cls), true, x), x), i + 3, keep, keep, nr)
  {
    var op := OChar(TestOf(m.e, cls));
    var code := [OPrev, op, OPrev];
    assert m.prog[i] == code[0] && m.prog[i + 1] == code[1] && m.prog[i + 2] == code[2];
    PrevStep(m, i, x, keep, nr);
    var to := AtomToV(m.e, Char(cls), true, x);
    var outs := AtV(to, x);
    if x.pos > 0 {
      var x1 := VState(x.pos - 1, x.w);
      assert HasCode(m, i + 1, [op]);
      CharForward(m, cls, i + 1, x1, keep, nr);
      var to1 := AtomToV(m.e, Char(cls), false, x1);
      assert to1.Some? == to.Some? && (to.Some? ==> to1.value == x.pos && to.value == x.pos - 1);
      PrevStep(m, i + 2, x, keep, nr);
      BindAt(m, i + 1, x1, to1, [x1], i + 2, i + 3, keep, nr);
    }
    BindAt(m, i, x, if x.pos == 0 then None else Some(x.pos - 1), outs, i + 1, i + 3, keep, nr);
  }

  lemma LeafCorrect(m: Machine, n: Node, bw: bool, lo: nat, d: nat, i: int, j: int, x: VState, outs: seq<VState>,
                    keep: seq<int>, nr: nat)
    requires n.Empty? || n.Char? || n.Assert? || n.BackRef?
    requires Fits(m, n, bw, lo, d, i, x, keep, nr)
    requires j == i + |CodeR(m.e, n, bw, lo, d)| && outs == Run(m.e, n, bw, lo, x)
    ensures Continues(m, i, x, outs, j, keep, keep, nr)
  {
    var code := CodeR(m.e, n, bw, lo, d);
    match n
    case Empty =>
      HereCorrect(m, i, x, keep, nr);
    case Char(cls) =>
      if bw {
        CharBackward(m, cls, i, x, keep, nr);
      } else {
        CharForward(m, cls, i, x, keep, nr);
      }
    case Assert(a) =>
      assert m.prog[i] == code[0];
      StepTo(m, i, x, AtomToV(m.e, n, bw, x), keep, nr);
    case BackRef(groups, icase) =>
      assert m.prog[i] == code[0];
      forall regs: seq<int>
        ensures (x.w + regs)[..|x.w|] == x.w
      {
      }
      StepTo(m, i, x, AtomToV(m.e, n, bw, x), keep, nr);
  }

  // ---- Sequence, alternation, groups, lookaround ----

  // Every state of xs run through n.
  function RunEach(e: Env, n: Node, bw: bool, lo: nat, xs: seq<VState>): (r: seq<seq<VState>>)
    requires WellFormed(n)
    ensures |r| == |xs|
    ensures forall k :: 0 <= k < |xs| ==> r[k] == Run(e, n, bw, lo, xs[k])
    ensures Flatten(r) == RunAll(e, n, bw, lo, xs)
  {
    if xs == [] then []
    else
      var r := [Run(e, n, bw, lo, xs[0])] + RunEach(e, n, bw, lo, xs[1..]);
      assert r[1..] == RunEach(e, n, bw, lo, xs[1..]);
      r
  }

  // The main result: from the start i of the code of n, in state x, the machine comes out at the end
  // j of that code in the states outs of Run, one after the other, whatever choice points are there
  // and whatever the free registers hold, and the registers in use keep their values.
  lemma {:induction false} RunCorrect(m: Machine, n: Node, bw: bool, lo: nat, d: nat, i: int, j: int, x: VState,
                                      outs: seq<VState>,
                                      keep: seq<int>, nr: nat)
    requires Fits(m, n, bw, lo, d, i, x, keep, nr)
    requires j == i + |CodeR(m.e, n, bw, lo, d)| && outs == Run(m.e, n, bw, lo, x)
    ensures Continues(m, i, x, outs, j, keep, keep, nr)
    decreases n, 1, 0
  {
    match n
    case Empty =>
      LeafCorrect(m, n, bw, lo, d, i, j, x, outs, keep, nr);
    case Char(_) =>
      LeafCorrect(m, n, bw, lo, d, i, j, x, outs, keep, nr);
    case Assert(_) =>
      LeafCorrect(m, n, bw, lo, d, i, j, x, outs, keep, nr);
    case BackRef(_, _) =>
      LeafCorrect(m, n, bw, lo, d, i, j, x, outs, keep, nr);
    case Seq(l, r) =>
      SeqCorrect(m, l, r, bw, lo, d, i, j, x, outs, keep, nr);
    case Alt(l, r) =>
      AltCorrect(m, l, r, bw, lo, d, i, j, x, outs, keep, nr);
    case Group(b) =>
      GroupCorrect(m, b, bw, lo, d, i, j, x, outs, keep, nr);
    case Look(behind, neg, b) =>
      LookCorrect(m, behind, neg, b, bw, lo, d, i, j, x, outs, keep, nr);
    case Quant(b, min, max, greedy) =>
      QuantCorrect(m, b, min, max, greedy, bw, lo, d, i, j, x, outs, keep, nr);
  }

  lemma {:induction false} SeqCorrect(m: Machine, l: Node, r: Node, bw: bool, lo: nat, d: nat, i: int, k: int,
                                      x: VState,
                                      outs: seq<VState>, keep: seq<int>, nr: nat)
    requires Fits(m, Seq(l, r), bw, lo, d, i, x, keep, nr)
    requires k == i + |CodeR(m.e, Seq(l, r), bw, lo, d)| && outs == Run(m.e, Seq(l, r), bw, lo, x)
    ensures Continues(m, i, x, outs, k, keep, keep, nr)
    decreases Seq(l, r), 0, 1
  {
    SeqParts(m, l, r, bw, lo, d, i, k, x, outs, keep, nr);
    if bw {
      ThenCorrect(m, Seq(l, r), r, lo + Groups(l), l, lo, bw, d, i, k, x, outs, keep, nr);
    } else {
      ThenCorrect(m, Seq(l, r), l, lo, r, lo + Groups(l), bw, d, i, k, x, outs, keep, nr);
    }
  }

  // Code of a, then code of b, both with their groups and registers.
  ghost predicate FitsThen(m: Machine, a: Node, la: nat, b: Node, lb: nat, bw: bool, d: nat, i: int, k: int, x: VState,
                           all: seq<VState>, keep: seq<int>, nr: nat)
  {
    && WellFormed(a) && WellFormed(b)
    && |x.w| == 2 * m.nc && x.pos <= |m.e.input|
    && la + Groups(a) <= m.nc && lb + Groups(b) <= m.nc
    && |keep| == d && d + Regs(m.e, a, bw, la) <= nr && d + Regs(m.e, b, bw, lb) <= nr
    && HasCode(m, i, CodeR(m.e, a, bw, la, d) + CodeR(m.e, b, bw, lb, d))
    && k == i + |CodeR(m.e, a, bw, la, d)| + |CodeR(m.e, b, bw, lb, d)|
    && all == RunAll(m.e, b, bw, lb, Run(m.e, a, bw, la, x))
  }

  lemma SeqParts(m: Machine, l: Node, r: Node, bw: bool, lo: nat, d: nat, i: int, k: int, x: VState, outs: seq<VState>,
                 keep: seq<int>, nr: nat)
    requires Fits(m, Seq(l, r), bw, lo, d, i, x, keep, nr)
    requires k == i + |CodeR(m.e, Seq(l, r), bw, lo, d)| && outs == Run(m.e, Seq(l, r), bw, lo, x)
    ensures if bw then FitsThen(m, r, lo + Groups(l), l, lo, bw, d, i, k, x, outs, keep, nr)
            else FitsThen(m, l, lo, r, lo + Groups(l), bw, d, i, k, x, outs, keep, nr)
  {
    var cl, cr := CodeR(m.e, l, bw, lo, d), CodeR(m.e, r, bw, lo + Groups(l), d);
    assert CodeR(m.e, Seq(l, r), bw, lo, d) == if bw then cr + cl else cl + cr;
  }

  lemma {:induction false} ThenCorrect(m: Machine, n: Node, a: Node, la: nat, b: Node, lb: nat, bw: bool, d: nat,
                                       i: int, k: int,
                                       x: VState, all: seq<VState>, keep: seq<int>, nr: nat)
    requires n.Seq? && ((a == n.l && b == n.r) || (a == n.r && b == n.l))
    requires FitsThen(m, a, la, b, lb, bw, d, i, k, x, all, keep, nr)
    ensures Continues(m, i, x, all, k, keep, keep, nr)
    decreases n, 0, 0
  {
    var ca, cb := CodeR(m.e, a, bw, la, d), CodeR(m.e, b, bw, lb, d);
    HasSplit(m, i, ca, cb);
    var j, outs := i + |ca|, Run(m.e, a, bw, la, x);
    RunCorrect(m, a, bw, la, d, i, j, x, outs, keep, nr);
    RunOnward(m.e, a, bw, la, x);
    var kss := RunEach(m.e, b, bw, lb, outs);
    forall l | 0 <= l < |outs|
      ensures Continues(m, j, outs[l], kss[l], k, keep, keep, nr)
    {
      assert Onward(m.e, bw, x, outs[l]);
      RunCorrect(m, b, bw, lb, d, j, k, outs[l], kss[l], keep, nr);
    }
    Bind(m, i, x, outs, kss, j, k, keep, keep, keep, nr);
  }

  lemma AltPieces(m: Machine, i: int, cl: seq<Op>, cr: seq<Op>)
    requires HasCode(m, i, AltCode(cl, cr))
    ensures m.prog[i] == OSplit(true, |cl| + 1) && m.prog[i + 1 + |cl|] == OGoto(|cr|)
    ensures HasCode(m, i + 1, cl) && HasCode(m, i + 2 + |cl|, cr)
  {
    var sp, gt := [OSplit(true, |cl| + 1)], [OGoto(|cr|)];
    HasSplit(m, i, sp + cl + gt, cr);
    HasSplit(m, i, sp + cl, gt);
    HasSplit(m, i, sp, cl);
    assert m.prog[i] == sp[0] && m.prog[i + 1 + |cl|] == gt[0];
  }

  lemma AltRun(m: Machine, bw: bool, i: int, g: int, s: int, k: int, cl: seq<Op>, cr: seq<Op>, x: VState,
               ls: seq<VState>, rs: seq<VState>,
               keep: seq<int>, nr: nat)
    requires HasCode(m, i, AltCode(cl, cr)) && x.pos <= |m.e.input|
    requires g == i + 1 + |cl| && s == g + 1 && k == s + |cr|
    requires Continues(m, i + 1, x, ls, g, keep, keep, nr) && AllOnward(m.e, bw, x, ls)
    requires Continues(m, s, x, rs, k, keep, keep, nr)
    ensures Continues(m, i, x, ls + rs, k, keep, keep, nr)
  {
    AltPieces(m, i, cl, cr);
    GotoAll(m, bw, i + 1, x, ls, g, |cr|, k, keep, nr);
    SplitCorrect(m, i, true, |cl| + 1, x, ls, rs, k, keep, keep, nr);
  }

  lemma {:induction false} AltCorrect(m: Machine, l: Node, r: Node, bw: bool, lo: nat, d: nat, i: int, k: int,
                                      x: VState,
                                      outs: seq<VState>, keep: seq<int>, nr: nat)
    requires Fits(m, Alt(l, r), bw, lo, d, i, x, keep, nr)
    requires k == i + |CodeR(m.e, Alt(l, r), bw, lo, d)| && outs == Run(m.e, Alt(l, r), bw, lo, x)
    ensures Continues(m, i, x, outs, k, keep, keep, nr)
    decreases Alt(l, r), 0, 0
  {
    var lr := lo + Groups(l);
    var cl, cr := CodeR(m.e, l, bw, lo, d), CodeR(m.e, r, bw, lr, d);
    AltPieces(m, i, cl, cr);
    var g := i + 1 + |cl|;
    var s := g + 1;
    var ls, rs := Run(m.e, l, bw, lo, x), Run(m.e, r, bw, lr, x);
    RunCorrect(m, l, bw, lo, d, i + 1, g, x, ls, keep, nr);
    RunCorrect(m, r, bw, lr, d, s, k, x, rs, keep, nr);
    RunOnward(m.e, l, bw, lo, x);
    AltRun(m, bw, i, g, s, k, cl, cr, x, ls, rs, keep, nr);
  }

  lemma GroupRun(m: Machine, bw: bool, g: nat, i: int, j: int, k: int, cb: seq<Op>, x: VState, ys: seq<VState>,
                 keep: seq<int>, nr: nat)
    requires HasCode(m, i, GroupCode(bw, g, cb)) && x.pos <= |m.e.input|
    requires g < m.nc && |x.w| == 2 * m.nc
    requires j == i + 1 + |cb| && k == j + 1
    requires Continues(m, i + 1, OpenV(bw, g, x), ys, j, keep, keep, nr) && AllOnward(m.e, bw, OpenV(bw, g, x), ys)
    ensures Continues(m, i, x, CloseAllV(bw, g, ys), k, keep, keep, nr)
  {
    GroupPieces(m, bw, g, i, cb);
    var x1 := OpenV(bw, g, x);
    var zs := CloseAllV(bw, g, ys);
    var kss := Singles(zs);
    forall q | 0 <= q < |ys|
      ensures Continues(m, j, ys[q], kss[q], k, keep, keep, nr)
    {
      assert Onward(m.e, bw, x1, ys[q]);
      SaveCorrect(m, j, !bw, g, ys[q], keep, nr);
    }
    Bind(m, i + 1, x1, ys, kss, j, k, keep, keep, keep, nr);
    SaveCorrect(m, i, bw, g, x, keep, nr);
    BindOne(m, i, x, x1, zs, i + 1, k, keep, keep, keep, nr);
  }

  lemma GroupPieces(m: Machine, bw: bool, g: nat, i: int, cb: seq<Op>)
    requires HasCode(m, i, GroupCode(bw, g, cb))
    ensures m.prog[i] == OSave(bw, g) && m.prog[i + 1 + |cb|] == OSave(!bw, g) && HasCode(m, i + 1, cb)
  {
    HasSplit(m, i, [OSave(bw, g)] + cb, [OSave(!bw, g)]);
    HasSplit(m, i, [OSave(bw, g)], cb);
    assert m.prog[i] == [OSave(bw, g)][0] && m.prog[i + 1 + |cb|] == [OSave(!bw, g)][0];
  }

  lemma {:induction false} GroupCorrect(m: Machine, b: Node, bw: bool, lo: nat, d: nat, i: int, k: int, x: VState,
                                        outs: seq<VState>,
                                        keep: seq<int>, nr: nat)
    requires Fits(m, Group(b), bw, lo, d, i, x, keep, nr)
    requires k == i + |CodeR(m.e, Group(b), bw, lo, d)| && outs == Run(m.e, Group(b), bw, lo, x)
    ensures Continues(m, i, x, outs, k, keep, keep, nr)
    decreases Group(b), 0, 0
  {
    var cb := CodeR(m.e, b, bw, lo + 1, d);
    GroupPieces(m, bw, lo, i, cb);
    var x1 := OpenV(bw, lo, x);
    var ys := Run(m.e, b, bw, lo + 1, x1);
    var j := i + 1 + |cb|;
    RunCorrect(m, b, bw, lo + 1, d, i + 1, j, x1, ys, keep, nr);
    RunOnward(m.e, b, bw, lo + 1, x1);
    GroupRun(m, bw, lo, i, j, k, cb, x, ys, keep, nr);
  }

  lemma LookPieces(m: Machine, i: int, neg: bool, cb: seq<Op>)
    requires HasCode(m, i, LookCode(neg, cb))
    ensures m.prog[i] == OLook(neg, |cb| + 1) && m.prog[i + 1 + |cb|] == OLookMatch(neg)
    ensures HasCode(m, i + 1, cb)
  {
    HasSplit(m, i, [OLook(neg, |cb| + 1)] + cb, [OLookMatch(neg)]);
    HasSplit(m, i, [OLook(neg, |cb| + 1)], cb);
    assert m.prog[i] == [OLook(neg, |cb| + 1)][0] && m.prog[i + 1 + |cb|] == [OLookMatch(neg)][0];
  }

  lemma {:induction false} LookCorrect(m: Machine, behind: bool, neg: bool, b: Node, bw: bool, lo: nat, d: nat, i: int,
                                       k: int,
                                       x: VState, outs: seq<VState>, keep: seq<int>, nr: nat)
    requires Fits(m, Look(behind, neg, b), bw, lo, d, i, x, keep, nr)
    requires k == i + |CodeR(m.e, Look(behind, neg, b), bw, lo, d)| && outs == Run(m.e, Look(behind, neg, b), bw, lo, x)
    ensures Continues(m, i, x, outs, k, keep, keep, nr)
    decreases Look(behind, neg, b), 0, 0
  {
    var cb := CodeR(m.e, b, behind, lo, d);
    LookPieces(m, i, neg, cb);
    var ys := Run(m.e, b, behind, lo, x);
    var j := i + 1 + |cb|;
    RunCorrect(m, b, behind, lo, d, i + 1, j, x, ys, keep, nr);
    RunOnward(m.e, b, behind, lo, x);
    assert ys != [] ==> Onward(m.e, behind, x, ys[0]);
    if neg {
      NegLookRun(m, i, j, k, x, ys, outs, keep, nr);
    } else {
      LookRun(m, i, j, k, x, ys, outs, keep, nr);
    }
  }

  // ---- Quantifiers ----

  lemma {:induction false} AtomCorrect(m: Machine, q: Loop, c: seq<Op>, a: seq<Op>, d: nat, i: int, j: int, x: VState,
                                       outs: seq<VState>,
                                       keep: seq<int>, nr: nat)
    requires WellFormed(q.b) && (q.plan.reset ==> Groups(q.b) > 0)
    requires |x.w| == 2 * m.nc && x.pos <= |m.e.input| && q.lo + Groups(q.b) <= m.nc
    requires |keep| == d && d + Regs(m.e, q.b, q.bw, q.lo) <= nr
    requires c == CodeR(m.e, q.b, q.bw, q.lo, d) && a == WithReset(q.plan, c, q.lo, Groups(q.b))
    requires HasCode(m, i, a) && j == i + |a| && outs == AtomRun(m.e, q, x)
    ensures Continues(m, i, x, outs, j, keep, keep, nr)
    decreases q.b, 2, 0
  {
    if q.plan.reset {
      var x' := ClearIf(true, x, q.lo, Groups(q.b));
      ResetPieces(m, i, q.lo, Groups(q.b), c, a);
      assert Fits(m, q.b, q.bw, q.lo, d, i + 1, x', keep, nr);
      RunCorrect(m, q.b, q.bw, q.lo, d, i + 1, j, x', outs, keep, nr);
      ResetThen(m, i, q.lo, Groups(q.b), c, j, x, outs, keep, nr);
    } else {
      assert a == c;
      assert Fits(m, q.b, q.bw, q.lo, d, i, x, keep, nr);
      RunCorrect(m, q.b, q.bw, q.lo, d, i, j, x, outs, keep, nr);
    }
  }

  lemma ResetPieces(m: Machine, i: int, lo: nat, groups: nat, c: seq<Op>, a: seq<Op>)
    requires groups > 0 && a == [OSaveReset(lo, lo + groups - 1)] + c && HasCode(m, i, a)
    ensures m.prog[i] == OSaveReset(lo, lo + groups - 1) && HasCode(m, i + 1, c)
  {
    HasSplit(m, i, [OSaveReset(lo, lo + groups - 1)], c);
    assert m.prog[i] == a[0];
  }

  lemma {:induction false} AtomIsOk(m: Machine, q: Loop, c: seq<Op>, a: seq<Op>, d: nat, nr: nat)
    requires WellFormed(q.b) && (q.plan.reset ==> Groups(q.b) > 0)
    requires q.lo + Groups(q.b) <= m.nc && d + Regs(m.e, q.b, q.bw, q.lo) <= nr
    requires c == CodeR(m.e, q.b, q.bw, q.lo, d) && a == WithReset(q.plan, c, q.lo, Groups(q.b))
    ensures AtomAt(m, q, d, a, nr)
    decreases q.b, 2, 1
  {
    forall i | HasCode(m, i, a)
      ensures AtomOk(m, q, d, i, i + |a|, nr)
    {
      var j := i + |a|;
      forall x: VState, keep: seq<int> | |x.w| == 2 * m.nc && x.pos <= |m.e.input| && |keep| == d
        ensures Continues(m, i, x, AtomRun(m.e, q, x), j, keep, keep, nr)
      {
        AtomCorrect(m, q, c, a, d, i, j, x, AtomRun(m.e, q, x), keep, nr);
      }
    }
  }

  lemma StarPieces(m: Machine, i: int, a: seq<Op>, check: bool, once: bool, greedy: bool, rp: nat)
    requires HasCode(m, i, StarCode(a, check, once, greedy, rp))
    ensures var c := B2I(check);
      && |StarCode(a, check, once, greedy, rp)| == 1 + |a| + 2 * c + B2I(!once)
      && m.prog[i] == OSplit(greedy, |a| + B2I(!once) + 2 * c)
      && (check ==> m.prog[i + 1] == OSetCharPos(rp) && m.prog[i + 2 + |a|] == OCheckAdvance(rp))
      && (!once ==> m.prog[i + 1 + |a| + 2 * c] == OGoto(-(|a| + 2 + 2 * c)))
      && HasCode(m, i + 1 + c, a)
  {
    var sp := [OSplit(greedy, |a| + B2I(!once) + 2 * B2I(check))];
    var sc, ca := If(check, OSetCharPos(rp)), If(check, OCheckAdvance(rp));
    var gt := If(!once, OGoto(-(|a| + 2 + 2 * B2I(check))));
    HasSplit(m, i, sp + sc + a + ca, gt);
    HasSplit(m, i, sp + sc + a, ca);
    HasSplit(m, i, sp + sc, a);
    HasSplit(m, i, sp, sc);
    assert m.prog[i] == sp[0];
    assert check ==> m.prog[i + 1] == sc[0] && m.prog[i + 2 + |a|] == ca[0];
    assert !once ==> m.prog[i + 1 + |a| + 2 * B2I(check)] == gt[0];
  }

  lemma CountedPieces(m: Machine, i: int, a: seq<Op>, check: bool, greedy: bool, count: nat, limit: nat, rc: nat,
                      rp: nat)
    requires HasCode(m, i, CountedCode(a, check, greedy, count, limit, rc, rp))
    ensures var c := B2I(check);
      && |CountedCode(a, check, greedy, count, limit, rc, rp)| == 2 + |a| + c
      && m.prog[i] == OSetI32(rc, count)
      && (check ==> m.prog[i + 1] == OSetCharPos(rp))
      && m.prog[i + 1 + c + |a|] == (if limit == 0 then OLoop(rc, -(|a| + 1))
                                     else OLoopSplit(!greedy, check, rc, limit, -(|a| + 1 + c)))
      && HasCode(m, i + 1 + c, a)
  {
    var si, sc := [OSetI32(rc, count)], If(check, OSetCharPos(rp));
    var last := [if limit == 0 then OLoop(rc, -(|a| + 1))
                 else OLoopSplit(!greedy, check, rc, limit, -(|a| + 1 + B2I(check)))];
    HasSplit(m, i, si + sc + a, last);
    HasSplit(m, i, si + sc, a);
    HasSplit(m, i, si, sc);
    assert m.prog[i] == si[0];
    assert check ==> m.prog[i + 1] == sc[0];
    assert m.prog[i + 1 + B2I(check) + |a|] == last[0];
  }

  // The counted loop from its set instruction on.
  lemma CountedRun(m: Machine, q: Loop, check: bool, count: nat, limit: nat, a: seq<Op>, i: int, k: int, x: VState,
                   outs: seq<VState>,
                   keep: seq<int>, nr: nat)
    requires WellFormed(q.b) && 0 < count < TWO32 && (limit == 0 ==> !check)
    requires |x.w| == 2 * m.nc && x.pos <= |m.e.input|
    requires |keep| + B2I(check) < nr
    requires HasCode(m, i, CountedCode(a, check, q.greedy, count, limit, |keep|, |keep| + 1))
    requires k == i + |CountedCode(a, check, q.greedy, count, limit, |keep|, |keep| + 1)|
    requires AtomAt(m, q, |keep| + 1 + B2I(check), a, nr)
    requires outs == RunCounted(m.e, q, check, count, limit, x)
    ensures Continues(m, i, x, outs, k, keep, keep, nr)
  {
    CountedPieces(m, i, a, check, q.greedy, count, limit, |keep|, |keep| + 1);
    CountedCorrect(m, q, check, count, limit, i + 1, |a|, k, x, outs, keep, nr);
    RegWrite(m, i, x, count, keep, nr);
    BindOne(m, i, x, x, outs, i + 1, k, keep, keep + [count], keep, nr);
  }

  // The facts LoopCorrect needs about the atom, wherever it stands.
  ghost predicate AtomAt(m: Machine, q: Loop, d: nat, a: seq<Op>, nr: nat)
    requires WellFormed(q.b)
  {
    forall j {:trigger HasCode(m, j, a)} :: HasCode(m, j, a) ==> AtomOk(m, q, d, j, j + |a|, nr)
  }

  lemma LoopCorrect(m: Machine, q: Loop, min: nat, max: nat, a: seq<Op>, loop: seq<Op>, i: int, k: int, x: VState,
                    outs: seq<VState>,
                    keep: seq<int>, nr: nat)
    requires LoopOf(m, q) && min <= max <= INT32_MAX
    requires |x.w| == 2 * m.nc && x.pos <= |m.e.input|
    requires max == 0 || |keep| + Held(q.plan, min, max) <= nr
    requires loop == LoopCode(a, q.plan.check, min, max, q.greedy, |keep|,
                              PosReg(ShapeOf(min, max, q.plan.check), |keep|))
    requires HasCode(m, i, loop) && k == i + |loop|
    requires max > 0 ==> AtomAt(m, q, |keep| + Held(q.plan, min, max), a, nr)
    requires outs == RunQuant(m.e, q, min, max, x)
    ensures Continues(m, i, x, outs, k, keep, keep, nr)
  {
    var d, check := |keep|, q.plan.check;
    match ShapeOf(min, max, check)
    case Nothing =>
      HereCorrect(m, i, x, keep, nr);
    case Star(once) =>
      StarRun(m, q, once, a, i, k, x, outs, keep, nr);
    case Optional =>
      OptionalCorrect(m, q, max, a, i, k, x, outs, keep, nr);
    case Plus =>
      PlusRun(m, q, a, i, k, x, outs, keep, nr);
    case Counted =>
      CountedRun(m, q, check && min != max, max, max - min, a, i, k, x, outs, keep, nr);
  }

  lemma StarRun(m: Machine, q: Loop, once: bool, a: seq<Op>, i: int, k: int, x: VState, outs: seq<VState>,
                keep: seq<int>, nr: nat)
    requires LoopOf(m, q) && |x.w| == 2 * m.nc && x.pos <= |m.e.input|
    requires |keep| + B2I(q.plan.check) <= nr
    requires HasCode(m, i, StarCode(a, q.plan.check, once, q.greedy, |keep|))
    requires k == i + |StarCode(a, q.plan.check, once, q.greedy, |keep|)|
    requires AtomAt(m, q, |keep| + B2I(q.plan.check), a, nr)
    requires outs == RunStar(m.e, q, once, x)
    ensures Continues(m, i, x, outs, k, keep, keep, nr)
  {
    StarPieces(m, i, a, q.plan.check, once, q.greedy, |keep|);
    StarCorrect(m, q, once, i, |a|, k, x, outs, keep, nr);
  }

  lemma PlusRun(m: Machine, q: Loop, a: seq<Op>, i: int, k: int, x: VState, outs: seq<VState>, keep: seq<int>, nr: nat)
    requires LoopOf(m, q) && !q.plan.check && |x.w| == 2 * m.nc && x.pos <= |m.e.input|
    requires HasCode(m, i, a + [OSplit(!q.greedy, -(|a| + 1))])
    requires k == i + |a| + 1
    requires AtomAt(m, q, |keep|, a, nr)
    requires outs == RunStarAll(m.e, q, false, x.pos, AtomRun(m.e, q, x))
    ensures Continues(m, i, x, outs, k, keep, keep, nr)
  {
    var sp := [OSplit(!q.greedy, -(|a| + 1))];
    HasSplit(m, i, a, sp);
    assert m.prog[i + |a|] == sp[0];
    PlusCorrect(m, q, i, |a|, k, x, outs, keep, nr);
  }

  lemma OptionalCorrect(m: Machine, q: Loop, max: nat, a: seq<Op>, i: int, k: int, x: VState, outs: seq<VState>,
                        keep: seq<int>, nr: nat)
    requires LoopOf(m, q) && 0 < max <= INT32_MAX
    requires |x.w| == 2 * m.nc && x.pos <= |m.e.input| && |keep| + B2I(q.plan.check) < nr
    requires HasCode(m, i, OptionalCode(q.greedy, CountedCode(a, q.plan.check, q.greedy, max, max, |keep|, |keep| + 1)))
    requires k == i + |OptionalCode(q.greedy, CountedCode(a, q.plan.check, q.greedy, max, max, |keep|, |keep| + 1))|
    requires AtomAt(m, q, |keep| + 1 + B2I(q.plan.check), a, nr)
    requires outs == Prefer(q.greedy, RunCounted(m.e, q, q.plan.check, max, max, x), x)
    ensures Continues(m, i, x, outs, k, keep, keep, nr)
  {
    var check := q.plan.check;
    var code := CountedCode(a, check, q.greedy, max, max, |keep|, |keep| + 1);
    var sp := [OSplit(q.greedy, |code|)];
    HasSplit(m, i, sp, code);
    assert m.prog[i] == sp[0];
    var again := RunCounted(m.e, q, check, max, max, x);
    CountedRun(m, q, check, max, max, a, i + 1, k, x, again, keep, nr);
    SplitOrStop(m, q.greedy, i, i + 1, k, x, again, outs, keep, nr);
  }

  lemma {:induction false} QuantCorrect(m: Machine, b: Node, min: nat, max: Option<nat>, greedy: bool, bw: bool,
                                        lo: nat, d: nat,
                                        i: int, k: int, x: VState, outs: seq<VState>, keep: seq<int>, nr: nat)
    requires Fits(m, Quant(b, min, max, greedy), bw, lo, d, i, x, keep, nr)
    requires k == i + |CodeR(m.e, Quant(b, min, max, greedy), bw, lo, d)|
    requires outs == Run(m.e, Quant(b, min, max, greedy), bw, lo, x)
    ensures Continues(m, i, x, outs, k, keep, keep, nr)
    decreases Quant(b, min, max, greedy), 0, 0
  {
    var g, mx := Groups(b), MaxInt(max);
    var p := PlanOf(Code(m.e, b, bw, lo), g, min);
    var q := Loop(b, bw, lo, p, greedy);
    var d1 := d + Held(p, min, mx);
    var c := CodeR(m.e, b, bw, lo, d1);
    var a := WithReset(p, c, lo, g);
    var rp := PosReg(ShapeOf(min, mx, p.check), d);
    var loop := LoopCode(a, p.check, min, mx, greedy, d, rp);
    var code := CodeR(m.e, Quant(b, min, max, greedy), bw, lo, d);
    QuantCodeIs(m.e, b, min, max, greedy, bw, lo, d, p, c);
    QuantCodeSplits(p, c, lo, g, min, mx, greedy, d, rp);
    QuantRunIs(m.e, b, min, max, greedy, bw, lo, x, p);
    if mx > 0 {
      AtomIsOk(m, q, c, a, d1, nr);
    }
    QuantRun(m, q, min, mx, a, loop, code, i, k, x, outs, keep, nr);
  }

  lemma QuantRunIs(e: Env, b: Node, min: nat, max: Option<nat>, greedy: bool, bw: bool, lo: nat, x: VState, p: Plan)
    requires WellFormed(Quant(b, min, max, greedy)) && p == PlanOf(Code(e, b, bw, lo), Groups(b), min)
    ensures Run(e, Quant(b, min, max, greedy), bw, lo, x)
         == RunQuant(e, Loop(b, bw, lo, p, greedy), min, MaxInt(max), ClearIf(p.pre, x, lo, Groups(b)))
    ensures MaxInt(max) == 0
         || Regs(e, Quant(b, min, max, greedy), bw, lo) == Held(p, min, MaxInt(max)) + Regs(e, b, bw, lo)
  {
  }

  // The code of a quantifier: the resets in front, then the loop.
  ghost predicate FitsQuant(m: Machine, q: Loop, min: nat, max: nat, a: seq<Op>, loop: seq<Op>, code: seq<Op>, i: int,
                            k: int, x: VState,
                            outs: seq<VState>, keep: seq<int>, nr: nat)
  {
    && LoopOf(m, q) && min <= max <= INT32_MAX && (q.plan.pre ==> Groups(q.b) > 0)
    && |x.w| == 2 * m.nc && x.pos <= |m.e.input| && q.lo + Groups(q.b) <= m.nc
    && (max == 0 || |keep| + Held(q.plan, min, max) <= nr)
    && loop == LoopCode(a, q.plan.check, min, max, q.greedy, |keep|, PosReg(ShapeOf(min, max, q.plan.check), |keep|))
    && code == (if q.plan.pre then [OSaveReset(q.lo, q.lo + Groups(q.b) - 1)] else []) + loop
    && HasCode(m, i, code) && k == i + |code|
    && outs == RunQuant(m.e, q, min, max, ClearIf(q.plan.pre, x, q.lo, Groups(q.b)))
  }

  lemma QuantRun(m: Machine, q: Loop, min: nat, max: nat, a: seq<Op>, loop: seq<Op>, code: seq<Op>, i: int, k: int,
                 x: VState, outs: seq<VState>,
                 keep: seq<int>, nr: nat)
    requires FitsQuant(m, q, min, max, a, loop, code, i, k, x, outs, keep, nr)
    requires max > 0 ==> AtomAt(m, q, |keep| + Held(q.plan, min, max), a, nr)
    ensures Continues(m, i, x, outs, k, keep, keep, nr)
  {
    var g := Groups(q.b);
    if q.plan.pre {
      ResetPieces(m, i, q.lo, g, loop, code);
      LoopCorrect(m, q, min, max, a, loop, i + 1, k, ClearIf(true, x, q.lo, g), outs, keep, nr);
      ResetThen(m, i, q.lo, g, loop, k, x, outs, keep, nr);
    } else {
      assert code == loop;
      LoopCorrect(m, q, min, max, a, loop, i, k, x, outs, keep, nr);
    }
  }
}
