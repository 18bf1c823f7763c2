// The loops around an atom, given that the atom itself runs correctly.
module LoopsCorrect {
  import opened RegexSyntax
  import opened Bytecode
  import opened Codegen
  import opened EcmaSemantics
  import opened StructuredRun
  import opened SnapshotVM
  import opened Progress
  import opened Fragments

  // The ways through one iteration.
  function AtomRun(e: Env, q: Loop, x: VState): seq<VState>
    requires WellFormed(q.b)
  {
    Run(e, q.b, q.bw, q.lo, ClearIf(q.plan.reset, x, q.lo, Groups(q.b)))
  }

  // The code in [i, j) runs one iteration while d registers are in use.
  ghost predicate AtomOk(m: Machine, q: Loop, d: nat, i: int, j: int, nr: nat)
    requires WellFormed(q.b)
  {
    forall x: VState, keep: seq<int> {:trigger Continues(m, i, x, AtomRun(m.e, q, x), j, keep, keep, nr)} ::
      |x.w| == 2 * m.nc && x.pos <= |m.e.input| && |keep| == d ==>
      Continues(m, i, x, AtomRun(m.e, q, x), j, keep, keep, nr)
  }

  ghost predicate LoopOf(m: Machine, q: Loop) {
    WellFormed(q.b) && q.plan.check == Scan(Code(m.e, q.b, q.bw, q.lo)).needAdv
  }

  lemma AtomFacts(m: Machine, q: Loop, x: VState)
    requires LoopOf(m, q) && x.pos <= |m.e.input|
    ensures AllOnward(m.e, q.bw, x, AtomRun(m.e, q, x))
    ensures !q.plan.check ==> AllAdvance(m.e, q.bw, x, AtomRun(m.e, q, x))
  {
    AtomOnward(m.e, q, x);
    if !q.plan.check {
      NoCheckNeeded(m.e, q.b, q.bw, q.lo, ClearIf(q.plan.reset, x, q.lo, Groups(q.b)));
    }
  }

  // ---- The uncounted loop ----

  // Split at i, atom of alen instructions, jump back; the register for the position is d.
  ghost predicate StarAt(m: Machine, q: Loop, once: bool, i: int, alen: nat, d: nat, nr: nat) {
    var c := B2I(q.plan.check);
    && LoopOf(m, q)
    && 0 <= i && i + 1 + alen + 2 * c + B2I(!once) <= |m.prog|
    && m.prog[i] == OSplit(q.greedy, alen + B2I(!once) + 2 * c)
    && (q.plan.check ==> d < nr && m.prog[i + 1] == OSetCharPos(d) && m.prog[i + 2 + alen] == OCheckAdvance(d))
    && (!once ==> m.prog[i + 1 + alen + 2 * c] == OGoto(-(alen + 2 + 2 * c)))
    && AtomOk(m, q, d + c, i + 1 + c, i + 1 + c + alen, nr)
  }

  function StarEnd(q: Loop, once: bool, i: int, alen: nat): int {
    i + 1 + alen + 2 * B2I(q.plan.check) + B2I(!once)
  }

  // What becomes of one way y through an iteration that began at p.
  function StarNext(e: Env, q: Loop, once: bool, p: nat, y: VState): seq<VState>
    requires WellFormed(q.b)
  {
    if !Advances(e, q.bw, p, y.pos) then []
    else if once then [y]
    else RunStar(e, q, once, y)
  }

  function StarEach(e: Env, q: Loop, once: bool, p: nat, ys: seq<VState>): (r: seq<seq<VState>>)
    requires WellFormed(q.b)
    ensures |r| == |ys|
    ensures forall k :: 0 <= k < |ys| ==> r[k] == StarNext(e, q, once, p, ys[k])
    ensures Flatten(r) == RunStarAll(e, q, once, p, ys)
  {
    if ys == [] then []
    else
      var r := [StarNext(e, q, once, p, ys[0])] + StarEach(e, q, once, p, ys[1..]);
      assert r[1..] == StarEach(e, q, once, p, ys[1..]);
      r
  }

  lemma {:induction false} StarCorrect(m: Machine, q: Loop, once: bool, i: int, alen: nat, k: int, x: VState,
                                       outs: seq<VState>,
                                       keep: seq<int>, nr: nat)
    requires StarAt(m, q, once, i, alen, |keep|, nr) && k == StarEnd(q, once, i, alen)
    requires |x.w| == 2 * m.nc && x.pos <= |m.e.input|
    requires outs == RunStar(m.e, q, once, x)
    ensures Continues(m, i, x, outs, k, keep, keep, nr)
    decreases Room(m.e, q.bw, x.pos), 2
  {
    var again := RunStarAll(m.e, q, once, x.pos, AtomRun(m.e, q, x));
    StarBody(m, q, once, i, alen, k, x, again, keep, nr);
    SplitOrStop(m, q.greedy, i, i + 1, k, x, again, outs, keep, nr);
  }

  // A split between going on at s and leaving at k, one of them being the next instruction.
  lemma SplitOrStop(m: Machine, greedy: bool, i: int, s: int, k: int, x: VState, again: seq<VState>, outs: seq<VState>,
                    keep: seq<int>, nr: nat)
    requires 0 <= i < |m.prog| && x.pos <= |m.e.input|
    requires (s == i + 1 && m.prog[i] == OSplit(greedy, k - s)) || (k == i + 1 && m.prog[i] == OSplit(!greedy, s - k))
    requires Continues(m, s, x, again, k, keep, keep, nr)
    requires outs == Prefer(greedy, again, x)
    ensures Continues(m, i, x, outs, k, keep, keep, nr)
  {
    HereCorrect(m, k, x, keep, nr);
    var op := m.prog[i];
    if greedy {
      SplitCorrect(m, i, op.nextFirst, op.off, x, again, [x], k, keep, keep, nr);
    } else {
      SplitCorrect(m, i, op.nextFirst, op.off, x, [x], again, k, keep, keep, nr);
    }
  }

  lemma {:induction false} StarBody(m: Machine, q: Loop, once: bool, i: int, alen: nat, k: int, x: VState,
                                    outs: seq<VState>,
                                    keep: seq<int>, nr: nat)
    requires StarAt(m, q, once, i, alen, |keep|, nr) && k == StarEnd(q, once, i, alen)
    requires |x.w| == 2 * m.nc && x.pos <= |m.e.input|
    requires outs == RunStarAll(m.e, q, once, x.pos, AtomRun(m.e, q, x))
    ensures Continues(m, i + 1, x, outs, k, keep, keep, nr)
    decreases Room(m.e, q.bw, x.pos), 1
  {
    var c := B2I(q.plan.check);
    var a0, a1 := i + 1 + c, i + 1 + c + alen;
    var ys := AtomRun(m.e, q, x);
    var mid := if q.plan.check then keep + [x.pos] else keep;
    AtomFacts(m, q, x);
    var kss := StarEach(m.e, q, once, x.pos, ys);
    forall l | 0 <= l < |ys|
      ensures Continues(m, a1, ys[l], kss[l], k, mid, keep, nr)
    {
      assert ys[l] in ys;
      StarAfter(m, q, once, i, alen, a1, k, x, ys[l], kss[l], mid, keep, nr);
    }
    StarAtom(m, q, once, i, alen, a0, a1, x, ys, mid, |keep|, nr);
    Bind(m, a0, x, ys, kss, a1, k, mid, mid, keep, nr);
    if q.plan.check {
      SavePos(m, i + 1, a0, k, x, outs, keep, mid, keep, nr);
    }
  }

  lemma StarAtom(m: Machine, q: Loop, once: bool, i: int, alen: nat, a0: int, a1: int, x: VState, ys: seq<VState>,
                 mid: seq<int>,
                 d: nat, nr: nat)
    requires StarAt(m, q, once, i, alen, d, nr) && a0 == i + 1 + B2I(q.plan.check) && a1 == a0 + alen
    requires |x.w| == 2 * m.nc && x.pos <= |m.e.input| && |mid| == d + B2I(q.plan.check)
    requires ys == AtomRun(m.e, q, x)
    ensures Continues(m, a0, x, ys, a1, mid, mid, nr)
  {
    assert AtomOk(m, q, d + B2I(q.plan.check), a0, a1, nr);
  }

  // The rest of the loop behind one way through the atom.
  lemma {:induction false} StarAfter(m: Machine, q: Loop, once: bool, i: int, alen: nat, a1: int, k: int, x: VState,
                                     y: VState,
                                     outs: seq<VState>, mid: seq<int>, keep: seq<int>, nr: nat)
    requires StarAt(m, q, once, i, alen, |keep|, nr) && k == StarEnd(q, once, i, alen)
    requires |x.w| == 2 * m.nc && x.pos <= |m.e.input| && a1 == i + 1 + B2I(q.plan.check) + alen
    requires mid == (if q.plan.check then keep + [x.pos] else keep)
    requires Onward(m.e, q.bw, x, y) && (!q.plan.check ==> Advances(m.e, q.bw, x.pos, y.pos))
    requires outs == StarNext(m.e, q, once, x.pos, y)
    ensures Continues(m, a1, y, outs, k, mid, keep, nr)
    decreases Room(m.e, q.bw, x.pos), 0
  {
    if !once && Advances(m.e, q.bw, x.pos, y.pos) {
      StarCorrect(m, q, once, i, alen, k, y, outs, keep, nr);
    }
    StarTail(m, q, once, i, alen, a1, k, x.pos, y, outs, mid, keep, nr);
  }

  // The position is saved in the next free register before the atom.
  lemma SavePos(m: Machine, i: int, a0: int, k: int, x: VState, outs: seq<VState>, pre: seq<int>, mid: seq<int>,
                post: seq<int>, nr: nat)
    requires |x.w| == 2 * m.nc && x.pos <= |m.e.input| && |pre| < nr
    requires 0 <= i < |m.prog| && m.prog[i] == OSetCharPos(|pre|) && a0 == i + 1 && mid == pre + [x.pos]
    requires Continues(m, a0, x, outs, k, mid, post, nr)
    ensures Continues(m, i, x, outs, k, pre, post, nr)
  {
    RegWrite(m, i, x, x.pos, pre, nr);
    BindOne(m, i, x, x, outs, a0, k, pre, mid, post, nr);
  }

  // After an iteration that began at p: the advance check and the jump back.
  lemma StarTail(m: Machine, q: Loop, once: bool, i: int, alen: nat, a1: int, k: int, p: nat, y: VState,
                 outs: seq<VState>,
                 mid: seq<int>, keep: seq<int>, nr: nat)
    requires StarAt(m, q, once, i, alen, |keep|, nr) && k == StarEnd(q, once, i, alen)
    requires a1 == i + 1 + B2I(q.plan.check) + alen
    requires |y.w| == 2 * m.nc && y.pos <= |m.e.input|
    requires Advances(m.e, q.bw, p, y.pos) || (q.plan.check && y.pos == p)
    requires outs == StarNext(m.e, q, once, p, y)
    requires mid == if q.plan.check then keep + [p] else keep
    requires !once && Advances(m.e, q.bw, p, y.pos) ==> Continues(m, i, y, outs, k, keep, keep, nr)
    ensures Continues(m, a1, y, outs, k, mid, keep, nr)
  {
    var a2 := a1 + B2I(q.plan.check);
    if Advances(m.e, q.bw, p, y.pos) {
      StarBack(m, q, once, i, alen, a2, k, y, outs, keep, nr);
    }
    if q.plan.check {
      CheckAdvanceCorrect(m, a1, y, p, keep, nr);
      if y.pos == p {
        Bind(m, a1, y, [], [], a2, k, mid, keep, keep, nr);
      } else {
        BindOne(m, a1, y, y, outs, a2, k, mid, keep, keep, nr);
      }
    }
  }

  // The jump back, or the end of a loop that runs at most once.
  lemma StarBack(m: Machine, q: Loop, once: bool, i: int, alen: nat, a2: int, k: int, y: VState, outs: seq<VState>,
                 keep: seq<int>, nr: nat)
    requires StarAt(m, q, once, i, alen, |keep|, nr) && k == StarEnd(q, once, i, alen)
    requires a2 == i + 1 + 2 * B2I(q.plan.check) + alen
    requires y.pos <= |m.e.input|
    requires once ==> outs == [y]
    requires !once ==> Continues(m, i, y, outs, k, keep, keep, nr)
    ensures Continues(m, a2, y, outs, k, keep, keep, nr)
  {
    if once {
      HereCorrect(m, k, y, keep, nr);
    } else {
      GotoCorrect(m, a2, i - a2 - 1, y, keep, nr);
      BindOne(m, a2, y, y, outs, i, k, keep, keep, keep, nr);
    }
  }

  // ---- The loop that runs at least once and needs no check ----

  ghost predicate PlusAt(m: Machine, q: Loop, i: int, alen: nat, d: nat, nr: nat) {
    && LoopOf(m, q) && !q.plan.check
    && 0 <= i && i + alen < |m.prog|
    && m.prog[i + alen] == OSplit(!q.greedy, -(alen + 1))
    && AtomOk(m, q, d, i, i + alen, nr)
  }

  lemma {:induction false} PlusCorrect(m: Machine, q: Loop, i: int, alen: nat, k: int, x: VState, outs: seq<VState>,
                                       keep: seq<int>, nr: nat)
    requires PlusAt(m, q, i, alen, |keep|, nr) && k == i + alen + 1
    requires |x.w| == 2 * m.nc && x.pos <= |m.e.input|
    requires outs == RunStarAll(m.e, q, false, x.pos, AtomRun(m.e, q, x))
    ensures Continues(m, i, x, outs, k, keep, keep, nr)
    decreases Room(m.e, q.bw, x.pos)
  {
    var s, ys := i + alen, AtomRun(m.e, q, x);
    AtomFacts(m, q, x);
    var kss := StarEach(m.e, q, false, x.pos, ys);
    forall l | 0 <= l < |ys|
      ensures Continues(m, s, ys[l], kss[l], k, keep, keep, nr)
    {
      var y := ys[l];
      assert y in ys;
      assert Onward(m.e, q.bw, x, y) && Advances(m.e, q.bw, x.pos, y.pos);
      var again := RunStarAll(m.e, q, false, y.pos, AtomRun(m.e, q, y));
      PlusCorrect(m, q, i, alen, k, y, again, keep, nr);
SplitOrStop(m, q.greedy, s, i, k, y, again, kss[l], keep, nr);
    }
    assert Continues(m, i, x, ys, s, keep, keep, nr);
    Bind(m, i, x, ys, kss, s, k, keep, keep, keep, nr);
  }

  // ---- The counted loop ----

  // The loop proper, from i on: optional position save, atom, loop instruction. Register d counts.
  ghost predicate CountedAt(m: Machine, q: Loop, check: bool, limit: nat, i: int, alen: nat, d: nat, nr: nat) {
    var c := B2I(check);
    && WellFormed(q.b)
    && 0 <= i && i + c + alen < |m.prog|
    && d + c < nr
    && (check ==> m.prog[i] == OSetCharPos(d + 1))
    && (limit == 0 ==> !check)
    && m.prog[i + c + alen] == (if limit == 0 then OLoop(d, -(alen + 1))
                                else OLoopSplit(!q.greedy, check, d, limit, -(alen + 1 + c)))
    && AtomOk(m, q, d + 1 + c, i + c, i + c + alen, nr)
  }

  function CountedEach(e: Env, q: Loop, check: bool, left: nat, limit: nat, p: nat,
                       ys: seq<VState>): (r: seq<seq<VState>>)
    requires WellFormed(q.b)
    ensures |r| == |ys|
    ensures forall k :: 0 <= k < |ys| ==> r[k] == AfterOne(e, q, check, left, limit, p, ys[k])
    ensures Flatten(r) == RunCountedAll(e, q, check, left, limit, p, ys)
  {
    if ys == [] then []
    else
      var r := [AfterOne(e, q, check, left, limit, p, ys[0])] + CountedEach(e, q, check, left, limit, p, ys[1..]);
      assert r[1..] == CountedEach(e, q, check, left, limit, p, ys[1..]);
      r
  }

  // Registers while an iteration runs.
  function During(keep: seq<int>, count: nat, check: bool, p: nat): seq<int> {
    keep + [count] + (if check then [p] else [])
  }

  // What the loop instruction does.
  lemma LoopStepResult(m: Machine, q: Loop, check: bool, left: nat, limit: nat, i: int, alen: nat, p: nat, y: VState,
                       keep: seq<int>,
                       nr: nat, fs: seq<Frame>, regs: seq<int>)
    requires CountedAt(m, q, check, limit, i, alen, |keep|, nr)
    requires |y.w| == 2 * m.nc && y.pos <= |m.e.input| && left < TWO32
    requires |regs| == nr && Keeps(During(keep, left + 1, check, p), regs)
    ensures var regs1 := regs[|keep| := left];
      var k := i + B2I(check) + alen + 1;
      && Keeps(keep + [left], regs1) && Keeps(keep, regs1)
      && Step(m, Going(i + B2I(check) + alen, y.pos, y.w + regs, fs)) ==
        if left > limit then Going(i, y.pos, y.w + regs1, fs)
        else if check && y.pos == p && left != limit then Backtrack(fs)
        else if left != 0 then Fork(!q.greedy, i - k, k, y.pos, y.w + regs1, fs)
        else Going(k, y.pos, y.w + regs1, fs)
  {
    var d, caps, idx := |keep|, y.w + regs, 2 * m.nc + |keep|;
    var pre := During(keep, left + 1, check, p);
    assert caps[idx] == regs[d] == pre[d] == left + 1;
    assert caps[idx := left] == y.w + regs[d := left];
    assert check ==> caps[idx + 1] == regs[d + 1] == pre[d + 1] == p;
    assert (left + 1 - 1) % TWO32 == left;
    assert forall r :: 0 <= r < d ==> regs[r] == pre[r] == keep[r];
  }

  // The loop instruction after one iteration.
  lemma LoopStep(m: Machine, q: Loop, check: bool, left: nat, limit: nat, i: int, alen: nat, a1: int, k: int, p: nat,
                 y: VState,
                 outs: seq<VState>, pre: seq<int>, keep: seq<int>, nr: nat)
    requires CountedAt(m, q, check, limit, i, alen, |keep|, nr) && a1 == i + B2I(check) + alen && k == a1 + 1
    requires |y.w| == 2 * m.nc && y.pos <= |m.e.input| && left < TWO32
    requires left != 0 ==> Continues(m, i, y, RunCounted(m.e, q, check, left, limit, y), k, keep + [left], keep, nr)
    requires outs == AfterOne(m.e, q, check, left, limit, p, y) && pre == During(keep, left + 1, check, p)
    ensures Continues(m, a1, y, outs, k, pre, keep, nr)
  {
    forall fs: seq<Frame>, regs: seq<int> | |regs| == nr && Keeps(pre, regs)
      ensures ContinuesFrom(m, a1, y, outs, k, keep, nr, fs, regs)
    {
      LoopStepResult(m, q, check, left, limit, i, alen, p, y, keep, nr, fs, regs);
      var regs1 := regs[|keep| := left];
      if left > limit {
        assert ContinuesFrom(m, i, y, outs, k, keep, nr, fs, regs1);
      } else if check && y.pos == p && left != limit {
        YieldsNone(m, fs, k, keep, nr);
      } else if left != 0 {
        LoopFork(m, q.greedy, i, k, y, RunCounted(m.e, q, check, left, limit, y), keep + [left], keep, nr, fs, regs1);
      } else {
        YieldsOne(m, y, regs1, k, fs, keep, nr);
      }
      YieldsStep(m, Going(a1, y.pos, y.w + regs, fs), outs, k, fs, keep, nr);
    }
  }

  // Once more or leave, in the order the quantifier prefers.
  lemma LoopFork(m: Machine, greedy: bool, i: int, k: int, y: VState, again: seq<VState>, pre: seq<int>,
                 keep: seq<int>, nr: nat,
                 fs: seq<Frame>, regs: seq<int>)
    requires Continues(m, i, y, again, k, pre, keep, nr)
    requires |regs| == nr && Keeps(pre, regs) && Keeps(keep, regs)
    ensures Yields(m, Fork(!greedy, i - k, k, y.pos, y.w + regs, fs), Prefer(greedy, again, y), k, fs, keep, nr)
  {
    if greedy {
      var f := Frame(KSplit, k, y.pos, y.w + regs);
      assert ContinuesFrom(m, i, y, again, k, keep, nr, fs + [f], regs);
      YieldsOne(m, y, regs, k, fs, keep, nr);
      YieldsOr(m, Going(i, y.pos, y.w + regs, fs + [f]), again, [y], f, k, fs, keep, nr);
    } else {
      var f := Frame(KSplit, i, y.pos, y.w + regs);
      assert ContinuesFrom(m, i, y, again, k, keep, nr, fs, regs);
      YieldsOne(m, y, regs, k, fs + [f], keep, nr);
      YieldsOr(m, Going(k, y.pos, y.w + regs, fs + [f]), [y], again, f, k, fs, keep, nr);
    }
  }

  lemma {:induction false} CountedCorrect(m: Machine, q: Loop, check: bool, count: nat, limit: nat, i: int, alen: nat,
                                          k: int, x: VState,
                                          outs: seq<VState>, keep: seq<int>, nr: nat)
    requires CountedAt(m, q, check, limit, i, alen, |keep|, nr) && k == i + B2I(check) + alen + 1
    requires |x.w| == 2 * m.nc && x.pos <= |m.e.input| && 0 < count < TWO32
    requires outs == RunCounted(m.e, q, check, count, limit, x)
    ensures Continues(m, i, x, outs, k, keep + [count], keep, nr)
    decreases count
  {
    var c := B2I(check);
    var a0, a1 := i + c, i + c + alen;
    var ys := AtomRun(m.e, q, x);
    AtomOnward(m.e, q, x);
    var pre, mid := keep + [count], During(keep, count, check, x.pos);
    var kss := CountedEach(m.e, q, check, count - 1, limit, x.pos, ys);
    forall l | 0 <= l < |ys|
      ensures Continues(m, a1, ys[l], kss[l], k, mid, keep, nr)
    {
      assert Onward(m.e, q.bw, x, ys[l]);
      if count > 1 {
        CountedCorrect(m, q, check, count - 1, limit, i, alen, k, ys[l],
                       RunCounted(m.e, q, check, count - 1, limit, ys[l]), keep, nr);
      }
      LoopStep(m, q, check, count - 1, limit, i, alen, a1, k, x.pos, ys[l], kss[l], mid, keep, nr);
    }
    assert |mid| == |keep| + 1 + c;
    assert Continues(m, a0, x, ys, a1, mid, mid, nr);
    Bind(m, a0, x, ys, kss, a1, k, mid, mid, keep, nr);
    if check {
      assert mid == pre + [x.pos];
      SavePos(m, i, a0, k, x, outs, pre, mid, keep, nr);
    } else {
      assert mid == pre;
    }
  }
}
