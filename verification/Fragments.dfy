// Runs of the snapshot machine through single instructions and their composition.
module Fragments {
  import opened RegexSyntax
  import opened Bytecode
  import opened Codegen
  import opened StructuredRun
  import opened SnapshotVM
  import opened Progress

  // The program holds this code at i.
  ghost predicate HasCode(m: Machine, i: int, code: seq<Op>) {
    && 0 <= i && i + |code| <= |m.prog|
    && forall k {:trigger code[k]} :: 0 <= k < |code| ==> m.prog[i + k] == code[k]
  }

  lemma HasSplit(m: Machine, i: int, a: seq<Op>, b: seq<Op>)
    requires HasCode(m, i, a + b)
    ensures HasCode(m, i, a) && HasCode(m, i + |a|, b)
  {
    forall k {:trigger a[k]} | 0 <= k < |a|
      ensures m.prog[i + k] == a[k]
    {
      assert (a + b)[k] == a[k];
    }
    forall k {:trigger b[k]} | 0 <= k < |b|
      ensures m.prog[i + |a| + k] == b[k]
    {
      assert (a + b)[|a| + k] == b[k];
    }
  }

  // ---- One instruction ----

  // An instruction that either backtracks or goes on at the next one.
  lemma StepTo(m: Machine, i: int, x: VState, to: Option<nat>, pre: seq<int>, nr: nat)
    requires forall fs, regs: seq<int> {:trigger Going(i, x.pos, x.w + regs, fs)} ::
      |regs| == nr && Keeps(pre, regs) ==>
      Step(m, Going(i, x.pos, x.w + regs, fs)) == if to.Some? then Going(i + 1, to.value, x.w + regs, fs)
                                                  else Backtrack(fs)
    ensures Continues(m, i, x, AtV(to, x), i + 1, pre, pre, nr)
  {
    var j, outs := i + 1, AtV(to, x);
    forall fs: seq<Frame>, regs: seq<int> | |regs| == nr && Keeps(pre, regs)
      ensures ContinuesFrom(m, i, x, outs, j, pre, nr, fs, regs)
    {
      var c := Going(i, x.pos, x.w + regs, fs);
      if to.Some? {
        YieldsOne(m, VState(to.value, x.w), regs, i + 1, fs, pre, nr);
      } else {
        YieldsNone(m, fs, i + 1, pre, nr);
      }
      YieldsStep(m, c, AtV(to, x), i + 1, fs, pre, nr);
    }
  }

  lemma HereCorrect(m: Machine, i: int, x: VState, keep: seq<int>, nr: nat)
    ensures Continues(m, i, x, [x], i, keep, keep, nr)
  {
    var outs := [x];
    forall fs: seq<Frame>, regs: seq<int> | |regs| == nr && Keeps(keep, regs)
      ensures ContinuesFrom(m, i, x, outs, i, keep, nr, fs, regs)
    {
      YieldsOne(m, x, regs, i, fs, keep, nr);
    }
  }

  // Composition at the level of Continues.
  lemma Bind(m: Machine, i: int, x: VState, outs: seq<VState>, kss: seq<seq<VState>>, j: int, k: int,
             pre: seq<int>, mid: seq<int>, post: seq<int>, nr: nat)
    requires Continues(m, i, x, outs, j, pre, mid, nr)
    requires |kss| == |outs|
    requires forall l :: 0 <= l < |outs| ==> Continues(m, j, outs[l], kss[l], k, mid, post, nr)
    ensures Continues(m, i, x, Flatten(kss), k, pre, post, nr)
  {
    forall fs: seq<Frame>, regs: seq<int> | |regs| == nr && Keeps(pre, regs)
      ensures ContinuesFrom(m, i, x, Flatten(kss), k, post, nr, fs, regs)
    {
      assert ContinuesFrom(m, i, x, outs, j, mid, nr, fs, regs);
      YieldsBind(m, Going(i, x.pos, x.w + regs, fs), outs, kss, j, k, fs, mid, post, nr);
    }
  }

  // The same when there is at most one state in the middle.
  lemma BindAt(m: Machine, i: int, x: VState, to: Option<nat>, outs: seq<VState>, j: int, k: int, pre: seq<int>,
               nr: nat)
    requires Continues(m, i, x, AtV(to, x), j, pre, pre, nr)
    requires to.Some? ==> Continues(m, j, VState(to.value, x.w), outs, k, pre, pre, nr)
    ensures Continues(m, i, x, if to.Some? then outs else [], k, pre, pre, nr)
  {
    var kss := if to.Some? then [outs] else [];
    Bind(m, i, x, AtV(to, x), kss, j, k, pre, pre, pre, nr);
    assert to.Some? ==> kss[1..] == [] && Flatten(kss) == outs + [] == outs;
  }

  function Singles(xs: seq<VState>): (r: seq<seq<VState>>)
    ensures |r| == |xs|
    ensures forall k :: 0 <= k < |xs| ==> r[k] == [xs[k]]
    ensures Flatten(r) == xs
  {
    if xs == [] then []
    else
      var r := [[xs[0]]] + Singles(xs[1..]);
      assert r[1..] == Singles(xs[1..]);
      r
  }

  lemma GotoCorrect(m: Machine, i: int, off: int, y: VState, keep: seq<int>, nr: nat)
    requires 0 <= i < |m.prog| && m.prog[i] == OGoto(off) && y.pos <= |m.e.input|
    ensures Continues(m, i, y, [y], i + 1 + off, keep, keep, nr)
  {
    var k, outs := i + 1 + off, [y];
    forall fs: seq<Frame>, regs: seq<int> | |regs| == nr && Keeps(keep, regs)
      ensures ContinuesFrom(m, i, y, outs, k, keep, nr, fs, regs)
    {
      YieldsOne(m, y, regs, k, fs, keep, nr);
      YieldsStep(m, Going(i, y.pos, y.w + regs, fs), outs, k, fs, keep, nr);
    }
  }

  // A split: the states of the preferred branch, then those of the other.
  lemma SplitCorrect(m: Machine, i: int, nextFirst: bool, off: int, x: VState, ls: seq<VState>, rs: seq<VState>, k: int,
                     pre: seq<int>, post: seq<int>, nr: nat)
    requires 0 <= i < |m.prog| && m.prog[i] == OSplit(nextFirst, off) && x.pos <= |m.e.input|
    requires Continues(m, if nextFirst then i + 1 else i + 1 + off, x, ls, k, pre, post, nr)
    requires Continues(m, if nextFirst then i + 1 + off else i + 1, x, rs, k, pre, post, nr)
    ensures Continues(m, i, x, ls + rs, k, pre, post, nr)
  {
    var outs := ls + rs;
    var s, t := if nextFirst then i + 1 else i + 1 + off, if nextFirst then i + 1 + off else i + 1;
    forall fs: seq<Frame>, regs: seq<int> | |regs| == nr && Keeps(pre, regs)
      ensures ContinuesFrom(m, i, x, outs, k, post, nr, fs, regs)
    {
      var f := Frame(KSplit, t, x.pos, x.w + regs);
      assert ContinuesFrom(m, s, x, ls, k, post, nr, fs + [f], regs);
      assert ContinuesFrom(m, t, x, rs, k, post, nr, fs, regs);
      YieldsOr(m, Going(s, x.pos, x.w + regs, fs + [f]), ls, rs, f, k, fs, post, nr);
      YieldsStep(m, Going(i, x.pos, x.w + regs, fs), outs, k, fs, post, nr);
    }
  }

  // A jump after a run changes where it comes out and nothing else.
  lemma GotoAll(m: Machine, bw: bool, i: int, x: VState, ls: seq<VState>, g: int, off: int, k: int, keep: seq<int>,
                nr: nat)
    requires Continues(m, i, x, ls, g, keep, keep, nr)
    requires AllOnward(m.e, bw, x, ls)
    requires 0 <= g < |m.prog| && m.prog[g] == OGoto(off) && k == g + 1 + off
    ensures Continues(m, i, x, ls, k, keep, keep, nr)
  {
    var kss := Singles(ls);
    forall q | 0 <= q < |ls|
      ensures Continues(m, g, ls[q], kss[q], k, keep, keep, nr)
    {
      assert Onward(m.e, bw, x, ls[q]);
      GotoCorrect(m, g, off, ls[q], keep, nr);
    }
    Bind(m, i, x, ls, kss, g, k, keep, keep, keep, nr);
  }

  lemma SaveCorrect(m: Machine, i: int, end: bool, g: nat, y: VState, keep: seq<int>, nr: nat)
    requires 0 <= i < |m.prog| && m.prog[i] == OSave(end, g) && y.pos <= |m.e.input|
    requires g < m.nc && |y.w| == 2 * m.nc
    ensures Continues(m, i, y, [VState(y.pos, SetWord(y.w, 2 * g + B2I(end), y.pos))], i + 1, keep, keep, nr)
  {
    var k, z := i + 1, VState(y.pos, SetWord(y.w, 2 * g + B2I(end), y.pos));
    var outs := [z];
    forall fs: seq<Frame>, regs: seq<int> | |regs| == nr && Keeps(keep, regs)
      ensures ContinuesFrom(m, i, y, outs, k, keep, nr, fs, regs)
    {
      assert (y.w + regs)[2 * g + B2I(end) := y.pos] == z.w + regs;
      YieldsOne(m, z, regs, k, fs, keep, nr);
      YieldsStep(m, Going(i, y.pos, y.w + regs, fs), outs, k, fs, keep, nr);
    }
  }

  lemma {:induction false} PopSplits(fs: seq<Frame>, f: Frame, gs: seq<Frame>)
    requires OnlySplits(gs) && f.kind != KSplit
    ensures PopTo(fs + [f] + gs, f.kind) == Some((f, fs))
    decreases |gs|
  {
    var all := fs + [f] + gs;
    if gs == [] {
      assert all == fs + [f] && all[..|all| - 1] == fs;
    } else {
      assert all[..|all| - 1] == fs + [f] + gs[..|gs| - 1];
      PopSplits(fs, f, gs[..|gs| - 1]);
    }
  }

  // A positive lookaround commits to the first way through its body.
  lemma LookRun(m: Machine, i: int, j: int, k: int, x: VState, ys: seq<VState>, outs: seq<VState>, keep: seq<int>,
                nr: nat)
    requires 0 <= i < j < |m.prog| && m.prog[i] == OLook(false, j - i) && m.prog[j] == OLookMatch(false) && k == j + 1
    requires x.pos <= |m.e.input| && (ys != [] ==> ys[0].pos <= |m.e.input|)
    requires Continues(m, i + 1, x, ys, j, keep, keep, nr)
    requires outs == if ys == [] then [] else [VState(x.pos, ys[0].w)]
    ensures Continues(m, i, x, outs, k, keep, keep, nr)
  {
    forall fs: seq<Frame>, regs: seq<int> | |regs| == nr && Keeps(keep, regs)
      ensures ContinuesFrom(m, i, x, outs, k, keep, nr, fs, regs)
    {
      var f := Frame(KLook, k, x.pos, x.w + regs);
      var c1 := Going(i + 1, x.pos, x.w + regs, fs + [f]);
      assert (fs + [f])[..|fs|] == fs;
      assert ContinuesFrom(m, i + 1, x, ys, j, keep, nr, fs + [f], regs);
      if ys != [] {
        var gs, regs1 := YieldsFirst(m, c1, ys, j, fs + [f], keep, nr);
        var c2 := Going(j, ys[0].pos, ys[0].w + regs1, fs + [f] + gs);
        PopSplits(fs, f, gs);
        YieldsOne(m, outs[0], regs1, k, fs, keep, nr);
        YieldsStep(m, c2, outs, k, fs, keep, nr);
        YieldsPrefix(m, c1, c2, outs, k, fs, keep, nr);
      }
      YieldsStep(m, Going(i, x.pos, x.w + regs, fs), outs, k, fs, keep, nr);
    }
  }

  // A negative one succeeds, with everything undone, when there is no way through its body.
  lemma NegLookRun(m: Machine, i: int, j: int, k: int, x: VState, ys: seq<VState>, outs: seq<VState>, keep: seq<int>,
                   nr: nat)
    requires 0 <= i < j < |m.prog| && m.prog[i] == OLook(true, j - i) && m.prog[j] == OLookMatch(true) && k == j + 1
    requires x.pos <= |m.e.input| && (ys != [] ==> ys[0].pos <= |m.e.input|)
    requires Continues(m, i + 1, x, ys, j, keep, keep, nr)
    requires outs == if ys == [] then [x] else []
    ensures Continues(m, i, x, outs, k, keep, keep, nr)
  {
    forall fs: seq<Frame>, regs: seq<int> | |regs| == nr && Keeps(keep, regs)
      ensures ContinuesFrom(m, i, x, outs, k, keep, nr, fs, regs)
    {
      var f := Frame(KNeg, k, x.pos, x.w + regs);
      var c1 := Going(i + 1, x.pos, x.w + regs, fs + [f]);
      assert (fs + [f])[..|fs|] == fs;
      assert ContinuesFrom(m, i + 1, x, ys, j, keep, nr, fs + [f], regs);
      if ys == [] {
        YieldsOne(m, x, regs, k, fs, keep, nr);
        YieldsPrefix(m, c1, Backtrack(fs + [f]), outs, k, fs, keep, nr);
      } else {
        var gs, regs1 := YieldsFirst(m, c1, ys, j, fs + [f], keep, nr);
        var c2 := Going(j, ys[0].pos, ys[0].w + regs1, fs + [f] + gs);
        PopSplits(fs, f, gs);
        YieldsNone(m, fs, k, keep, nr);
        YieldsStep(m, c2, outs, k, fs, keep, nr);
        YieldsPrefix(m, c1, c2, outs, k, fs, keep, nr);
      }
      YieldsStep(m, Going(i, x.pos, x.w + regs, fs), outs, k, fs, keep, nr);
    }
  }

  // Composition through exactly one state in the middle.
  lemma BindOne(m: Machine, i: int, x: VState, y: VState, outs: seq<VState>, j: int, k: int,
                pre: seq<int>, mid: seq<int>, post: seq<int>, nr: nat)
    requires Continues(m, i, x, [y], j, pre, mid, nr)
    requires Continues(m, j, y, outs, k, mid, post, nr)
    ensures Continues(m, i, x, outs, k, pre, post, nr)
  {
    Bind(m, i, x, [y], [outs], j, k, pre, mid, post, nr);
    assert Flatten([outs]) == outs + Flatten([outs][1..]) == outs;
  }

  lemma ResetCorrect(m: Machine, i: int, lo: nat, groups: nat, x: VState, keep: seq<int>, nr: nat)
    requires groups > 0 && lo + groups <= m.nc && |x.w| == 2 * m.nc && x.pos <= |m.e.input|
    requires 0 <= i < |m.prog| && m.prog[i] == OSaveReset(lo, lo + groups - 1)
    ensures Continues(m, i, x, [ClearIf(true, x, lo, groups)], i + 1, keep, keep, nr)
  {
    var k, z := i + 1, ClearIf(true, x, lo, groups);
    var outs := [z];
    forall fs: seq<Frame>, regs: seq<int> | |regs| == nr && Keeps(keep, regs)
      ensures ContinuesFrom(m, i, x, outs, k, keep, nr, fs, regs)
    {
      assert Clear(x.w + regs, lo, lo + groups) == z.w + regs;
      YieldsOne(m, z, regs, k, fs, keep, nr);
      YieldsStep(m, Going(i, x.pos, x.w + regs, fs), outs, k, fs, keep, nr);
    }
  }

  lemma ResetThen(m: Machine, i: int, lo: nat, groups: nat, c: seq<Op>, j: int, x: VState, outs: seq<VState>,
                  keep: seq<int>, nr: nat)
    requires groups > 0 && lo + groups <= m.nc && |x.w| == 2 * m.nc && x.pos <= |m.e.input|
    requires HasCode(m, i, [OSaveReset(lo, lo + groups - 1)] + c)
    requires Continues(m, i + 1, ClearIf(true, x, lo, groups), outs, j, keep, keep, nr)
    ensures Continues(m, i, x, outs, j, keep, keep, nr)
  {
    var op := OSaveReset(lo, lo + groups - 1);
    assert m.prog[i] == ([op] + c)[0];
    ResetCorrect(m, i, lo, groups, x, keep, nr);
    BindOne(m, i, x, ClearIf(true, x, lo, groups), outs, i + 1, j, keep, keep, keep, nr);
  }

  // Writing the next free register.
  lemma RegWrite(m: Machine, i: int, x: VState, v: nat, keep: seq<int>, nr: nat)
    requires |x.w| == 2 * m.nc && x.pos <= |m.e.input| && |keep| < nr
    requires 0 <= i < |m.prog|
    requires m.prog[i] == OSetI32(|keep|, v) || (m.prog[i] == OSetCharPos(|keep|) && v == x.pos)
    ensures Continues(m, i, x, [x], i + 1, keep, keep + [v], nr)
  {
    var k, outs, post := i + 1, [x], keep + [v];
    forall fs: seq<Frame>, regs: seq<int> | |regs| == nr && Keeps(keep, regs)
      ensures ContinuesFrom(m, i, x, outs, k, post, nr, fs, regs)
    {
      var regs1 := regs[|keep| := v];
      assert (x.w + regs)[|x.w| + |keep| := v] == x.w + regs1;
      YieldsOne(m, x, regs1, k, fs, post, nr);
      YieldsStep(m, Going(i, x.pos, x.w + regs, fs), outs, k, fs, post, nr);
    }
  }

  lemma CheckAdvanceCorrect(m: Machine, i: int, y: VState, p: nat, keep: seq<int>, nr: nat)
    requires |y.w| == 2 * m.nc && y.pos <= |m.e.input| && |keep| < nr
    requires 0 <= i < |m.prog| && m.prog[i] == OCheckAdvance(|keep|)
    ensures Continues(m, i, y, if y.pos == p then [] else [y], i + 1, keep + [p], keep, nr)
  {
    var k, outs, pre := i + 1, if y.pos == p then [] else [y], keep + [p];
    forall fs: seq<Frame>, regs: seq<int> | |regs| == nr && Keeps(pre, regs)
      ensures ContinuesFrom(m, i, y, outs, k, keep, nr, fs, regs)
    {
      assert (y.w + regs)[|y.w| + |keep|] == regs[|keep|] == pre[|keep|] == p;
      if y.pos == p {
        YieldsNone(m, fs, k, keep, nr);
      } else {
        YieldsOne(m, y, regs, k, fs, keep, nr);
      }
      YieldsStep(m, Going(i, y.pos, y.w + regs, fs), outs, k, fs, keep, nr);
    }
  }
}
