// The matcher as a state machine in which every choice point keeps a full copy of the captures and
// registers. The machine with the undo log is proved to refine it in BacktrackVM.dfy.
module SnapshotVM {
  import opened RegexSyntax
  import opened Bytecode
  import opened StructuredRun

  datatype Kind = KSplit | KLook | KNeg

  datatype Frame = Frame(kind: Kind, pc: int, pos: nat, caps: seq<int>)

  // caps holds two words per capture group, then the registers.
  datatype Config =
    | Going(pc: int, pos: nat, caps: seq<int>, frames: seq<Frame>)
    | Matched(caps: seq<int>)
    | Failed
    | Stuck

  datatype Machine = Machine(e: Env, prog: seq<Op>, nc: nat)

  const TWO32: int := 0x1_0000_0000

  // Take up the latest choice point; a lookahead frame is no choice point.
  function Backtrack(frames: seq<Frame>): Config {
    if frames == [] then Failed
    else
      var top := frames[|frames| - 1];
      var rest := frames[..|frames| - 1];
      if top.kind == KLook then Backtrack(rest) else Going(top.pc, top.pos, top.caps, rest)
  }

  // Drop frames down to and including the latest one of the given kind.
  function PopTo(frames: seq<Frame>, kind: Kind): Option<(Frame, seq<Frame>)> {
    if frames == [] then None
    else
      var top := frames[|frames| - 1];
      var rest := frames[..|frames| - 1];
      if top.kind == kind then Some((top, rest)) else PopTo(rest, kind)
  }

  // Fork: one branch now, the other as a choice point.
  function Fork(nextFirst: bool, off: int, pc: int, pos: nat, caps: seq<int>, frames: seq<Frame>): Config {
    if nextFirst then Going(pc, pos, caps, frames + [Frame(KSplit, pc + off, pos, caps)])
    else Going(pc + off, pos, caps, frames + [Frame(KSplit, pc, pos, caps)])
  }

  function Step(m: Machine, c: Config): Config {
    if !c.Going? then c
    else if !(0 <= c.pc < |m.prog|) || c.pos > |m.e.input| then Stuck
    else
      var Going(pc0, pos, caps, frames) := c;
      var pc := pc0 + 1;
      match m.prog[pc0]
      case OChar(t) =>
        if pos < |m.e.input| && Passes(m.e, t, m.e.input[pos]) then Going(pc, pos + 1, caps, frames)
        else Backtrack(frames)
      case OAssert(a) => if Holds(m.e, a, pos) then Going(pc, pos, caps, frames) else Backtrack(frames)
      case OGoto(off) => Going(pc + off, pos, caps, frames)
      case OSplit(nextFirst, off) => Fork(nextFirst, off, pc, pos, caps, frames)
      case OMatch => Matched(caps)
      case OLookMatch(neg) =>
        var p := PopTo(frames, if neg then KNeg else KLook);
        if p.None? then Stuck
        else if neg then Backtrack(p.value.1)
        else Going(p.value.0.pc, p.value.0.pos, caps, p.value.1)
      case OSave(end, g) =>
        if g >= m.nc || 2 * m.nc > |caps| then Stuck
        else Going(pc, pos, caps[2 * g + (if end then 1 else 0) := pos], frames)
      case OSaveReset(first, last) =>
        if last >= m.nc || 2 * m.nc > |caps| then Stuck
        else Going(pc, pos, Clear(caps, first, last + 1), frames)
      case OSetI32(reg, val) =>
        if 2 * m.nc + reg >= |caps| then Stuck
        else Going(pc, pos, caps[2 * m.nc + reg := val], frames)
      case OLoop(reg, off) =>
        if 2 * m.nc + reg >= |caps| then Stuck
        else
          var v := (caps[2 * m.nc + reg] - 1) % TWO32;
          Going(if v != 0 then pc + off else pc, pos, caps[2 * m.nc + reg := v], frames)
      case OLoopSplit(nextFirst, checkAdv, reg, limit, off) =>
        if 2 * m.nc + reg + 1 > |caps| || (checkAdv && 2 * m.nc + reg + 1 >= |caps|) then Stuck
        else
          var v := (caps[2 * m.nc + reg] - 1) % TWO32;
          var caps1 := caps[2 * m.nc + reg := v];
          if v > limit then Going(pc + off, pos, caps1, frames)
          else if checkAdv && caps1[2 * m.nc + reg + 1] == pos && v != limit then Backtrack(frames)
          else if v != 0 then Fork(nextFirst, off, pc, pos, caps1, frames)
          else Going(pc, pos, caps1, frames)
      case OSetCharPos(reg) =>
        if 2 * m.nc + reg >= |caps| then Stuck
        else Going(pc, pos, caps[2 * m.nc + reg := pos], frames)
      case OCheckAdvance(reg) =>
        if 2 * m.nc + reg >= |caps| then Stuck
        else if caps[2 * m.nc + reg] == pos then Backtrack(frames)
        else Going(pc, pos, caps, frames)
      case OBackRef(bw, icase, groups) =>
        if 2 * m.nc > |caps| then Stuck
        else
          var to := BackRefV(m.e, bw, icase, groups, VState(pos, caps[..2 * m.nc]));
          if to.Some? then Going(pc, to.value, caps, frames) else Backtrack(frames)
      case OLook(neg, off) =>
        Going(pc, pos, caps, frames + [Frame(if neg then KNeg else KLook, pc + off, pos, caps)])
      case OPrev =>
        if pos == 0 then Backtrack(frames) else Going(pc, pos - 1, caps, frames)
  }

  function Steps(m: Machine, c: Config, n: nat): Config
    decreases n
  {
    if n == 0 then c else Steps(m, Step(m, c), n - 1)
  }

  ghost predicate Reaches(m: Machine, c: Config, d: Config) {
    exists n: nat :: Steps(m, c, n) == d
  }

  lemma {:induction false} StepsAdd(m: Machine, c: Config, i: nat, j: nat)
    ensures Steps(m, Steps(m, c, i), j) == Steps(m, c, i + j)
    decreases i
  {
    if i > 0 {
      StepsAdd(m, Step(m, c), i - 1, j);
    }
  }

  lemma {:induction false} StepsStay(m: Machine, c: Config, n: nat)
    requires !c.Going?
    ensures Steps(m, c, n) == c
    decreases n
  {
    if n > 0 {
      StepsStay(m, c, n - 1);
    }
  }

  lemma ReachesRefl(m: Machine, c: Config)
    ensures Reaches(m, c, c)
  {
    assert Steps(m, c, 0) == c;
  }

  lemma ReachesStep(m: Machine, c: Config)
    ensures Reaches(m, c, Step(m, c))
  {
    assert Steps(m, Step(m, c), 0) == Step(m, c);
    assert Steps(m, c, 1) == Step(m, c);
  }

  lemma ReachesTrans(m: Machine, c: Config, d: Config, f: Config)
    requires Reaches(m, c, d) && Reaches(m, d, f)
    ensures Reaches(m, c, f)
  {
    var i: nat :| Steps(m, c, i) == d;
    var j: nat :| Steps(m, d, j) == f;
    StepsAdd(m, c, i, j);
  }

  // ---- Yields: a run that leaves a fragment in a list of states, one after the other ----

  ghost predicate OnlySplits(fs: seq<Frame>) {
    forall i :: 0 <= i < |fs| ==> fs[i].kind == KSplit
  }

  // Registers regs agree with the words that must be preserved.
  predicate Keeps(keep: seq<int>, regs: seq<int>) {
    |keep| <= |regs| && forall i :: 0 <= i < |keep| ==> regs[i] == keep[i]
  }

  // The run from c comes out at j in the states outs in turn, each later one after backtracking
  // into what the earlier left behind, and in the end backtracks into the frames fs it started with.
  // Each time the first registers are those of keep, and there are nr registers.
  ghost predicate Yields(m: Machine, c: Config, outs: seq<VState>, j: int, fs: seq<Frame>, keep: seq<int>, nr: nat)
    decreases |outs|
  {
    if outs == [] then Reaches(m, c, Backtrack(fs))
    else exists gs: seq<Frame>, regs: seq<int> :: YieldsVia(m, c, outs, j, fs, keep, nr, gs, regs)
  }

  ghost predicate YieldsVia(m: Machine, c: Config, outs: seq<VState>, j: int, fs: seq<Frame>, keep: seq<int>, nr: nat,
                            gs: seq<Frame>, regs: seq<int>)
    requires outs != []
    decreases |outs|, 0
  {
    && OnlySplits(gs)
    && |regs| == nr && Keeps(keep, regs)
    && Reaches(m, c, Going(j, outs[0].pos, outs[0].w + regs, fs + gs))
    && Yields(m, Backtrack(fs + gs), outs[1..], j, fs, keep, nr)
  }

  lemma YieldsFirst(m: Machine, c: Config, outs: seq<VState>, j: int, fs: seq<Frame>, keep: seq<int>, nr: nat)
    returns (gs: seq<Frame>, regs: seq<int>)
    requires outs != [] && Yields(m, c, outs, j, fs, keep, nr)
    ensures YieldsVia(m, c, outs, j, fs, keep, nr, gs, regs)
  {
    gs, regs :| YieldsVia(m, c, outs, j, fs, keep, nr, gs, regs);
  }

  lemma YieldsPrefix(m: Machine, c: Config, d: Config, outs: seq<VState>, j: int, fs: seq<Frame>, keep: seq<int>,
                     nr: nat)
    requires Reaches(m, c, d)
    requires Yields(m, d, outs, j, fs, keep, nr)
    ensures Yields(m, c, outs, j, fs, keep, nr)
  {
    if outs == [] {
      ReachesTrans(m, c, d, Backtrack(fs));
    } else {
      var gs, regs :| YieldsVia(m, d, outs, j, fs, keep, nr, gs, regs);
      ReachesTrans(m, c, d, Going(j, outs[0].pos, outs[0].w + regs, fs + gs));
      assert YieldsVia(m, c, outs, j, fs, keep, nr, gs, regs);
    }
  }

  lemma YieldsStep(m: Machine, c: Config, outs: seq<VState>, j: int, fs: seq<Frame>, keep: seq<int>, nr: nat)
    requires Yields(m, Step(m, c), outs, j, fs, keep, nr)
    ensures Yields(m, c, outs, j, fs, keep, nr)
  {
    ReachesStep(m, c);
    YieldsPrefix(m, c, Step(m, c), outs, j, fs, keep, nr);
  }

  // A state already at the exit, with frames of its own on top.
  lemma YieldsHere(m: Machine, x: VState, regs: seq<int>, gs: seq<Frame>, outs: seq<VState>, j: int, fs: seq<Frame>,
                   keep: seq<int>, nr: nat)
    requires OnlySplits(gs) && |regs| == nr && Keeps(keep, regs)
    requires Yields(m, Backtrack(fs + gs), outs, j, fs, keep, nr)
    ensures Yields(m, Going(j, x.pos, x.w + regs, fs + gs), [x] + outs, j, fs, keep, nr)
  {
    var c := Going(j, x.pos, x.w + regs, fs + gs);
    ReachesRefl(m, c);
    assert ([x] + outs)[1..] == outs;
    assert YieldsVia(m, c, [x] + outs, j, fs, keep, nr, gs, regs);
  }

  lemma YieldsNone(m: Machine, fs: seq<Frame>, j: int, keep: seq<int>, nr: nat)
    ensures Yields(m, Backtrack(fs), [], j, fs, keep, nr)
  {
    ReachesRefl(m, Backtrack(fs));
  }

  lemma YieldsOne(m: Machine, x: VState, regs: seq<int>, j: int, fs: seq<Frame>, keep: seq<int>, nr: nat)
    requires |regs| == nr && Keeps(keep, regs)
    ensures Yields(m, Going(j, x.pos, x.w + regs, fs), [x], j, fs, keep, nr)
  {
    YieldsNone(m, fs, j, keep, nr);
    assert fs + [] == fs;
    YieldsHere(m, x, regs, [], [], j, fs, keep, nr);
    assert [x] + [] == [x];
  }

  // Fewer registers to preserve is a weaker claim.
  lemma {:induction false} YieldsWeaken(m: Machine, c: Config, outs: seq<VState>, j: int, fs: seq<Frame>,
                                        keep: seq<int>, keep': seq<int>, nr: nat)
    requires Yields(m, c, outs, j, fs, keep, nr)
    requires Keeps(keep', keep)
    ensures Yields(m, c, outs, j, fs, keep', nr)
    decreases |outs|
  {
    if outs != [] {
      var gs, regs :| YieldsVia(m, c, outs, j, fs, keep, nr, gs, regs);
      YieldsWeaken(m, Backtrack(fs + gs), outs[1..], j, fs, keep, keep', nr);
      assert YieldsVia(m, c, outs, j, fs, keep', nr, gs, regs);
    }
  }

  // First the states outs, with choice points gs of its own below it, then the states more.
  lemma {:induction false} YieldsConcat(m: Machine, c: Config, outs: seq<VState>, more: seq<VState>, j: int,
                                        fs: seq<Frame>, gs: seq<Frame>, keep: seq<int>, nr: nat)
    requires OnlySplits(gs)
    requires Yields(m, c, outs, j, fs + gs, keep, nr)
    requires Yields(m, Backtrack(fs + gs), more, j, fs, keep, nr)
    ensures Yields(m, c, outs + more, j, fs, keep, nr)
    decreases |outs|
  {
    if outs == [] {
      assert outs + more == more;
      YieldsPrefix(m, c, Backtrack(fs + gs), more, j, fs, keep, nr);
    } else {
      var hs, regs :| YieldsVia(m, c, outs, j, fs + gs, keep, nr, hs, regs);
      assert fs + gs + hs == fs + (gs + hs);
      YieldsConcat(m, Backtrack(fs + (gs + hs)), outs[1..], more, j, fs, gs, keep, nr);
      assert (outs + more)[1..] == outs[1..] + more;
      assert YieldsVia(m, c, outs + more, j, fs, keep, nr, gs + hs, regs);
    }
  }

  // ---- Continues: what holds at a program point whatever frames and scratch registers are there ----

  // From i in state x with the registers of pre, the run comes out at j in the states outs, each
  // time with the registers of post.
  ghost predicate Continues(m: Machine, i: int, x: VState, outs: seq<VState>, j: int, pre: seq<int>, post: seq<int>,
                            nr: nat) {
    forall fs: seq<Frame>, regs: seq<int> ::
      |regs| == nr && Keeps(pre, regs) ==> ContinuesFrom(m, i, x, outs, j, post, nr, fs, regs)
  }

  ghost predicate ContinuesFrom(m: Machine, i: int, x: VState, outs: seq<VState>, j: int, post: seq<int>, nr: nat,
                                fs: seq<Frame>, regs: seq<int>) {
    Yields(m, Going(i, x.pos, x.w + regs, fs), outs, j, fs, post, nr)
  }

  function Flatten(kss: seq<seq<VState>>): seq<VState> {
    if kss == [] then [] else kss[0] + Flatten(kss[1..])
  }

  // Sequential composition: every state the first run comes out in is continued to the next exit.
  lemma {:induction false} YieldsBind(m: Machine, c: Config, outs: seq<VState>, kss: seq<seq<VState>>, j: int, k: int,
                                      fs: seq<Frame>, pre: seq<int>, post: seq<int>, nr: nat)
    requires Yields(m, c, outs, j, fs, pre, nr)
    requires |kss| == |outs|
    requires forall i :: 0 <= i < |outs| ==> Continues(m, j, outs[i], kss[i], k, pre, post, nr)
    ensures Yields(m, c, Flatten(kss), k, fs, post, nr)
    decreases |outs|
  {
    if outs == [] {
    } else {
      var gs, regs :| YieldsVia(m, c, outs, j, fs, pre, nr, gs, regs);
      YieldsBind(m, Backtrack(fs + gs), outs[1..], kss[1..], j, k, fs, pre, post, nr);
      var d := Going(j, outs[0].pos, outs[0].w + regs, fs + gs);
      assert Continues(m, j, outs[0], kss[0], k, pre, post, nr);
      assert ContinuesFrom(m, j, outs[0], kss[0], k, post, nr, fs + gs, regs);
      YieldsConcat(m, d, kss[0], Flatten(kss[1..]), k, fs, gs, post, nr);
      YieldsPrefix(m, c, d, Flatten(kss), k, fs, post, nr);
    }
  }

  // A choice point in front of a run: the run goes first and the state z is the alternative.
  lemma YieldsOr(m: Machine, c: Config, outs: seq<VState>, more: seq<VState>, f: Frame, j: int, fs: seq<Frame>,
                 keep: seq<int>, nr: nat)
    requires f.kind == KSplit
    requires Yields(m, c, outs, j, fs + [f], keep, nr)
    requires Yields(m, Going(f.pc, f.pos, f.caps, fs), more, j, fs, keep, nr)
    ensures Yields(m, c, outs + more, j, fs, keep, nr)
  {
    assert (fs + [f])[..|fs|] == fs;
    YieldsConcat(m, c, outs, more, j, fs, [f], keep, nr);
  }
}
