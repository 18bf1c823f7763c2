// From a parse tree to a match: the compiler and the matcher together do what ECMA-262 says.
module RegexMain {
  import opened RegexSyntax
  import opened Bytecode
  import opened Codegen
  import opened EcmaSemantics
  import opened StructuredRun
  import opened SnapshotVM
  import opened Progress
  import opened Fragments
  import opened CodegenCorrect
  import opened ClassTest
  import opened Frames
  import opened Simulation
  import opened Capped
  import opened ParseTree
  import opened TreeSemantics
  import opened TreeLaws
  import opened Emitter
  import opened Registers
  import opened BacktrackVM
  import opened ProgramOk

  // ---- The specification: RegExpBuiltinExec, section 22.2.7.2 ----

  function NoCaptures(n: Node): seq<Option<(nat, nat)>> {
    seq(1 + Groups(n), _ => None)
  }

  // One attempt at index k; group 0 is the whole match.
  function MatchAt(e: Env, n: Node, k: nat): Option<MState> {
    var r := Match(e, n, false, 1, MState(k, NoCaptures(n)), Succeed());
    if r.None? then None else Some(Close(false, 0, k, r.value))
  }

  // Attempts at k, k + 1 and so on to the end of the input; only at k when sticky.
  function ExecSpec(e: Env, n: Node, k: nat, sticky: bool): Option<MState>
    decreases |e.input| - k
  {
    var r := MatchAt(e, n, k);
    if r.Some? then r
    else if sticky || k >= |e.input| then None
    else ExecSpec(e, n, k + 1, sticky)
  }

  // ---- The program ----

  function Prefix(sticky: bool): seq<Op> {
    if sticky then [] else [OSplit(false, 2), OChar(TAny), OGoto(-3)]
  }

  function Program(e: Env, n: Node, sticky: bool): seq<Op>
    requires WellFormed(n)
  {
    Prefix(sticky) + CodeR(e, Group(n), false, 0, 0) + [OMatch]
  }

  // The pattern and subject the results are about: all that come out of the parser.
  ghost predicate Supported(e: Env, n: Node) {
    EnvOk(e) && WellFormed(n) && RefsIn(n, 1 + Groups(n)) && (Open(n) || |e.input| <= INT32_MAX)
  }

  // The pattern that the machine matches: counted repetitions without a maximum have one of INT32_MAX.
  function Counting(e: Env, n: Node): (c: Node)
    requires WellFormed(n)
    ensures Groups(c) == Groups(n)
  {
    Cap(e, n, false, 1)
  }

  // The machine's final words stand for the captures of the specification.
  ghost predicate Shows(e: Env, words: seq<int>, y: MState) {
    && |words| >= 2 * |y.caps|
    && forall g :: 0 <= g < |y.caps| ==> Exact(e, y.caps[g], words[2 * g], words[2 * g + 1])
  }

  ghost predicate Agrees(e: Env, end: Config, spec: Option<MState>) {
    match spec
    case None => end == Failed
    case Some(y) => end.Matched? && Shows(e, end.caps, y)
  }

  // What the compiler accepts: 8-bit counts of captures and registers.
  predicate WithinLimits(e: Env, n: Node) {
    WellFormed(n) && 1 + Groups(n) <= CAPTURE_COUNT_MAX && Regs(e, n, false, 1) <= REGISTER_COUNT_MAX
  }

  function Nulls(n: Node): (w: seq<int>)
    ensures |w| == 2 * (1 + Groups(n))
  {
    seq(2 * (1 + Groups(n)), _ => NULL)
  }

  // The first way to match, for a pattern whose ways to match are related to the states in which the code comes out.
  lemma FirstWay(e: Env, n: Node, p: nat, outs: seq<VState>)
    requires p <= |e.input|
    requires RelAll(e, Sem(e, Group(n), false, 0, MState(p, NoCaptures(n))), outs, {}, {})
    ensures outs == [] <==> MatchAt(e, n, p).None?
    ensures outs != [] ==> Shows(e, outs[0].w, MatchAt(e, n, p).value)
    ensures outs != [] ==> |MatchAt(e, n, p).value.caps| == 1 + Groups(n)
  {
    var x := MState(p, NoCaptures(n));
    var ys := Sem(e, n, false, 1, x);
    MatchIsFirst(e, n, false, 1, x, Succeed());
    FirstSucceed(ys);
    SemFrame(e, n, false, 1, x);
    if outs != [] {
      var y := Sem(e, Group(n), false, 0, x)[0];
      assert Rel(e, y, outs[0], {}, {});
      assert ys[0] in ys && SameCaps(x, ys[0], Live(n, 1));
      forall g | 0 <= g < |y.caps|
        ensures Exact(e, y.caps[g], outs[0].w[2 * g], outs[0].w[2 * g + 1])
      {
        assert GroupRel(e, y, outs[0], {}, {}, g);
      }
    }
  }

  // What the machine comes to in an attempt at p.
  function Outs(e: Env, n: Node, p: nat): seq<VState>
    requires WellFormed(n)
  {
    Run(e, Group(n), false, 0, VState(p, Nulls(n)))
  }

  // The ways to match, seen from the machine: the first of them is the result of MatchAt.
  lemma AttemptSpec(e: Env, n: Node, p: nat)
    requires Supported(e, n) && p <= |e.input|
    ensures var outs, c := Outs(e, n, p), Counting(e, n);
      && (outs == [] <==> MatchAt(e, c, p).None?)
      && (outs != [] ==> Shows(e, outs[0].w, MatchAt(e, c, p).value) && |MatchAt(e, c, p).value.caps| == 1 + Groups(n))
  {
    var x, v := MState(p, NoCaptures(n)), VState(p, Nulls(n));
    assert Rel(e, x, v, {}, {});
    NothingLess(Live(Group(n), 0));
    SimCapped(e, Group(n), false, 0, x, v, {}, {});
    assert Cap(e, Group(n), false, 0) == Group(Counting(e, n));
    FirstWay(e, Counting(e, n), p, Outs(e, n, p));
  }

  // Where the counters fit, the same for the pattern itself.
  lemma AttemptFits(e: Env, n: Node, p: nat)
    requires Supported(e, n) && CountersFit(e, n, false, 1) && p <= |e.input|
    ensures MatchAt(e, n, p) == MatchAt(e, Counting(e, n), p)
  {
    var x, v := MState(p, NoCaptures(n)), VState(p, Nulls(n));
    assert Rel(e, x, v, {}, {});
    NothingLess(Live(Group(n), 0));
    SimNode(e, Group(n), false, 0, x, v, {}, {});
    FirstWay(e, n, p, Outs(e, n, p));
    AttemptSpec(e, n, p);
    if Outs(e, n, p) != [] {
      var y, z := MatchAt(e, n, p).value, MatchAt(e, Counting(e, n), p).value;
      ShowsOnce(e, Outs(e, n, p)[0].w, y, z);
      assert y.caps[0] == Some((p, y.pos)) && z.caps[0] == Some((p, z.pos));
    }
  }

  // Words show only one list of captures.
  lemma ShowsOnce(e: Env, words: seq<int>, y: MState, z: MState)
    requires Shows(e, words, y) && Shows(e, words, z) && |y.caps| == |z.caps|
    ensures y.caps == z.caps
  {
    forall g | 0 <= g < |y.caps|
      ensures y.caps[g] == z.caps[g]
    {
      assert Exact(e, y.caps[g], words[2 * g], words[2 * g + 1]) && Exact(e, z.caps[g], words[2 * g], words[2 * g + 1]);
    }
  }

  // The machine runs the program of n, and the body of the program starts at s.
  ghost predicate Loaded(m: Machine, n: Node, s: int, k: int, nr: nat) {
    && WellFormed(n)
    && m.nc == 1 + Groups(n) && Regs(m.e, n, false, 1) <= nr
    && HasCode(m, s, CodeR(m.e, Group(n), false, 0, 0))
    && k == s + |CodeR(m.e, Group(n), false, 0, 0)| && 0 <= k < |m.prog| && m.prog[k] == OMatch
  }

  // One attempt of the machine alone: it reaches the match instruction in the first state of Run, or
  // it falls back to the frames it started with.
  lemma MachineAttempt(m: Machine, n: Node, s: int, k: int, p: nat, regs: seq<int>,
                       fs: seq<Frame>) returns (end: Config)
    requires Loaded(m, n, s, k, |regs|) && p <= |m.e.input|
    ensures Reaches(m, Going(s, p, Nulls(n) + regs, fs), end)
    ensures var outs := Outs(m.e, n, p);
      if outs == [] then end == Backtrack(fs)
      else end.Matched? && |outs[0].w| == |Nulls(n)| <= |end.caps| && end.caps[..|Nulls(n)|] == outs[0].w
  {
    var x := VState(p, Nulls(n));
    var outs := Run(m.e, Group(n), false, 0, x);
    var c := Going(s, p, Nulls(n) + regs, fs);
    RunOnward(m.e, Group(n), false, 0, x);
    RunCorrect(m, Group(n), false, 0, 0, s, k, x, outs, [], |regs|);
    assert ContinuesFrom(m, s, x, outs, k, [], |regs|, fs, regs);
    if outs == [] {
      end := Backtrack(fs);
    } else {
      assert Onward(m.e, false, x, outs[0]);
      var gs, regs1 := YieldsFirst(m, c, outs, k, fs, [], |regs|);
      var d := Going(k, outs[0].pos, outs[0].w + regs1, fs + gs);
      end := Matched(outs[0].w + regs1);
      ReachesStep(m, d);
      ReachesTrans(m, c, d, end);
    }
  }

  // ... and compared with the specification.
  lemma Attempt(m: Machine, n: Node, s: int, k: int, p: nat, regs: seq<int>, fs: seq<Frame>) returns (end: Config)
    requires Supported(m.e, n) && Loaded(m, n, s, k, |regs|) && p <= |m.e.input|
    ensures Reaches(m, Going(s, p, Nulls(n) + regs, fs), end)
    ensures if MatchAt(m.e, Counting(m.e, n), p).None? then end == Backtrack(fs)
            else Agrees(m.e, end, MatchAt(m.e, Counting(m.e, n), p))
  {
    AttemptSpec(m.e, n, p);
    end := MachineAttempt(m, n, s, k, p, regs, fs);
    var outs := Outs(m.e, n, p);
    if outs != [] {
      forall i | 0 <= i < |outs[0].w|
        ensures end.caps[i] == outs[0].w[i]
      {
        assert end.caps[i] == end.caps[..|Nulls(n)|][i];
      }
    }
  }

  // The instructions of the search loop: try here, or skip one character and try again.
  lemma PrefixSteps(m: Machine, p: nat, w: seq<int>)
    requires HasCode(m, 0, Prefix(false)) && p <= |m.e.input|
    ensures Step(m, Going(0, p, w, [])) == Going(3, p, w, [Frame(KSplit, 1, p, w)])
    ensures Step(m, Going(1, p, w, [])) == if p < |m.e.input| then Going(2, p + 1, w, []) else Failed
    ensures Step(m, Going(2, p, w, [])) == Going(0, p, w, [])
  {
    var pre := Prefix(false);
    assert m.prog[0] == pre[0] && m.prog[1] == pre[1] && m.prog[2] == pre[2];
  }

  // One starting position: a match, or the jump to the next one.
  lemma SearchHere(m: Machine, n: Node, k: int, p: nat, regs: seq<int>) returns (end: Config)
    requires Supported(m.e, n) && Loaded(m, n, 3, k, |regs|) && p <= |m.e.input| && HasCode(m, 0, Prefix(false))
    ensures Reaches(m, Going(0, p, Nulls(n) + regs, []), end)
    ensures if MatchAt(m.e, Counting(m.e, n), p).None? then end == Going(1, p, Nulls(n) + regs, [])
            else Agrees(m.e, end, MatchAt(m.e, Counting(m.e, n), p))
  {
    var w := Nulls(n) + regs;
    var c, f := Going(0, p, w, []), Frame(KSplit, 1, p, w);
    PrefixSteps(m, p, w);
    ReachesStep(m, c);
    end := Attempt(m, n, 3, k, p, regs, [f]);
    ReachesTrans(m, c, Going(3, p, w, [f]), end);
    assert [f][..0] == [];
  }

  // Over a character that is skipped.
  lemma SearchNext(m: Machine, p: nat, w: seq<int>)
    requires p < |m.e.input| && HasCode(m, 0, Prefix(false))
    ensures Reaches(m, Going(1, p, w, []), Going(0, p + 1, w, []))
  {
    var d, g := Going(1, p, w, []), Going(2, p + 1, w, []);
    PrefixSteps(m, p, w);
    PrefixSteps(m, p + 1, w);
    ReachesStep(m, d);
    ReachesStep(m, g);
    ReachesTrans(m, d, g, Going(0, p + 1, w, []));
  }

  // The search over starting positions.
  lemma {:induction false} Search(m: Machine, n: Node, k: int, p: nat, regs: seq<int>) returns (end: Config)
    requires Supported(m.e, n) && Loaded(m, n, 3, k, |regs|) && p <= |m.e.input| && HasCode(m, 0, Prefix(false))
    ensures Reaches(m, Going(0, p, Nulls(n) + regs, []), end)
    ensures Agrees(m.e, end, ExecSpec(m.e, Counting(m.e, n), p, false))
    decreases |m.e.input| - p
  {
    var w := Nulls(n) + regs;
    var c, d := Going(0, p, w, []), Going(1, p, w, []);
    end := SearchHere(m, n, k, p, regs);
    if MatchAt(m.e, Counting(m.e, n), p).None? {
      if p < |m.e.input| {
        SearchNext(m, p, w);
        end := Search(m, n, k, p + 1, regs);
        ReachesTrans(m, d, Going(0, p + 1, w, []), end);
      } else {
        PrefixSteps(m, p, w);
        end := Failed;
        ReachesStep(m, d);
      }
      ReachesTrans(m, c, d, end);
    }
  }

  // The snapshot machine on the compiled program gives the result of the specification, for the pattern with counters.
  lemma SnapshotExec(m: Machine, n: Node, sticky: bool, p: nat, regs: seq<int>) returns (end: Config)
    requires Supported(m.e, n) && p <= |m.e.input|
    requires m.nc == 1 + Groups(n) && Regs(m.e, n, false, 1) <= |regs|
    requires m.prog == Program(m.e, n, sticky)
    ensures Reaches(m, Going(0, p, Nulls(n) + regs, []), end)
    ensures Agrees(m.e, end, ExecSpec(m.e, Counting(m.e, n), p, sticky))
  {
    var pre, code := Prefix(sticky), CodeR(m.e, Group(n), false, 0, 0);
    HasAll(m, pre, code);
    if sticky {
      end := Attempt(m, n, 0, |code|, p, regs, []);
    } else {
      end := Search(m, n, 3 + |code|, p, regs);
    }
  }

  lemma HasAll(m: Machine, pre: seq<Op>, code: seq<Op>)
    requires m.prog == pre + code + [OMatch]
    ensures HasCode(m, 0, pre) && HasCode(m, |pre|, code) && |m.prog| == |pre| + |code| + 1
    ensures m.prog[|pre| + |code|] == OMatch
  {
    assert HasCode(m, 0, pre + code + [OMatch]);
    HasSplit(m, 0, pre + code, [OMatch]);
    HasSplit(m, 0, pre, code);
  }

  // ---- Compiling and executing ----

  datatype Compiled = Compiled(prog: seq<Op>, captures: nat, registers: nat)

  // The program before registers are allocated.
  function Emitted(e: Env, n: Node, sticky: bool): seq<Op>
    requires WellFormed(n)
  {
    Prefix(sticky) + Code(e, Group(n), false, 0) + [OMatch]
  }

  lemma PrefixBalanced(sticky: bool)
    ensures Balanced(Prefix(sticky), 0, Prefix(sticky), 0)
  {
    if !sticky {
      var a, b, c := OSplit(false, 2), OChar(TAny), OGoto(-3);
      BalancedOp(b, 0);
      WrapBalanced(a, c, [b], 0, [b], 0);
      assert [a] + [b] + [c] == [a, b, c];
    }
  }

  lemma ProgramAllocated(e: Env, n: Node, sticky: bool)
    requires WellFormed(n)
    ensures Allocate(Emitted(e, n, sticky), 0) == Allocated(Program(e, n, sticky), 0, Regs(e, n, false, 1))
  {
    var pre, c, c' := Prefix(sticky), Code(e, Group(n), false, 0), CodeR(e, Group(n), false, 0, 0);
    PrefixBalanced(sticky);
    CodeBalanced(e, Group(n), false, 0, 0);
    BalancedOp(OMatch, 0);
    BalancedConcat(pre, c, 0, pre, c', 0, Regs(e, n, false, 1));
    BalancedConcat(pre + c, [OMatch], 0, pre + c', [OMatch], Regs(e, n, false, 1), 0);
  }

  // lre_compile: None stands for an error message.
  method Compile(e: Env, d: Disj, sticky: bool) returns (r: Option<Compiled>)
    requires Lexed(d)
    ensures var n := NodeOf(d);
      && (r.Some? <==> WithinLimits(e, n))
      && (r.Some? ==> r.value == Compiled(Program(e, n, sticky), 1 + Groups(n), Regs(e, n, false, 1)))
  {
    var s := new ParseState(e, [], 1);
    if !sticky {
      s.Emit(OSplit(false, 2));
      s.Emit(OChar(TAny));
      s.Emit(OGoto(-3));
    }
    ghost var pre := s.code;
    assert pre == Prefix(sticky);
    s.Emit(OSave(false, 0));
    var ok := s.EmitDisjunction(d, false);
    if !ok {
      return None;
    }
    ghost var n := NodeOf(d);
    s.EmitLast(OSave(true, 0), pre, OSave(false, 0), Code(e, n, false, 1));
    s.Emit(OMatch);
    assert s.code == Emitted(e, n, sticky);
    ProgramAllocated(e, n, sticky);
    var buf := new Op[|s.code|](i requires 0 <= i < |s.code| reads s => s.code[i]);
    assert buf[..] == s.code;
    var count := ComputeRegisterCount(buf);
    if count.None? {
      return None;
    }
    r := Some(Compiled(buf[..], s.captureCount, count.value));
  }

  // The captures that are returned, or that there is no match, as the specification says.
  ghost predicate Returns(e: Env, result: Option<seq<int>>, spec: Option<MState>) {
    (result.Some? <==> spec.Some?) && (result.Some? ==> Shows(e, result.value, spec.value))
  }

  // lre_exec: captures are cleared, registers hold anything, and the interpreter runs.
  method Execute(e: Env, c: Compiled, start: nat, capture: array<int>, ghost n: Node,
                 ghost sticky: bool) returns (matched: bool)
    requires Supported(e, n) && start <= |e.input|
    requires c == Compiled(Program(e, n, sticky), 1 + Groups(n), Regs(e, n, false, 1))
    requires capture.Length == 2 * c.captures + c.registers
    modifies capture
    ensures Returns(e, if matched then Some(capture[..]) else None, ExecSpec(e, Counting(e, n), start, sticky))
  {
    var i := 0;
    while i < 2 * c.captures
      invariant 0 <= i <= 2 * c.captures
      invariant forall j :: 0 <= j < i ==> capture[j] == NULL
    {
      capture[i] := NULL;
      i := i + 1;
    }
    var m := Machine(e, c.prog, c.captures);
    ghost var regs := capture[2 * c.captures..];
    assert capture[..] == Nulls(n) + regs;
    ghost var end := SnapshotExec(m, n, sticky, start, regs);
    ghost var steps: nat :| Steps(m, Going(0, start, Nulls(n) + regs, []), steps) == end;
    ProgramIsOk(e, n, sticky);
    var exec := new Exec(m, capture, start);
    var r := exec.Interpret(steps);
    matched := r == Success;
  }

  lemma ProgramIsOk(e: Env, n: Node, sticky: bool)
    requires WellFormed(n)
    ensures ProgOk(Program(e, n, sticky))
  {
    CodeOk(e, Group(n), false, 0, 0);
    assert ProgOk(Prefix(sticky));
    TestsConcat(Prefix(sticky), CodeR(e, Group(n), false, 0, 0));
    TestsConcat(Prefix(sticky) + CodeR(e, Group(n), false, 0, 0), [OMatch]);
  }

  // Only one result of the specification shows in captures of a length.
  lemma ReturnsOnce(e: Env, n: Node, n': Node, k: nat, sticky: bool, result: Option<seq<int>>)
    requires Groups(n) == Groups(n')
    requires Returns(e, result, ExecSpec(e, n, k, sticky)) && Returns(e, result, ExecSpec(e, n', k, sticky))
    ensures ExecSpec(e, n, k, sticky) == ExecSpec(e, n', k, sticky)
  {
    if result.Some? {
      var y, z := ExecSpec(e, n, k, sticky).value, ExecSpec(e, n', k, sticky).value;
      ExecSpecIs(e, n, k, sticky);
      ExecSpecIs(e, n', k, sticky);
      ShowsOnce(e, result.value, y, z);
    }
  }

  // Group 0 of a result is the whole match.
  lemma {:induction false} ExecSpecIs(e: Env, n: Node, k: nat, sticky: bool)
    ensures var r := ExecSpec(e, n, k, sticky);
      r.Some? ==> |r.value.caps| == 1 + Groups(n) && r.value.caps[0].Some? && r.value.caps[0].value.1 == r.value.pos
    decreases |e.input| - k
  {
    var r := MatchAt(e, n, k);
    if r.Some? {
      var x := MState(k, NoCaptures(n));
      var ys := Sem(e, n, false, 1, x);
      MatchIsFirst(e, n, false, 1, x, Succeed());
      FirstSucceed(ys);
      SemFrame(e, n, false, 1, x);
      assert ys[0] in ys && SameCaps(x, ys[0], Live(n, 1));
    } else if !sticky && k < |e.input| {
      ExecSpecIs(e, n, k + 1, sticky);
    }
  }

  lemma {:induction false} ExecFits(e: Env, n: Node, k: nat, sticky: bool)
    requires Supported(e, n) && CountersFit(e, n, false, 1) && k <= |e.input|
    ensures ExecSpec(e, n, k, sticky) == ExecSpec(e, Counting(e, n), k, sticky)
    decreases |e.input| - k
  {
    AttemptFits(e, n, k);
    if !sticky && k < |e.input| {
      ExecFits(e, n, k + 1, sticky);
    }
  }

  // One attempt, and the search, are the same for the pattern as for its tree.
  lemma MatchTreeIs(e: Env, d: Disj, k: nat)
    requires Lexed(d)
    ensures MatchAt(e, NodeOf(d), k) == MatchTree(e, d, k)
  {
    var none, id := seq(1 + Captures(d), _ => None), (y: MState) => Some(y);
    DisjGroups(d);
    assert NoCaptures(NodeOf(d)) == none;
    DisjIs(e, d, false, 1, MState(k, none), id);
    MatchSame(e, NodeOf(d), false, 1, MState(k, none), Succeed(), id);
    var r := MatchDisj(e, d, false, 1, MState(k, none), id);
    if r.Some? {
      assert MState(r.value.pos, r.value.caps) == r.value;
    }
  }

  lemma {:induction false} ExecTreeIs(e: Env, d: Disj, k: nat, sticky: bool)
    requires Lexed(d)
    ensures ExecSpec(e, NodeOf(d), k, sticky) == ExecTree(e, d, k, sticky)
    decreases |e.input| - k
  {
    MatchTreeIs(e, d, k);
    if !sticky && k < |e.input| {
      ExecTreeIs(e, d, k + 1, sticky);
    }
  }

  // What a caller sees: an error exactly when a limit is exceeded, and otherwise the result of ECMA-262 on the tree,
  // captures included, if counted repetitions did stop at INT32_MAX there. For the tree itself this is right just when
  // the two have the same result, as they do where the counters fit.
  method RegExpExec(e: Env, d: Disj, sticky: bool, start: nat) returns (compiled: bool, result: Option<seq<int>>)
    requires Lexed(d) && start <= |e.input| && EnvOk(e) && RefsIn(NodeOf(d), 1 + Captures(d))
    ensures var n := NodeOf(d);
      && (compiled <==> Accepted(d) && 1 + Captures(d) <= 255 && (WellFormed(n) ==> Regs(e, n, false, 1) <= 255))
      && (compiled ==>
            && WellFormed(n)
            && var spec, machine := ExecTree(e, d, start, sticky), ExecSpec(e, Counting(e, n), start, sticky);
               && Returns(e, result, machine)
               && (Returns(e, result, spec) <==> spec == machine)
               && (CountersFit(e, n, false, 1) ==> spec == machine))
  {
    TreeLimits(e, d);
    var c := Compile(e, d, sticky);
    if c.None? {
      return false, None;
    }
    ghost var n := NodeOf(d);
    TreeSupported(e, d);
    var capture := new int[2 * c.value.captures + c.value.registers];
    var matched := Execute(e, c.value, start, capture, n, sticky);
    compiled := true;
    result := if matched then Some(capture[..]) else None;
    ResultOf(e, d, start, sticky, result);
  }

  lemma TreeLimits(e: Env, d: Disj)
    requires Lexed(d)
    ensures var n := NodeOf(d);
      WithinLimits(e, n) <==> Accepted(d) && 1 + Captures(d) <= 255 && (WellFormed(n) ==> Regs(e, n, false, 1) <= 255)
  {
    DisjGroups(d);
    DisjAccepted(d);
  }

  lemma TreeSupported(e: Env, d: Disj)
    requires Lexed(d) && EnvOk(e) && RefsIn(NodeOf(d), 1 + Captures(d)) && WithinLimits(e, NodeOf(d))
    ensures Supported(e, NodeOf(d))
  {
    DisjGroups(d);
    DisjOpen(d);
  }

  lemma ResultOf(e: Env, d: Disj, start: nat, sticky: bool, result: Option<seq<int>>)
    requires Lexed(d) && Supported(e, NodeOf(d)) && start <= |e.input|
    requires Returns(e, result, ExecSpec(e, Counting(e, NodeOf(d)), start, sticky))
    ensures var spec, machine := ExecTree(e, d, start, sticky), ExecSpec(e, Counting(e, NodeOf(d)), start, sticky);
      && (Returns(e, result, spec) <==> spec == machine)
      && (CountersFit(e, NodeOf(d), false, 1) ==> spec == machine)
  {
    var n := NodeOf(d);
    ExecTreeIs(e, d, start, sticky);
    if Returns(e, result, ExecSpec(e, n, start, sticky)) {
      ReturnsOnce(e, n, Counting(e, n), start, sticky, result);
    }
    if CountersFit(e, n, false, 1) {
      ExecFits(e, n, start, sticky);
    }
  }

  // ---- Patterns of the parser ----

  lemma {:induction false} AtomOpen(a: Atom)
    ensures Open(NodeOfAtom(a))
    decreases a, 0
  {
    match a
    case AChar(_) =>
    case AAssert(_) =>
    case ABackRef(_, _) =>
    case ACapture(d) =>
      DisjOpen(d);
    case AParen(d) =>
      DisjOpen(d);
    case ALook(_, _, d) =>
      DisjOpen(d);
  }

  lemma {:induction false} TermsOpen(a: Alternative, k: nat)
    requires k <= |a.terms|
    ensures Open(NodeOfTerms(a, k))
    decreases a, k
  {
    if k > 0 {
      TermsOpen(a, k - 1);
      AtomOpen(a.terms[k - 1].atom);
    }
  }

  lemma {:induction false} AlternativesOpen(d: Disj, k: nat)
    requires k <= |d.rest|
    ensures Open(NodeOfAlternatives(d, k))
    decreases d, k
  {
    if k == 0 {
      TermsOpen(d.first, |d.first.terms|);
    } else {
      AlternativesOpen(d, k - 1);
      TermsOpen(d.rest[k - 1], |d.rest[k - 1].terms|);
    }
  }

  lemma {:induction false} DisjOpen(d: Disj)
    ensures Open(NodeOf(d))
    decreases d, |d.rest| + 1
  {
    AlternativesOpen(d, |d.rest|);
  }

  // ---- Where the counters of the machine show ----

  // The pattern (?:|a){min,} on a subject of a's only.
  function EmptyOrA(): Node {
    Alt(Empty, Char(Lit(97, false)))
  }

  function AtLeast(min: nat): Node {
    Quant(EmptyOrA(), min, None, true)
  }

  ghost predicate OnlyAs(e: Env) {
    forall i :: 0 <= i < |e.input| ==> e.input[i] == 97
  }

  lemma {:induction false} AllAsSpec(e: Env, min: nat, x: MState)
    requires OnlyAs(e) && x.pos <= |e.input|
    ensures var ys := Rep(e, EmptyOrA(), false, 1, min, None, true, x); ys != [] && ys[0].pos == |e.input|
    decreases min, |e.input| - x.pos
  {
    var b, p := EmptyOrA(), x.pos;
    var xr := MState(p, Forget(x.caps, 1, 1));
    var ys := OneOfA(e, xr);
    RepIs(e, b, false, 1, min, None, true, x);
    if min > 0 {
      AllAsSpec(e, min - 1, xr);
    } else {
      assert RepAll(e, b, false, 1, 0, None, true, p, ys) == RepAll(e, b, false, 1, 0, None, true, p, ys[1..]);
      if p < |e.input| {
        AllAsSpec(e, 0, MState(p + 1, xr.caps));
        assert ys[1..][0] == MState(p + 1, xr.caps);
      }
    }
  }

  // The empty match comes first, then the one of a character.
  lemma OneOfA(e: Env, x: MState) returns (ys: seq<MState>)
    requires OnlyAs(e) && x.pos <= |e.input|
    ensures ys == Sem(e, EmptyOrA(), false, 1, x)
    ensures ys == if x.pos < |e.input| then [x, MState(x.pos + 1, x.caps)] else [x]
  {
    ys := Sem(e, EmptyOrA(), false, 1, x);
    assert Sem(e, Empty, false, 1, x) == [x];
    assert Sem(e, Char(Lit(97, false)), false, 1, x) == if x.pos < |e.input| then [MState(x.pos + 1, x.caps)] else [];
  }

  function AtLeastLoop(e: Env): Loop {
    Loop(EmptyOrA(), false, 1, PlanOf(Code(e, EmptyOrA(), false, 1), 0, 1), true)
  }

  lemma {:induction false} AllAsMachine(e: Env, check: bool, count: nat, limit: nat, v: VState)
    requires OnlyAs(e) && v.pos <= |e.input| && count > 0 && (check || limit == 0)
    ensures var us := RunCounted(e, AtLeastLoop(e), check, count, limit, v);
      if count <= limit then
        (if v.pos == |e.input| then us == [] else us != [] && us[0].pos == Least(|e.input|, v.pos + count))
      else us != [] && us[0].pos == Least(|e.input|, v.pos + limit)
    decreases count
  {
    var q, p, left := AtLeastLoop(e), v.pos, count - 1;
    var us := Run(e, q.b, false, 1, v);
    var w := VState(p + 1, v.w);
    assert Run(e, Empty, false, 1, v) == [v];
    assert Run(e, Char(Lit(97, false)), false, 1, v) == if p < |e.input| then [w] else [];
    assert us == if p < |e.input| then [v, w] else [v];
    var head, tail := AfterOne(e, q, check, left, limit, p, v), RunCountedAll(e, q, check, left, limit, p, us[1..]);
    assert RunCounted(e, q, check, count, limit, v) == head + tail;
    if left > 0 {
      AllAsMachine(e, check, left, limit, v);
    }
    if p < |e.input| {
      var ws := [w];
      assert us[1..] == ws && ws[0] == w && ws[1..] == [];
      assert RunCountedAll(e, q, check, left, limit, p, ws[1..]) == [];
      assert RunCountedAll(e, q, check, left, limit, p, ws) == AfterOne(e, q, check, left, limit, p, ws[0]) + [];
      if left > 0 {
        AllAsMachine(e, check, left, limit, w);
      }
    } else {
      assert us[1..] == [] && tail == [];
    }
  }

  // With min mandatory iterations the machine's 31-bit counter leaves room for INT32_MAX - min more.
  // So on a's it finds the match of ECMA-262 if and only if min plus their number is at most INT32_MAX.
  lemma CounterLimit(m: Machine, min: nat, regs: seq<int>) returns (end: Config)
    requires OnlyAs(m.e) && 1 <= min <= INT32_MAX
    requires m.nc == 1 && Regs(m.e, AtLeast(min), false, 1) <= |regs|
    requires m.prog == Program(m.e, AtLeast(min), true)
    ensures Reaches(m, Going(0, 0, Nulls(AtLeast(min)) + regs, []), end)
    ensures end.Matched? && |end.caps| >= 2 && end.caps[1] == Least(|m.e.input|, 2147483647 - min)
    ensures MatchAt(m.e, AtLeast(min), 0).Some? && |MatchAt(m.e, AtLeast(min), 0).value.caps| == 1
    ensures MatchAt(m.e, AtLeast(min), 0).value.caps[0] == Some((0, |m.e.input|))
    ensures end.caps[1] == |m.e.input| <==> CountersFit(m.e, AtLeast(min), false, 1)
  {
    var n, e := AtLeast(min), m.e;
    HasAll(m, [], CodeR(e, Group(n), false, 0, 0));
    assert Prefix(true) + CodeR(e, Group(n), false, 0, 0) == CodeR(e, Group(n), false, 0, 0);
    end := MachineAttempt(m, n, 0, |CodeR(e, Group(n), false, 0, 0)|, 0, regs, []);
    LimitOfMachine(e, min);
    LimitOfSpec(e, min);
    assert end.caps[1] == end.caps[..|Nulls(n)|][1];
    assert CountersFit(e, Empty, false, 1) && CountersFit(e, Char(Lit(97, false)), false, 1);
    assert CountersFit(e, EmptyOrA(), false, 1) && MaxInt(n.max) == INT32_MAX && MayIdle(e, EmptyOrA(), false, 1);
  }

  lemma LimitOfSpec(e: Env, min: nat)
    requires OnlyAs(e) && 1 <= min <= INT32_MAX
    ensures var r := MatchAt(e, AtLeast(min), 0);
      r.Some? && |r.value.caps| == 1 && r.value.caps[0] == Some((0, |e.input|))
  {
    var n := AtLeast(min);
    var x := MState(0, NoCaptures(n));
    AllAsSpec(e, min, x);
    MatchIsFirst(e, n, false, 1, x, Succeed());
    FirstSucceed(Sem(e, n, false, 1, x));
    SemFrame(e, n, false, 1, x);
    assert Sem(e, n, false, 1, x)[0] in Sem(e, n, false, 1, x);
  }

  lemma LimitOfMachine(e: Env, min: nat)
    requires OnlyAs(e) && 1 <= min <= INT32_MAX
    ensures var us := Run(e, Group(AtLeast(min)), false, 0, VState(0, Nulls(AtLeast(min))));
      us != [] && |us[0].w| == 2 && us[0].w[1] == Least(|e.input|, INT32_MAX - min)
  {
    var n, v := AtLeast(min), OpenV(false, 0, VState(0, Nulls(AtLeast(min))));
    AltScan(Code(e, Empty, false, 1), Code(e, Char(Lit(97, false)), false, 1));
    assert AltCode([], Code(e, Char(Lit(97, false)), false, 1))[0] == OSplit(true, 1);
    AllAsMachine(e, min != INT32_MAX, INT32_MAX, INT32_MAX - min, v);
    assert Run(e, n, false, 1, v) == RunCounted(e, AtLeastLoop(e), min != INT32_MAX, INT32_MAX, INT32_MAX - min, v);
    RunFrame(e, n, false, 1, v);
    assert Run(e, n, false, 1, v)[0] in Run(e, n, false, 1, v);
  }
}
