// Allocation of loop registers by one linear pass over the emitted code.
module Registers {
  import opened RegexSyntax
  import opened Bytecode
  import opened Codegen

  const REGISTER_COUNT_MAX: nat := 255

  // How an instruction moves the register stack: how many it needs, and by how much it changes it.
  function Need(op: Op): nat {
    match op
    case OCheckAdvance(_) => 1
    case OLoop(_, _) => 1
    case OLoopSplit(_, check, _, _, _) => if check then 2 else 1
    case _ => 0
  }

  function Push(op: Op): nat {
    if op.OSetI32? || op.OSetCharPos? then 1 else 0
  }

  function SetReg(op: Op, r: nat): Op {
    match op
    case OSetI32(_, val) => OSetI32(r, val)
    case OSetCharPos(_) => OSetCharPos(r)
    case OCheckAdvance(_) => OCheckAdvance(r)
    case OLoop(_, off) => OLoop(r, off)
    case OLoopSplit(nextFirst, check, _, limit, off) => OLoopSplit(nextFirst, check, r, limit, off)
    case _ => op
  }

  // The outcome of the pass: new code, final and highest size of the register stack. Underflow is
  // the failing assertion of the pass.
  datatype Allocated = Underflow | Allocated(code: seq<Op>, depth: nat, top: nat)

  function Allocate(code: seq<Op>, depth: nat): Allocated {
    if code == [] then Allocated([], depth, depth)
    else
      var op := code[0];
      if depth < Need(op) then Underflow
      else
        var rest := Allocate(code[1..], depth - Need(op) + Push(op));
        if rest.Underflow? then Underflow
        else Allocated([SetReg(op, depth - Need(op))] + rest.code, rest.depth, Max(depth, rest.top))
  }

  // A piece of code takes the register stack from d to d2, never above top, and becomes code'.
  ghost predicate Moves(code: seq<Op>, d: nat, code': seq<Op>, d2: nat, top: nat) {
    Allocate(code, d) == Allocated(code', d2, top)
  }

  lemma {:induction false} MovesConcat(a: seq<Op>, b: seq<Op>, d: nat, a': seq<Op>, d1: nat, ta: nat, b': seq<Op>,
                                       d2: nat, tb: nat)
    requires Moves(a, d, a', d1, ta) && Moves(b, d1, b', d2, tb)
    ensures Moves(a + b, d, a' + b', d2, Max(ta, tb))
    decreases |a|
  {
    if a == [] {
      assert a + b == b && a' + b' == b';
      TopAtLeast(b, d);
    } else {
      var d0 := d - Need(a[0]) + Push(a[0]);
      var rest := Allocate(a[1..], d0);
      assert (a + b)[1..] == a[1..] + b;
      MovesConcat(a[1..], b, d0, rest.code, d1, rest.top, b', d2, tb);
      assert [SetReg(a[0], d - Need(a[0]))] + (rest.code + b') == a' + b';
    }
  }

  // The pass over a whole runs through its parts.
  lemma {:induction false} MovesSplit(a: seq<Op>, b: seq<Op>, d: nat)
    requires Allocate(a + b, d).Allocated?
    ensures Allocate(a, d).Allocated? && Allocate(b, Allocate(a, d).depth).Allocated?
    decreases |a|
  {
    if a == [] {
      assert a + b == b;
    } else {
      assert (a + b)[1..] == a[1..] + b;
      MovesSplit(a[1..], b, d - Need(a[0]) + Push(a[0]));
    }
  }

  lemma {:induction false} TopAtLeast(code: seq<Op>, depth: nat)
    ensures var r := Allocate(code, depth); r.Allocated? ==> r.top >= depth && r.top >= r.depth
  {
    if code != [] && depth >= Need(code[0]) {
      TopAtLeast(code[1..], depth - Need(code[0]) + Push(code[0]));
    }
  }

  lemma {:induction false} AllocateLength(code: seq<Op>, depth: nat)
    ensures var r := Allocate(code, depth); r.Allocated? ==> |r.code| == |code|
  {
    if code != [] && depth >= Need(code[0]) {
      AllocateLength(code[1..], depth - Need(code[0]) + Push(code[0]));
    }
  }

  lemma MovesOp(op: Op, d: nat)
    requires d >= Need(op)
    ensures Moves([op], d, [SetReg(op, d - Need(op))], d - Need(op) + Push(op), Max(d, d - Need(op) + Push(op)))
  {
    assert [op][1..] == [];
    assert [SetReg(op, d - Need(op))] + [] == [SetReg(op, d - Need(op))];
  }

  // Code that gives back what it takes, and needs that many registers on top.
  ghost predicate Balanced(code: seq<Op>, d: nat, code': seq<Op>, need: nat) {
    Moves(code, d, code', d, d + need)
  }

  lemma BalancedConcat(a: seq<Op>, b: seq<Op>, d: nat, a': seq<Op>, b': seq<Op>, na: nat, nb: nat)
    requires Balanced(a, d, a', na) && Balanced(b, d, b', nb)
    ensures Balanced(a + b, d, a' + b', Max(na, nb))
  {
    MovesConcat(a, b, d, a', d, d + na, b', d, d + nb);
  }

  lemma BalancedOp(op: Op, d: nat)
    requires Need(op) == 0 && Push(op) == 0
    ensures Balanced([op], d, [op], 0)
  {
    MovesOp(op, d);
  }

  // A bracket: the first instruction pushes a register and the last one pops it again.
  lemma BracketBalanced(first: Op, last: Op, mid: seq<Op>, mid': seq<Op>, d: nat, need: nat)
    requires Push(first) == 1 && Need(first) == 0 && Push(last) == 0 && Need(last) == 1
    requires Balanced(mid, d + 1, mid', need)
    ensures Balanced([first] + mid + [last], d, [SetReg(first, d)] + mid' + [SetReg(last, d)], 1 + need)
  {
    MovesOp(first, d);
    MovesOp(last, d + 1);
    MovesConcat([first], mid, d, [SetReg(first, d)], d + 1, d + 1, mid', d + 1, d + 1 + need);
    MovesConcat([first] + mid, [last], d, [SetReg(first, d)] + mid', d + 1, d + 1 + need, [SetReg(last, d)], d, d + 1);
  }

  // Two pushed in front, both popped by the last.
  lemma DoubleBracketBalanced(f: Op, g: Op, last: Op, mid: seq<Op>, mid': seq<Op>, d: nat, need: nat)
    requires Push(f) == 1 && Need(f) == 0 && Push(g) == 1 && Need(g) == 0 && Push(last) == 0 && Need(last) == 2
    requires Balanced(mid, d + 2, mid', need)
    ensures Balanced([f] + [g] + mid + [last], d, [SetReg(f, d)] + [SetReg(g, d + 1)] + mid' + [SetReg(last, d)],
                     2 + need)
  {
    MovesOp(f, d);
    MovesOp(g, d + 1);
    MovesOp(last, d + 2);
    var f', g' := [SetReg(f, d)], [SetReg(g, d + 1)];
    MovesConcat([f], [g], d, f', d + 1, d + 1, g', d + 2, d + 2);
    MovesConcat([f] + [g], mid, d, f' + g', d + 2, d + 2, mid', d + 2, d + 2 + need);
    MovesConcat([f] + [g] + mid, [last], d, f' + g' + mid', d + 2, d + 2 + need, [SetReg(last, d)], d, d + 2);
  }

  lemma WrapBalanced(first: Op, last: Op, c: seq<Op>, d: nat, c': seq<Op>, need: nat)
    requires Need(first) == 0 && Push(first) == 0 && Need(last) == 0 && Push(last) == 0
    requires Balanced(c, d, c', need)
    ensures Balanced([first] + c + [last], d, [first] + c' + [last], need)
  {
    BalancedOp(first, d);
    BalancedOp(last, d);
    BalancedConcat([first], c, d, [first], c', 0, need);
    BalancedConcat([first] + c, [last], d, [first] + c', [last], need, 0);
  }

  // ---- Emitted code ----

  // The pass never underflows on emitted code, leaves the stack as it found it, and gives every loop
  // registers that no enclosing loop uses.
  lemma {:induction false} CodeBalanced(e: Env, n: Node, bw: bool, lo: nat, d: nat)
    requires WellFormed(n)
    ensures Balanced(Code(e, n, bw, lo), d, CodeR(e, n, bw, lo, d), Regs(e, n, bw, lo))
    decreases n, 1
  {
    match n
    case Empty =>
    case Char(cls) =>
      StepwiseBalanced(bw, OChar(TestOf(e, cls)), d);
    case Assert(a) =>
      BalancedOp(OAssert(a), d);
    case BackRef(groups, icase) =>
      BalancedOp(OBackRef(bw, icase, groups), d);
    case Seq(l, r) =>
      SeqBalanced(e, l, r, bw, lo, d, Code(e, n, bw, lo), CodeR(e, n, bw, lo, d), Regs(e, n, bw, lo));
    case Alt(l, r) =>
      AltNodeBalanced(e, l, r, bw, lo, d, Code(e, n, bw, lo), CodeR(e, n, bw, lo, d), Regs(e, n, bw, lo));
    case Group(b) =>
      CodeBalanced(e, b, bw, lo + 1, d);
      WrapBalanced(OSave(bw, lo), OSave(!bw, lo), Code(e, b, bw, lo + 1), d, CodeR(e, b, bw, lo + 1, d),
                   Regs(e, b, bw, lo + 1));
    case Look(behind, neg, b) =>
      CodeBalanced(e, b, behind, lo, d);
      LookBalanced(neg, Code(e, b, behind, lo), d, CodeR(e, b, behind, lo, d), Regs(e, b, behind, lo));
    case Quant(_, _, _, _) =>
      QuantNodeBalanced(e, n, bw, lo, d, Code(e, n, bw, lo), CodeR(e, n, bw, lo, d), Regs(e, n, bw, lo));
  }

  lemma {:induction false} SeqBalanced(e: Env, l: Node, r: Node, bw: bool, lo: nat, d: nat, c: seq<Op>, c': seq<Op>,
                                       need: nat)
    requires WellFormed(Seq(l, r))
    requires c == Code(e, Seq(l, r), bw, lo) && c' == CodeR(e, Seq(l, r), bw, lo, d)
    requires need == Regs(e, Seq(l, r), bw, lo)
    ensures Balanced(c, d, c', need)
    decreases Seq(l, r), 0
  {
    var lr := lo + Groups(l);
    CodeBalanced(e, l, bw, lo, d);
    CodeBalanced(e, r, bw, lr, d);
    var (cl, cr) := (Code(e, l, bw, lo), Code(e, r, bw, lr));
    var (dl, dr) := (CodeR(e, l, bw, lo, d), CodeR(e, r, bw, lr, d));
    var (nl, nr) := (Regs(e, l, bw, lo), Regs(e, r, bw, lr));
    JoinBalanced(bw, cl, cr, d, dl, dr, nl, nr, c, c', need);
  }

  lemma JoinBalanced(bw: bool, a: seq<Op>, b: seq<Op>, d: nat, a': seq<Op>, b': seq<Op>, na: nat, nb: nat, c: seq<Op>,
                     c': seq<Op>, need: nat)
    requires Balanced(a, d, a', na) && Balanced(b, d, b', nb)
    requires c == (if bw then b + a else a + b) && c' == (if bw then b' + a' else a' + b') && need == Max(na, nb)
    ensures Balanced(c, d, c', need)
  {
    BalancedConcat(a, b, d, a', b', na, nb);
    BalancedConcat(b, a, d, b', a', nb, na);
  }

  lemma {:induction false} AltNodeBalanced(e: Env, l: Node, r: Node, bw: bool, lo: nat, d: nat, c: seq<Op>,
                                           c': seq<Op>, need: nat)
    requires WellFormed(Alt(l, r))
    requires c == Code(e, Alt(l, r), bw, lo) && c' == CodeR(e, Alt(l, r), bw, lo, d)
    requires need == Regs(e, Alt(l, r), bw, lo)
    ensures Balanced(c, d, c', need)
    decreases Alt(l, r), 0
  {
    var lr := lo + Groups(l);
    CodeBalanced(e, l, bw, lo, d);
    CodeBalanced(e, r, bw, lr, d);
    AltBalanced(Code(e, l, bw, lo), Code(e, r, bw, lr), d, CodeR(e, l, bw, lo, d), CodeR(e, r, bw, lr, d),
                Regs(e, l, bw, lo), Regs(e, r, bw, lr));
  }

  lemma {:induction false} QuantNodeBalanced(e: Env, n: Node, bw: bool, lo: nat, d: nat, c: seq<Op>, c': seq<Op>,
                                             need: nat)
    requires n.Quant? && WellFormed(n)
    requires c == Code(e, n, bw, lo) && c' == CodeR(e, n, bw, lo, d) && need == Regs(e, n, bw, lo)
    ensures Balanced(c, d, c', need)
    decreases n, 0
  {
    var Quant(b, min, max, greedy) := n;
    var p := PlanOf(Code(e, b, bw, lo), Groups(b), min);
    var d1 := d + Held(p, min, MaxInt(max));
    CodeBalanced(e, b, bw, lo, d1);
    QuantBalanced(p, Code(e, b, bw, lo), lo, Groups(b), min, MaxInt(max), greedy, d, CodeR(e, b, bw, lo, d1),
                  Regs(e, b, bw, lo));
  }

  lemma StepwiseBalanced(bw: bool, op: Op, d: nat)
    requires Need(op) == 0 && Push(op) == 0
    ensures Balanced(Stepwise(bw, op), d, Stepwise(bw, op), 0)
  {
    BalancedOp(op, d);
    if bw {
      WrapBalanced(OPrev, OPrev, [op], d, [op], 0);
      assert [OPrev] + [op] + [OPrev] == [OPrev, op, OPrev];
    }
  }

  lemma LookBalanced(neg: bool, c: seq<Op>, d: nat, c': seq<Op>, need: nat)
    requires Balanced(c, d, c', need)
    ensures Balanced(LookCode(neg, c), d, LookCode(neg, c'), need)
  {
    AllocateLength(c, d);
    WrapBalanced(OLook(neg, |c| + 1), OLookMatch(neg), c, d, c', need);
  }

  lemma AltBalanced(cl: seq<Op>, cr: seq<Op>, d: nat, dl: seq<Op>, dr: seq<Op>, nl: nat, nr: nat)
    requires Balanced(cl, d, dl, nl) && Balanced(cr, d, dr, nr)
    ensures Balanced(AltCode(cl, cr), d, AltCode(dl, dr), Max(nl, nr))
  {
    AllocateLength(cl, d);
    AllocateLength(cr, d);
    WrapBalanced(OSplit(true, |cl| + 1), OGoto(|cr|), cl, d, dl, nl);
    BalancedConcat([OSplit(true, |cl| + 1)] + cl + [OGoto(|cr|)], cr, d, [OSplit(true, |cl| + 1)] + dl + [OGoto(|cr|)],
                   dr, nl, nr);
  }

  // An instruction in front that may be left out.
  lemma FrontBalanced(c: bool, op: Op, a: seq<Op>, a': seq<Op>, d: nat, need: nat)
    requires c ==> Need(op) == 0 && Push(op) == 0
    requires Balanced(a, d, a', need)
    ensures Balanced(If(c, op) + a, d, If(c, op) + a', need)
  {
    if c {
      BalancedOp(op, d);
      BalancedConcat([op], a, d, [op], a', 0, need);
    } else {
      assert [] + a == a && [] + a' == a';
    }
  }

  lemma QuantBalanced(p: Plan, c: seq<Op>, lo: nat, groups: nat, min: nat, max: nat, greedy: bool, d: nat, c': seq<Op>,
                      need: nat)
    requires (groups == 0 ==> !p.reset && !p.pre) && min <= max
    requires Balanced(c, d + Held(p, min, max), c', need)
    ensures Balanced(QuantCode(p, c, lo, groups, min, max, greedy, 0, 0), d,
                     QuantCode(p, c', lo, groups, min, max, greedy, d, PosReg(ShapeOf(min, max, p.check), d)),
                     if max == 0 then 0 else Held(p, min, max) + need)
  {
    var op := if groups == 0 then OPrev else OSaveReset(lo, lo + groups - 1);
    var rp := PosReg(ShapeOf(min, max, p.check), d);
    var a, a' := WithReset(p, c, lo, groups), WithReset(p, c', lo, groups);
    FrontBalanced(p.reset, op, c, c', d + Held(p, min, max), need);
    assert a == If(p.reset, op) + c && a' == If(p.reset, op) + c';
    LoopBalanced(p, a, a', min, max, greedy, d, need);
    FrontBalanced(p.pre, op, LoopCode(a, p.check, min, max, greedy, 0, 0),
                  LoopCode(a', p.check, min, max, greedy, d, rp), d,
                  if max == 0 then 0 else Held(p, min, max) + need);
  }

  lemma LoopBalanced(p: Plan, a: seq<Op>, a': seq<Op>, min: nat, max: nat, greedy: bool, d: nat, need: nat)
    requires min <= max
    requires Balanced(a, d + Held(p, min, max), a', need)
    ensures Balanced(LoopCode(a, p.check, min, max, greedy, 0, 0), d,
                     LoopCode(a', p.check, min, max, greedy, d, PosReg(ShapeOf(min, max, p.check), d)),
                     if max == 0 then 0 else Held(p, min, max) + need)
  {
    AllocateLength(a, d + Held(p, min, max));
    match ShapeOf(min, max, p.check)
    case Nothing =>
    case Star(once) =>
      StarBalanced(a, a', p.check, once, greedy, d, need);
    case Optional =>
      OptionalBalanced(a, a', p.check, greedy, max, d, need);
    case Plus =>
      PlusBalanced(a, a', greedy, d, need);
    case Counted =>
      CountedBalanced(a, a', p.check && min != max, greedy, max, max - min, d, need);
  }

  lemma StarBalanced(a: seq<Op>, a': seq<Op>, check: bool, once: bool, greedy: bool, d: nat, need: nat)
    requires Balanced(a, d + B2I(check), a', need) && |a'| == |a|
    ensures Balanced(StarCode(a, check, once, greedy, 0), d, StarCode(a', check, once, greedy, d), B2I(check) + need)
  {
    var sp, go := OSplit(greedy, |a| + B2I(!once) + 2 * B2I(check)), OGoto(-(|a| + 2 + 2 * B2I(check)));
    var mid := If(check, OSetCharPos(0)) + a + If(check, OCheckAdvance(0));
    var mid' := If(check, OSetCharPos(d)) + a' + If(check, OCheckAdvance(d));
    MidBalanced(a, a', check, d, need);
    Regroup(sp, If(check, OSetCharPos(0)), a, If(check, OCheckAdvance(0)), If(!once, go));
    Regroup(sp, If(check, OSetCharPos(d)), a', If(check, OCheckAdvance(d)), If(!once, go));
    TailBalanced(sp, go, once, mid, mid', d, B2I(check) + need);
  }

  lemma MidBalanced(a: seq<Op>, a': seq<Op>, check: bool, d: nat, need: nat)
    requires Balanced(a, d + B2I(check), a', need)
    ensures Balanced(If(check, OSetCharPos(0)) + a + If(check, OCheckAdvance(0)), d,
                     If(check, OSetCharPos(d)) + a' + If(check, OCheckAdvance(d)), B2I(check) + need)
  {
    if check {
      BracketBalanced(OSetCharPos(0), OCheckAdvance(0), a, a', d, need);
    } else {
      assert [] + a + [] == a && [] + a' + [] == a';
    }
  }

  lemma TailBalanced(sp: Op, go: Op, once: bool, mid: seq<Op>, mid': seq<Op>, d: nat, n: nat)
    requires Need(sp) == 0 && Push(sp) == 0 && Need(go) == 0 && Push(go) == 0
    requires Balanced(mid, d, mid', n)
    ensures Balanced([sp] + mid + If(!once, go), d, [sp] + mid' + If(!once, go), n)
  {
    if once {
      BalancedOp(sp, d);
      BalancedConcat([sp], mid, d, [sp], mid', 0, n);
      assert [sp] + mid + [] == [sp] + mid && [sp] + mid' + [] == [sp] + mid';
    } else {
      WrapBalanced(sp, go, mid, d, mid', n);
    }
  }

  lemma Regroup<T>(a: T, b: seq<T>, c: seq<T>, x: seq<T>, y: seq<T>)
    ensures [a] + b + c + x + y == [a] + (b + c + x) + y
  {
  }

  lemma PlusBalanced(a: seq<Op>, a': seq<Op>, greedy: bool, d: nat, need: nat)
    requires Balanced(a, d, a', need) && |a'| == |a|
    ensures Balanced(a + [OSplit(!greedy, -(|a| + 1))], d, a' + [OSplit(!greedy, -(|a'| + 1))], need)
  {
    var op := OSplit(!greedy, -(|a| + 1));
    BalancedOp(op, d);
    BalancedConcat(a, [op], d, a', [op], need, 0);
  }

  lemma OptionalBalanced(a: seq<Op>, a': seq<Op>, check: bool, greedy: bool, max: nat, d: nat, need: nat)
    requires Balanced(a, d + 1 + B2I(check), a', need) && |a'| == |a| && max > 0
    ensures Balanced(OptionalCode(greedy, CountedCode(a, check, greedy, max, max, 0, 0)), d,
                     OptionalCode(greedy, CountedCode(a', check, greedy, max, max, d, d + 1)), 1 + B2I(check) + need)
  {
    var c, c' := CountedCode(a, check, greedy, max, max, 0, 0), CountedCode(a', check, greedy, max, max, d, d + 1);
    CountedBalanced(a, a', check, greedy, max, max, d, need);
    AllocateLength(c, d);
    BalancedOp(OSplit(greedy, |c|), d);
    BalancedConcat([OSplit(greedy, |c|)], c, d, [OSplit(greedy, |c|)], c', 0, 1 + B2I(check) + need);
  }

  lemma CountedBalanced(a: seq<Op>, a': seq<Op>, check: bool, greedy: bool, count: nat, limit: nat, d: nat, need: nat)
    requires Balanced(a, d + 1 + B2I(check), a', need) && |a'| == |a|
    requires limit == 0 ==> !check
    ensures Balanced(CountedCode(a, check, greedy, count, limit, 0, 0), d,
                     CountedCode(a', check, greedy, count, limit, d, d + 1), 1 + B2I(check) + need)
  {
    var si := OSetI32(0, count);
    var last := if limit == 0 then OLoop(0, -(|a| + 1))
                else OLoopSplit(!greedy, check, 0, limit, -(|a| + 1 + B2I(check)));
    if check {
      DoubleBracketBalanced(si, OSetCharPos(0), last, a, a', d, need);
    } else {
      BracketBalanced(si, last, a, a', d, need);
      assert [si] + [] == [si] && [SetReg(si, d)] + [] == [SetReg(si, d)];
    }
  }

  // ---- The pass ----

  // Rewrite the register operand of one instruction; the new size of the stack.
  method AssignRegister(op: Op, stackSize: nat) returns (op': Op, size: nat)
    requires stackSize >= Need(op)
    ensures op' == SetReg(op, stackSize - Need(op)) && size == stackSize - Need(op) + Push(op)
  {
    match op
    case OSetI32(_, val) =>
      op', size := OSetI32(stackSize, val), stackSize + 1;
    case OSetCharPos(_) =>
      op', size := OSetCharPos(stackSize), stackSize + 1;
    case OCheckAdvance(_) =>
      assert stackSize > 0;
      op', size := OCheckAdvance(stackSize - 1), stackSize - 1;
    case OLoop(_, off) =>
      assert stackSize > 0;
      op', size := OLoop(stackSize - 1, off), stackSize - 1;
    case OLoopSplit(nextFirst, check, _, limit, off) =>
      assert check ==> stackSize >= 2;
      size := stackSize - (if check then 2 else 1);
      op' := OLoopSplit(nextFirst, check, size, limit, off);
    case _ =>
      op', size := op, stackSize;
  }

  // The pass over the code in place. Its assertions hold, and it fails exactly when more than 255
  // registers would be in use at once.
  method ComputeRegisterCount(code: array<Op>) returns (count: Option<nat>)
    requires Allocate(code[..], 0).Allocated?
    modifies code
    ensures var r := Allocate(old(code[..]), 0);
      if r.top <= REGISTER_COUNT_MAX then code[..] == r.code && count == Some(r.top) else count == None
  {
    var stackSize: nat, stackSizeMax: nat, pos := 0, 0, 0;
    ghost var before := code[..];
    while pos < code.Length
      invariant 0 <= pos <= code.Length
      invariant stackSizeMax <= REGISTER_COUNT_MAX
      invariant code[pos..] == before[pos..]
      invariant Moves(before[..pos], 0, code[..pos], stackSize, stackSizeMax)
    {
      ghost var done, done' := before[..pos], code[..pos];
      var op := code[pos];
      assert op == before[pos..][0];
      NextStep(before, pos, done', stackSize, stackSizeMax);
      var op', size := AssignRegister(op, stackSize);
      code[pos] := op';
      stackSize := size;
      assert code[..pos + 1] == done' + [op'];
      if stackSize > stackSizeMax {
        if stackSize > REGISTER_COUNT_MAX {
          return None;
        }
        stackSizeMax := stackSize;
      }
      pos := pos + 1;
      assert code[pos..] == before[pos..];
    }
    assert before[..pos] == before && code[..pos] == code[..];
    return Some(stackSizeMax);
  }

  // One more instruction of the pass.
  lemma NextStep(before: seq<Op>, pos: nat, done': seq<Op>, size: nat, top: nat)
    requires pos < |before| && Allocate(before, 0).Allocated?
    requires Moves(before[..pos], 0, done', size, top)
    ensures var op := before[pos];
      && size >= Need(op)
      && Moves(before[..pos + 1], 0, done' + [SetReg(op, size - Need(op))], size - Need(op) + Push(op),
               Max(top, size - Need(op) + Push(op)))
      && Allocate(before, 0).top >= size - Need(op) + Push(op)
  {
    var op, done, rest := before[pos], before[..pos], before[pos + 1..];
    assert before == done + ([op] + rest) && before == before[..pos + 1] + rest;
    MovesSplit(done, [op] + rest, 0);
    assert ([op] + rest)[0] == op;
    MovesOp(op, size);
    MovesConcat(done, [op], 0, done', size, top, [SetReg(op, size - Need(op))], size - Need(op) + Push(op),
                Max(size, size - Need(op) + Push(op)));
    assert before[..pos + 1] == done + [op];
    TopAtLeast(done, 0);
    MovesSplit(before[..pos + 1], rest, 0);
    var r1 := Allocate(before[..pos + 1], 0);
    var r2 := Allocate(rest, r1.depth);
    MovesConcat(before[..pos + 1], rest, 0, r1.code, r1.depth, r1.top, r2.code, r2.depth, r2.top);
  }
}
