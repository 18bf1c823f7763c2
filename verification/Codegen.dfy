// The code emitted for a pattern, as a function of the pattern. The emitter that builds this code
// by inserting, patching and rotating is proved against it in Emitter.dfy.
module Codegen {
  import opened RegexSyntax
  import opened Bytecode
  import opened CharRange

  // ---- Characters ----

  function RangesOf(pts: seq<nat>, wide: bool): (r: seq<(nat, nat)>)
    requires Sorted(pts) && |pts| % 2 == 0
    ensures |r| == |pts| / 2
  {
    seq(|pts| / 2, i requires 0 <= i < |pts| / 2 =>
      assert pts[2 * i] < pts[2 * i + 1];
      (pts[2 * i], if !wide && pts[2 * i + 1] == UINT32_MAX then 0xffff else pts[2 * i + 1] - 1))
  }

  // Highest finite boundary.
  function HighPoint(pts: seq<nat>): nat
    requires |pts| >= 2
  {
    if pts[|pts| - 1] == UINT32_MAX then pts[|pts| - 2] else pts[|pts| - 1]
  }

  function RangeTest(pts: seq<nat>, icase: bool): CharTest
    requires Sorted(pts) && |pts| % 2 == 0
  {
    if pts == [] then TChar(UINT32_MAX, false)
    else if HighPoint(pts) <= 0xffff then TRange(RangesOf(pts, false), icase)
    else TRange32(RangesOf(pts, true), icase)
  }

  function TestOf(e: Env, cls: CharClass): CharTest
    requires cls.Points? ==> Sorted(cls.points) && |cls.points| % 2 == 0
  {
    match cls
    case Lit(c, icase) => TChar(Fold(e, icase, c), icase)
    case Dot(all) => if all then TAny else TDot
    case Space(neg) => if neg then TNotSpace else TSpace
    case Points(pts, icase) => RangeTest(pts, icase)
  }

  // In a lookbehind a character test is bracketed by two moves to the previous character.
  function Stepwise(bw: bool, op: Op): seq<Op> {
    if bw then [OPrev, op, OPrev] else [op]
  }

  // ---- Quantifiers ----

  function MaxInt(max: Option<nat>): nat {
    if max.Some? then max.value else INT32_MAX
  }

  // Decisions taken for one quantifier: check = test for empty iterations, reset = clear the
  // captures in each iteration, pre = clear them once in front.
  datatype Plan = Plan(check: bool, reset: bool, pre: bool)

  function PlanOf(atom: seq<Op>, groups: nat, min: nat): Plan {
    var sc := Scan(atom);
    Plan(sc.needAdv, sc.needInit && groups > 0, !sc.needInit && groups > 0 && min == 0)
  }

  datatype Shape = Nothing | Star(once: bool) | Optional | Plus | Counted

  // Which of the five forms is emitted.
  function ShapeOf(min: nat, max: nat, check: bool): Shape {
    if min == 0 then
      if max == 0 then Nothing
      else if max == 1 || max == INT32_MAX then Star(max == 1)
      else Optional
    else if min == 1 && max == INT32_MAX && !check then Plus
    else Counted
  }

  function If(b: bool, op: Op): seq<Op> {
    if b then [op] else []
  }

  function B2I(b: bool): nat {
    if b then 1 else 0
  }

  // The atom with its reset, when one is needed in every iteration.
  function WithReset(p: Plan, atom: seq<Op>, lo: nat, groups: nat): seq<Op>
    requires groups == 0 ==> !p.reset
  {
    (if p.reset then [OSaveReset(lo, lo + groups - 1)] else []) + atom
  }

  // rc and rp are the registers of the counter and of the saved position.
  function QuantCode(p: Plan, atom: seq<Op>, lo: nat, groups: nat, min: nat, max: nat, greedy: bool,
                     rc: nat, rp: nat): seq<Op>
    requires (groups == 0 ==> !p.reset && !p.pre) && min <= max
  {
    (if p.pre then [OSaveReset(lo, lo + groups - 1)] else [])
    + LoopCode(WithReset(p, atom, lo, groups), p.check, min, max, greedy, rc, rp)
  }

  function LoopCode(a: seq<Op>, check: bool, min: nat, max: nat, greedy: bool, rc: nat, rp: nat): seq<Op>
    requires min <= max
  {
    match ShapeOf(min, max, check)
    case Nothing => []
    case Star(once) => StarCode(a, check, once, greedy, rp)
    case Optional => OptionalCode(greedy, CountedCode(a, check, greedy, max, max, rc, rp))
    case Plus => a + [OSplit(!greedy, -(|a| + 1))]
    case Counted => CountedCode(a, check && min != max, greedy, max, max - min, rc, rp)
  }

  function OptionalCode(greedy: bool, c: seq<Op>): seq<Op> {
    [OSplit(greedy, |c|)] + c
  }

  function StarCode(a: seq<Op>, check: bool, once: bool, greedy: bool, rp: nat): seq<Op> {
    [OSplit(greedy, |a| + B2I(!once) + 2 * B2I(check))]
    + If(check, OSetCharPos(rp)) + a + If(check, OCheckAdvance(rp))
    + If(!once, OGoto(-(|a| + 2 + 2 * B2I(check))))
  }

  // A counted loop; with a zero limit the loop instruction needs no split.
  function CountedCode(a: seq<Op>, check: bool, greedy: bool, count: nat, limit: nat, rc: nat, rp: nat): seq<Op> {
    [OSetI32(rc, count)] + If(check, OSetCharPos(rp)) + a
    + [if limit == 0 then OLoop(rc, -(|a| + 1)) else OLoopSplit(!greedy, check, rc, limit, -(|a| + 1 + B2I(check)))]
  }

  // ---- Whole patterns ----

  // As emitted: register operands are 0.
  function Code(e: Env, n: Node, bw: bool, lo: nat): seq<Op>
    requires WellFormed(n)
    decreases n, e
  {
    match n
    case Empty => []
    case Char(cls) => Stepwise(bw, OChar(TestOf(e, cls)))
    case Assert(a) => [OAssert(a)]
    case BackRef(groups, icase) => [OBackRef(bw, icase, groups)]
    case Seq(l, r) =>
      if bw then Code(e, r, bw, lo + Groups(l)) + Code(e, l, bw, lo)
      else Code(e, l, bw, lo) + Code(e, r, bw, lo + Groups(l))
    case Alt(l, r) => AltCode(Code(e, l, bw, lo), Code(e, r, bw, lo + Groups(l)))
    case Group(b) => GroupCode(bw, lo, Code(e, b, bw, lo + 1))
    case Look(behind, neg, b) => LookCode(neg, Code(e, b, behind, lo))
    case Quant(b, min, max, greedy) =>
      var c := Code(e, b, bw, lo);
      QuantCode(PlanOf(c, Groups(b), min), c, lo, Groups(b), min, MaxInt(max), greedy, 0, 0)
  }

  function AltCode(l: seq<Op>, r: seq<Op>): seq<Op> {
    [OSplit(true, |l| + 1)] + l + [OGoto(|r|)] + r
  }

  function GroupCode(bw: bool, g: nat, b: seq<Op>): seq<Op> {
    [OSave(bw, g)] + b + [OSave(!bw, g)]
  }

  function LookCode(neg: bool, b: seq<Op>): seq<Op> {
    [OLook(neg, |b| + 1)] + b + [OLookMatch(neg)]
  }

  // How many registers the quantifier itself keeps alive while its atom runs.
  function Held(p: Plan, min: nat, max: nat): nat {
    match ShapeOf(min, max, p.check)
    case Nothing => 0
    case Star(_) => B2I(p.check)
    case Optional => 1 + B2I(p.check)
    case Plus => 0
    case Counted => 1 + B2I(p.check && min != max)
  }

  // The register of the saved position: the first free one, unless that holds the counter.
  function PosReg(shape: Shape, d: nat): nat {
    if shape.Star? then d else d + 1
  }

  // After register allocation: d registers are in use around the fragment.
  function CodeR(e: Env, n: Node, bw: bool, lo: nat, d: nat): (c: seq<Op>)
    requires WellFormed(n)
    decreases n, e
  {
    match n
    case Empty => []
    case Char(cls) => Stepwise(bw, OChar(TestOf(e, cls)))
    case Assert(a) => [OAssert(a)]
    case BackRef(groups, icase) => [OBackRef(bw, icase, groups)]
    case Seq(l, r) =>
      if bw then CodeR(e, r, bw, lo + Groups(l), d) + CodeR(e, l, bw, lo, d)
      else CodeR(e, l, bw, lo, d) + CodeR(e, r, bw, lo + Groups(l), d)
    case Alt(l, r) => AltCode(CodeR(e, l, bw, lo, d), CodeR(e, r, bw, lo + Groups(l), d))
    case Group(b) => GroupCode(bw, lo, CodeR(e, b, bw, lo + 1, d))
    case Look(behind, neg, b) => LookCode(neg, CodeR(e, b, behind, lo, d))
    case Quant(b, min, max, greedy) =>
      var p := PlanOf(Code(e, b, bw, lo), Groups(b), min);
      var c := CodeR(e, b, bw, lo, d + Held(p, min, MaxInt(max)));
      QuantCode(p, c, lo, Groups(b), min, MaxInt(max), greedy,
                d, PosReg(ShapeOf(min, MaxInt(max), p.check), d))
  }

  lemma QuantCodeIs(e: Env, b: Node, min: nat, max: Option<nat>, greedy: bool, bw: bool, lo: nat, d: nat, p: Plan,
                    c: seq<Op>)
    requires WellFormed(Quant(b, min, max, greedy)) && p == PlanOf(Code(e, b, bw, lo), Groups(b), min)
    requires c == CodeR(e, b, bw, lo, d + Held(p, min, MaxInt(max)))
    ensures CodeR(e, Quant(b, min, max, greedy), bw, lo, d)
         == QuantCode(p, c, lo, Groups(b), min, MaxInt(max), greedy, d, PosReg(ShapeOf(min, MaxInt(max), p.check), d))
  {
    QuantCodeWhole(e, b, min, max, greedy, bw, lo, d, p, c);
  }

  // Wrapped in Some, so that the two sequences are compared as wholes and not element by element.
  lemma QuantCodeWhole(e: Env, b: Node, min: nat, max: Option<nat>, greedy: bool, bw: bool, lo: nat, d: nat, p: Plan,
                       c: seq<Op>)
    requires WellFormed(Quant(b, min, max, greedy)) && p == PlanOf(Code(e, b, bw, lo), Groups(b), min)
    requires c == CodeR(e, b, bw, lo, d + Held(p, min, MaxInt(max)))
    ensures Some(CodeR(e, Quant(b, min, max, greedy), bw, lo, d))
         == Some(QuantCode(p, c, lo, Groups(b), min, MaxInt(max), greedy, d,
                           PosReg(ShapeOf(min, MaxInt(max), p.check), d)))
  {
  }

  lemma QuantCodeSplits(p: Plan, c: seq<Op>, lo: nat, groups: nat, min: nat, max: nat, greedy: bool, rc: nat, rp: nat)
    requires (groups == 0 ==> !p.reset && !p.pre) && min <= max
    ensures QuantCode(p, c, lo, groups, min, max, greedy, rc, rp)
         == (if p.pre then [OSaveReset(lo, lo + groups - 1)] else [])
            + LoopCode(WithReset(p, c, lo, groups), p.check, min, max, greedy, rc, rp)
  {
  }

  // Highest number of registers in use at once.
  function Regs(e: Env, n: Node, bw: bool, lo: nat): nat
    requires WellFormed(n)
    decreases n, e
  {
    match n
    case Empty => 0
    case Char(_) => 0
    case Assert(_) => 0
    case BackRef(_, _) => 0
    case Seq(l, r) => Max(Regs(e, l, bw, lo), Regs(e, r, bw, lo + Groups(l)))
    case Alt(l, r) => Max(Regs(e, l, bw, lo), Regs(e, r, bw, lo + Groups(l)))
    case Group(b) => Regs(e, b, bw, lo + 1)
    case Look(behind, _, b) => Regs(e, b, behind, lo)
    case Quant(b, min, max, _) =>
      if MaxInt(max) == 0 then 0
      else Held(PlanOf(Code(e, b, bw, lo), Groups(b), min), min, MaxInt(max)) + Regs(e, b, bw, lo)
  }

  function Least(a: nat, b: nat): nat {
    if a <= b then a else b
  }

  function Max(a: nat, b: nat): nat {
    if a >= b then a else b
  }
}
