// Emitted code is closed: every jump lands inside the piece of code it belongs to or at its end, every
// register operand is one the piece has on top of the registers in use around it, and every save names
// a group of the piece.
module Closed {
  import opened RegexSyntax
  import opened Bytecode
  import opened Codegen

  // What a piece may touch: len instructions, registers [d, top), groups [lo, hi).
  datatype Bounds = Bounds(len: nat, d: nat, top: nat, lo: nat, hi: nat)

  // One instruction at position at of the piece.
  predicate OpIn(op: Op, at: nat, s: Bounds) {
    match op
    case OGoto(off) => 0 <= at + 1 + off <= s.len
    case OSplit(_, off) => 0 <= at + 1 + off <= s.len
    case OLook(_, off) => 0 <= at + 1 + off <= s.len
    case OLoop(reg, off) => 0 <= at + 1 + off <= s.len && s.d <= reg < s.top
    case OLoopSplit(_, check, reg, _, off) => 0 <= at + 1 + off <= s.len && s.d <= reg && reg + B2I(check) < s.top
    case OSetI32(reg, _) => s.d <= reg < s.top
    case OSetCharPos(reg) => s.d <= reg < s.top
    case OCheckAdvance(reg) => s.d <= reg < s.top
    case OSave(_, g) => s.lo <= g < s.hi
    case OSaveReset(first, last) => s.lo <= first <= last < s.hi
    case _ => true
  }

  // Code that stands at position at.
  predicate Inside(c: seq<Op>, at: nat, s: Bounds) {
    at + |c| <= s.len && forall i :: 0 <= i < |c| ==> OpIn(c[i], at + i, s)
  }

  predicate ClosedCode(c: seq<Op>, d: nat, top: nat, lo: nat, hi: nat) {
    Inside(c, 0, Bounds(|c|, d, top, lo, hi))
  }

  lemma InsideConcat(a: seq<Op>, b: seq<Op>, at: nat, s: Bounds)
    requires Inside(a, at, s) && Inside(b, at + |a|, s)
    ensures Inside(a + b, at, s)
  {
    forall i | 0 <= i < |a + b|
      ensures OpIn((a + b)[i], at + i, s)
    {
      if i >= |a| {
        assert (a + b)[i] == b[i - |a|];
        assert OpIn(b[i - |a|], at + |a| + (i - |a|), s);
      }
    }
  }

  lemma InsideOne(op: Op, at: nat, s: Bounds)
    requires at + 1 <= s.len && OpIn(op, at, s)
    ensures Inside([op], at, s)
  {
  }

  // A closed piece is at home anywhere in a larger one.
  lemma Embed(c: seq<Op>, d: nat, top: nat, lo: nat, hi: nat, at: nat, s: Bounds)
    requires ClosedCode(c, d, top, lo, hi) && at + |c| <= s.len
    requires s.d <= d && top <= s.top && s.lo <= lo && hi <= s.hi
    ensures Inside(c, at, s)
  {
    forall i | 0 <= i < |c|
      ensures OpIn(c[i], at + i, s)
    {
      assert OpIn(c[i], 0 + i, Bounds(|c|, d, top, lo, hi));
    }
  }

  // ---- Emitted code ----

  predicate NodeClosed(e: Env, n: Node, bw: bool, lo: nat, d: nat)
    requires WellFormed(n)
  {
    ClosedCode(CodeR(e, n, bw, lo, d), d, d + Regs(e, n, bw, lo), lo, lo + Groups(n))
  }

  lemma {:induction false} CodeClosed(e: Env, n: Node, bw: bool, lo: nat, d: nat)
    requires WellFormed(n)
    ensures NodeClosed(e, n, bw, lo, d)
    decreases n, 1
  {
    match n
    case Empty => PlainClosed(e, n, bw, lo, d);
    case Char(_) => CharClosed(e, n, bw, lo, d);
    case Assert(_) => PlainClosed(e, n, bw, lo, d);
    case BackRef(_, _) => PlainClosed(e, n, bw, lo, d);
    case Seq(l, r) => SeqClosed(e, l, r, bw, lo, d);
    case Alt(l, r) => AltClosed(e, l, r, bw, lo, d);
    case Group(b) => GroupClosed(e, b, bw, lo, d);
    case Look(behind, neg, b) => LookClosed(e, behind, neg, b, bw, lo, d);
    case Quant(b, min, max, greedy) => QuantClosed(e, b, min, max, greedy, bw, lo, d);
  }

  lemma PlainClosed(e: Env, n: Node, bw: bool, lo: nat, d: nat)
    requires WellFormed(n) && (n.Empty? || n.Assert? || n.BackRef?)
    ensures NodeClosed(e, n, bw, lo, d)
  {
  }

  lemma CharClosed(e: Env, n: Node, bw: bool, lo: nat, d: nat)
    requires WellFormed(n) && n.Char?
    ensures NodeClosed(e, n, bw, lo, d)
  {
    assert CodeR(e, n, bw, lo, d) == Stepwise(bw, OChar(TestOf(e, n.cls)));
  }

  lemma {:induction false} SeqClosed(e: Env, l: Node, r: Node, bw: bool, lo: nat, d: nat)
    requires WellFormed(Seq(l, r))
    ensures NodeClosed(e, Seq(l, r), bw, lo, d)
    decreases Seq(l, r), 0
  {
    CodeClosed(e, l, bw, lo, d);
    CodeClosed(e, r, bw, lo + Groups(l), d);
    SeqBoth(e, l, r, bw, lo, d, CodeR(e, l, bw, lo, d), CodeR(e, r, bw, lo + Groups(l), d),
            Regs(e, l, bw, lo), Regs(e, r, bw, lo + Groups(l)), lo + Groups(l), lo + Groups(l) + Groups(r));
  }

  lemma SeqBoth(e: Env, l: Node, r: Node, bw: bool, lo: nat, d: nat, cl: seq<Op>, cr: seq<Op>, nl: nat, nr: nat,
                mid: nat, hi: nat)
    requires WellFormed(Seq(l, r)) && cl == CodeR(e, l, bw, lo, d) && cr == CodeR(e, r, bw, lo + Groups(l), d)
    requires nl == Regs(e, l, bw, lo) && nr == Regs(e, r, bw, lo + Groups(l)) && mid == lo + Groups(l)
    requires hi == mid + Groups(r)
    requires ClosedCode(cl, d, d + nl, lo, mid) && ClosedCode(cr, d, d + nr, mid, hi)
    ensures NodeClosed(e, Seq(l, r), bw, lo, d)
  {
    SeqPieces(e, l, r, bw, lo, d, cl, cr);
    SeqJoin(cl, cr, bw, d, d + nl, d + nr, lo, mid, hi);
    assert ClosedCode(CodeR(e, Seq(l, r), bw, lo, d), d, d + Max(nl, nr), lo, hi);
  }

  // A sequence in the direction of matching, as a whole.
  function InOrder(bw: bool, cl: seq<Op>, cr: seq<Op>): seq<Op> {
    if bw then cr + cl else cl + cr
  }

  lemma SeqPieces(e: Env, l: Node, r: Node, bw: bool, lo: nat, d: nat, cl: seq<Op>, cr: seq<Op>)
    requires WellFormed(Seq(l, r)) && cl == CodeR(e, l, bw, lo, d) && cr == CodeR(e, r, bw, lo + Groups(l), d)
    ensures CodeR(e, Seq(l, r), bw, lo, d) == InOrder(bw, cl, cr)
    ensures Regs(e, Seq(l, r), bw, lo) == Max(Regs(e, l, bw, lo), Regs(e, r, bw, lo + Groups(l)))
    ensures Groups(Seq(l, r)) == Groups(l) + Groups(r)
  {
  }

  lemma SeqJoin(cl: seq<Op>, cr: seq<Op>, bw: bool, d: nat, tl: nat, tr: nat, lo: nat, mid: nat, hi: nat)
    requires ClosedCode(cl, d, tl, lo, mid) && ClosedCode(cr, d, tr, mid, hi) && lo <= mid <= hi
    ensures ClosedCode(InOrder(bw, cl, cr), d, Max(tl, tr), lo, hi)
  {
    if bw {
      JoinClosed(cr, cl, d, tr, tl, mid, hi, lo, mid);
    } else {
      JoinClosed(cl, cr, d, tl, tr, lo, mid, mid, hi);
    }
  }

  lemma JoinClosed(a: seq<Op>, b: seq<Op>, d: nat, ta: nat, tb: nat, la: nat, ha: nat, lb: nat, hb: nat)
    requires ClosedCode(a, d, ta, la, ha) && ClosedCode(b, d, tb, lb, hb)
    ensures ClosedCode(a + b, d, Max(ta, tb), Least(la, lb), Max(ha, hb))
  {
    var s := Bounds(|a| + |b|, d, Max(ta, tb), Least(la, lb), Max(ha, hb));
    Embed(a, d, ta, la, ha, 0, s);
    Embed(b, d, tb, lb, hb, |a|, s);
    InsideConcat(a, b, 0, s);
  }

  lemma {:induction false} AltClosed(e: Env, l: Node, r: Node, bw: bool, lo: nat, d: nat)
    requires WellFormed(Alt(l, r))
    ensures NodeClosed(e, Alt(l, r), bw, lo, d)
    decreases Alt(l, r), 0
  {
    CodeClosed(e, l, bw, lo, d);
    CodeClosed(e, r, bw, lo + Groups(l), d);
    AltBoth(e, l, r, bw, lo, d, CodeR(e, l, bw, lo, d), CodeR(e, r, bw, lo + Groups(l), d),
            Regs(e, l, bw, lo), Regs(e, r, bw, lo + Groups(l)), lo + Groups(l), lo + Groups(l) + Groups(r));
  }

  lemma AltBoth(e: Env, l: Node, r: Node, bw: bool, lo: nat, d: nat, cl: seq<Op>, cr: seq<Op>, nl: nat, nr: nat,
                mid: nat, hi: nat)
    requires WellFormed(Alt(l, r)) && cl == CodeR(e, l, bw, lo, d) && cr == CodeR(e, r, bw, lo + Groups(l), d)
    requires nl == Regs(e, l, bw, lo) && nr == Regs(e, r, bw, lo + Groups(l)) && mid == lo + Groups(l)
    requires hi == mid + Groups(r)
    requires ClosedCode(cl, d, d + nl, lo, mid) && ClosedCode(cr, d, d + nr, mid, hi)
    ensures NodeClosed(e, Alt(l, r), bw, lo, d)
  {
    AltPieces(e, l, r, bw, lo, d, cl, cr);
    AltJoin(cl, cr, d, d + nl, d + nr, lo, mid, hi);
    assert ClosedCode(CodeR(e, Alt(l, r), bw, lo, d), d, d + Max(nl, nr), lo, hi);
  }

  lemma AltPieces(e: Env, l: Node, r: Node, bw: bool, lo: nat, d: nat, cl: seq<Op>, cr: seq<Op>)
    requires WellFormed(Alt(l, r)) && cl == CodeR(e, l, bw, lo, d) && cr == CodeR(e, r, bw, lo + Groups(l), d)
    ensures CodeR(e, Alt(l, r), bw, lo, d) == AltCode(cl, cr)
    ensures Regs(e, Alt(l, r), bw, lo) == Max(Regs(e, l, bw, lo), Regs(e, r, bw, lo + Groups(l)))
    ensures Groups(Alt(l, r)) == Groups(l) + Groups(r)
  {
  }

  lemma AltJoin(cl: seq<Op>, cr: seq<Op>, d: nat, tl: nat, tr: nat, lo: nat, mid: nat, hi: nat)
    requires ClosedCode(cl, d, tl, lo, mid) && ClosedCode(cr, d, tr, mid, hi) && lo <= mid <= hi
    ensures ClosedCode(AltCode(cl, cr), d, Max(tl, tr), lo, hi)
  {
    var s := Bounds(|cl| + |cr| + 2, d, Max(tl, tr), lo, hi);
    Embed(cl, d, tl, lo, mid, 1, s);
    Embed(cr, d, tr, mid, hi, |cl| + 2, s);
    WrapInside(OSplit(true, |cl| + 1), cl, OGoto(|cr|), s);
    InsideConcat([OSplit(true, |cl| + 1)] + cl + [OGoto(|cr|)], cr, 0, s);
  }

  lemma WrapInside(first: Op, c: seq<Op>, last: Op, s: Bounds)
    requires 2 + |c| <= s.len && OpIn(first, 0, s) && Inside(c, 1, s) && OpIn(last, 1 + |c|, s)
    ensures Inside([first] + c + [last], 0, s)
  {
    InsideOne(first, 0, s);
    InsideOne(last, 1 + |c|, s);
    InsideConcat([first], c, 0, s);
    InsideConcat([first] + c, [last], 0, s);
  }

  lemma {:induction false} GroupClosed(e: Env, b: Node, bw: bool, lo: nat, d: nat)
    requires WellFormed(Group(b))
    ensures NodeClosed(e, Group(b), bw, lo, d)
    decreases Group(b), 0
  {
    CodeClosed(e, b, bw, lo + 1, d);
    GroupBody(e, b, bw, lo, d, CodeR(e, b, bw, lo + 1, d), Regs(e, b, bw, lo + 1), lo + 1 + Groups(b));
  }

  lemma GroupBody(e: Env, b: Node, bw: bool, lo: nat, d: nat, c: seq<Op>, n: nat, hi: nat)
    requires WellFormed(Group(b)) && c == CodeR(e, b, bw, lo + 1, d) && n == Regs(e, b, bw, lo + 1)
    requires hi == lo + 1 + Groups(b)
    requires ClosedCode(c, d, d + n, lo + 1, hi)
    ensures NodeClosed(e, Group(b), bw, lo, d)
  {
    GroupPieces(e, b, bw, lo, d, c);
    WrapClosed(c, d, d + n, lo + 1, hi, OSave(bw, lo), OSave(!bw, lo), lo);
  }

  lemma GroupPieces(e: Env, b: Node, bw: bool, lo: nat, d: nat, c: seq<Op>)
    requires WellFormed(Group(b)) && c == CodeR(e, b, bw, lo + 1, d)
    ensures CodeR(e, Group(b), bw, lo, d) == [OSave(bw, lo)] + c + [OSave(!bw, lo)]
    ensures Regs(e, Group(b), bw, lo) == Regs(e, b, bw, lo + 1) && Groups(Group(b)) == 1 + Groups(b)
  {
  }

  // Code between two instructions that do not jump out.
  lemma WrapClosed(c: seq<Op>, d: nat, top: nat, mid: nat, hi: nat, first: Op, last: Op, lo: nat)
    requires ClosedCode(c, d, top, mid, hi) && lo <= mid <= hi
    requires var s := Bounds(|c| + 2, d, top, lo, hi); OpIn(first, 0, s) && OpIn(last, 1 + |c|, s)
    ensures ClosedCode([first] + c + [last], d, top, lo, hi)
  {
    var s := Bounds(|c| + 2, d, top, lo, hi);
    Embed(c, d, top, mid, hi, 1, s);
    WrapInside(first, c, last, s);
  }

  lemma {:induction false} LookClosed(e: Env, behind: bool, neg: bool, b: Node, bw: bool, lo: nat, d: nat)
    requires WellFormed(Look(behind, neg, b))
    ensures NodeClosed(e, Look(behind, neg, b), bw, lo, d)
    decreases Look(behind, neg, b), 0
  {
    CodeClosed(e, b, behind, lo, d);
    LookBody(e, behind, neg, b, bw, lo, d, CodeR(e, b, behind, lo, d), Regs(e, b, behind, lo), lo + Groups(b));
  }

  lemma LookBody(e: Env, behind: bool, neg: bool, b: Node, bw: bool, lo: nat, d: nat, c: seq<Op>, n: nat, hi: nat)
    requires WellFormed(Look(behind, neg, b)) && c == CodeR(e, b, behind, lo, d) && n == Regs(e, b, behind, lo)
    requires hi == lo + Groups(b)
    requires ClosedCode(c, d, d + n, lo, hi)
    ensures NodeClosed(e, Look(behind, neg, b), bw, lo, d)
  {
    LookPieces(e, behind, neg, b, bw, lo, d, c);
    WrapClosed(c, d, d + n, lo, hi, OLook(neg, |c| + 1), OLookMatch(neg), lo);
  }

  lemma LookPieces(e: Env, behind: bool, neg: bool, b: Node, bw: bool, lo: nat, d: nat, c: seq<Op>)
    requires WellFormed(Look(behind, neg, b)) && c == CodeR(e, b, behind, lo, d)
    ensures CodeR(e, Look(behind, neg, b), bw, lo, d) == [OLook(neg, |c| + 1)] + c + [OLookMatch(neg)]
    ensures Regs(e, Look(behind, neg, b), bw, lo) == Regs(e, b, behind, lo) && Groups(Look(behind, neg, b)) == Groups(b)
  {
  }

  lemma {:induction false} QuantClosed(e: Env, b: Node, min: nat, max: Option<nat>, greedy: bool, bw: bool, lo: nat,
                                       d: nat)
    requires WellFormed(Quant(b, min, max, greedy))
    ensures NodeClosed(e, Quant(b, min, max, greedy), bw, lo, d)
    decreases Quant(b, min, max, greedy), 0
  {
    var p := PlanOf(Code(e, b, bw, lo), Groups(b), min);
    var h := Held(p, min, MaxInt(max));
    CodeClosed(e, b, bw, lo, d + h);
    QuantJoin(e, b, min, max, greedy, bw, lo, d, p, CodeR(e, b, bw, lo, d + h), Regs(e, b, bw, lo), Groups(b),
              MaxInt(max), h);
  }

  lemma QuantJoin(e: Env, b: Node, min: nat, max: Option<nat>, greedy: bool, bw: bool, lo: nat, d: nat, p: Plan,
                  c: seq<Op>, need: nat,
                  g: nat, m: nat, h: nat)
    requires WellFormed(Quant(b, min, max, greedy)) && g == Groups(b) && m == MaxInt(max)
    requires p == PlanOf(Code(e, b, bw, lo), g, min)
    requires h == Held(p, min, m) && c == CodeR(e, b, bw, lo, d + h) && need == Regs(e, b, bw, lo)
    requires ClosedCode(c, d + h, d + h + need, lo, lo + g)
    ensures NodeClosed(e, Quant(b, min, max, greedy), bw, lo, d)
  {
    RegsOfQuant(e, b, min, max, greedy, bw, lo, p);
    QuantCodeIs(e, b, min, max, greedy, bw, lo, d, p, c);
    QuantPiecesClosed(p, c, lo, g, min, m, greedy, d, need, h);
    assert ClosedCode(CodeR(e, Quant(b, min, max, greedy), bw, lo, d), d, d + (if m == 0 then 0 else h + need), lo,
                      lo + g);
  }

  lemma RegsOfQuant(e: Env, b: Node, min: nat, max: Option<nat>, greedy: bool, bw: bool, lo: nat, p: Plan)
    requires WellFormed(Quant(b, min, max, greedy)) && p == PlanOf(Code(e, b, bw, lo), Groups(b), min)
    ensures Regs(e, Quant(b, min, max, greedy), bw, lo)
         == if MaxInt(max) == 0 then 0 else Held(p, min, MaxInt(max)) + Regs(e, b, bw, lo)
    ensures Groups(Quant(b, min, max, greedy)) == Groups(b) && (Groups(b) == 0 ==> !p.reset && !p.pre)
    ensures min <= MaxInt(max)
  {
  }

  lemma QuantPiecesClosed(p: Plan, c: seq<Op>, lo: nat, groups: nat, min: nat, max: nat, greedy: bool, d: nat,
                          need: nat, h: nat)
    requires (groups == 0 ==> !p.reset && !p.pre) && min <= max && h == Held(p, min, max)
    requires ClosedCode(c, d + h, d + h + need, lo, lo + groups)
    ensures ClosedCode(QuantCode(p, c, lo, groups, min, max, greedy, d, PosReg(ShapeOf(min, max, p.check), d)),
                       d, d + (if max == 0 then 0 else h + need), lo, lo + groups)
  {
    var rp := PosReg(ShapeOf(min, max, p.check), d);
    var a := WithReset(p, c, lo, groups);
    var t := d + if max == 0 then 0 else h + need;
    ResetClosed(p.reset, c, d + h, d + h + need, lo, groups);
    var loop := LoopCode(a, p.check, min, max, greedy, d, rp);
    HeldByCheck(p, min, max);
    LoopClosed(a, p.check, min, max, greedy, d, need, lo, lo + groups, h, loop, t);
    ResetClosed(p.pre, loop, d, t, lo, groups);
    QuantCodeSplits(p, c, lo, groups, min, max, greedy, d, rp);
  }

  lemma HeldByCheck(p: Plan, min: nat, max: nat)
    requires min <= max
    ensures Held(p, min, max) == Held(Plan(p.check, false, false), min, max)
  {
  }

  lemma ResetClosed(on: bool, c: seq<Op>, d: nat, top: nat, lo: nat, groups: nat)
    requires (on ==> groups > 0) && ClosedCode(c, d, top, lo, lo + groups)
    ensures ClosedCode((if on then [OSaveReset(lo, lo + groups - 1)] else []) + c, d, top, lo, lo + groups)
  {
    if on {
      var s := Bounds(|c| + 1, d, top, lo, lo + groups);
      InsideOne(OSaveReset(lo, lo + groups - 1), 0, s);
      Embed(c, d, top, lo, lo + groups, 1, s);
      InsideConcat([OSaveReset(lo, lo + groups - 1)], c, 0, s);
    } else {
      assert [] + c == c;
    }
  }

  lemma LoopClosed(a: seq<Op>, check: bool, min: nat, max: nat, greedy: bool, d: nat, need: nat, lo: nat, hi: nat,
                   h: nat, loop: seq<Op>,
                   top: nat)
    requires min <= max && h == Held(Plan(check, false, false), min, max)
    requires loop == LoopCode(a, check, min, max, greedy, d, PosReg(ShapeOf(min, max, check), d))
    requires top == d + if max == 0 then 0 else h + need
    requires ClosedCode(a, d + h, d + h + need, lo, hi)
    ensures ClosedCode(loop, d, top, lo, hi)
  {
    LoopIs(a, check, min, max, greedy, d);
    match ShapeOf(min, max, check)
    case Nothing =>
    case Star(once) => StarClosed(a, check, once, greedy, d, need, lo, hi, loop);
    case Optional => OptionalClosed(a, check, greedy, max, d, need, lo, hi, loop);
    case Plus => PlusClosed(a, greedy, d, need, lo, hi, loop);
    case Counted => CountedClosed(a, check && min != max, greedy, max, max - min, d, need, lo, hi, loop);
  }

  // The five forms. They are wrapped in Some, so that sequences are compared as wholes and not element by element.
  lemma LoopIs(a: seq<Op>, check: bool, min: nat, max: nat, greedy: bool, d: nat)
    requires min <= max
    ensures Some(LoopCode(a, check, min, max, greedy, d, PosReg(ShapeOf(min, max, check), d)))
         == match ShapeOf(min, max, check)
            case Nothing => Some([])
            case Star(once) => Some(StarCode(a, check, once, greedy, d))
            case Optional => Some(OptionalCode(greedy, CountedCode(a, check, greedy, max, max, d, d + 1)))
            case Plus => Some(a + [OSplit(!greedy, -(|a| + 1))])
            case Counted => Some(CountedCode(a, check && min != max, greedy, max, max - min, d, d + 1))
  {
  }

  lemma OptionalClosed(a: seq<Op>, check: bool, greedy: bool, max: nat, d: nat, need: nat, lo: nat, hi: nat,
                       loop: seq<Op>)
    requires loop == OptionalCode(greedy, CountedCode(a, check, greedy, max, max, d, d + 1))
    requires ClosedCode(a, d + 1 + B2I(check), d + 1 + B2I(check) + need, lo, hi)
    ensures ClosedCode(loop, d, d + 1 + B2I(check) + need, lo, hi)
  {
    var c := CountedCode(a, check, greedy, max, max, d, d + 1);
    CountedClosed(a, check, greedy, max, max, d, need, lo, hi, c);
    var s := Bounds(|c| + 1, d, d + 1 + B2I(check) + need, lo, hi);
    InsideOne(OSplit(greedy, |c|), 0, s);
    Embed(c, d, s.top, lo, hi, 1, s);
    InsideConcat([OSplit(greedy, |c|)], c, 0, s);
  }

  lemma PlusClosed(a: seq<Op>, greedy: bool, d: nat, need: nat, lo: nat, hi: nat, loop: seq<Op>)
    requires loop == a + [OSplit(!greedy, -(|a| + 1))]
    requires ClosedCode(a, d, d + need, lo, hi)
    ensures ClosedCode(loop, d, d + need, lo, hi)
  {
    var s := Bounds(|a| + 1, d, d + need, lo, hi);
    Embed(a, d, d + need, lo, hi, 0, s);
    InsideOne(OSplit(!greedy, -(|a| + 1)), |a|, s);
    InsideConcat(a, [OSplit(!greedy, -(|a| + 1))], 0, s);
  }

  // An instruction that may be left out.
  lemma InsideIf(c: bool, op: Op, at: nat, s: Bounds)
    requires at + B2I(c) <= s.len && (c ==> OpIn(op, at, s))
    ensures Inside(If(c, op), at, s) && |If(c, op)| == B2I(c)
  {
  }

  lemma StarClosed(a: seq<Op>, check: bool, once: bool, greedy: bool, d: nat, need: nat, lo: nat, hi: nat,
                   loop: seq<Op>)
    requires loop == StarCode(a, check, once, greedy, d)
    requires ClosedCode(a, d + B2I(check), d + B2I(check) + need, lo, hi)
    ensures ClosedCode(loop, d, d + B2I(check) + need, lo, hi)
  {
    var k, n := B2I(check), |a|;
    var s := Bounds(1 + n + 2 * k + B2I(!once), d, d + k + need, lo, hi);
    var front := [OSplit(greedy, n + B2I(!once) + 2 * k)] + If(check, OSetCharPos(d));
    var jump := OGoto(-(n + 2 + 2 * k));
    InsideOne(OSplit(greedy, n + B2I(!once) + 2 * k), 0, s);
    InsideIf(check, OSetCharPos(d), 1, s);
    InsideConcat([OSplit(greedy, n + B2I(!once) + 2 * k)], If(check, OSetCharPos(d)), 0, s);
    Embed(a, d + k, d + k + need, lo, hi, 1 + k, s);
    InsideConcat(front, a, 0, s);
    StarEndInside(front + a, If(check, OCheckAdvance(d)), If(!once, jump), check, once, jump, d, s);
  }

  lemma StarEndInside(c: seq<Op>, post: seq<Op>, back: seq<Op>, check: bool, once: bool, jump: Op, d: nat, s: Bounds)
    requires Inside(c, 0, s) && s.len == |c| + B2I(check) + B2I(!once) && (check ==> s.d <= d < s.top)
    requires post == If(check, OCheckAdvance(d)) && back == If(!once, jump) && OpIn(jump, |c| + B2I(check), s)
    ensures Inside(c + post + back, 0, s)
  {
    InsideIf(check, OCheckAdvance(d), |c|, s);
    InsideIf(!once, jump, |c| + B2I(check), s);
    InsideConcat(c, post, 0, s);
    InsideConcat(c + post, back, 0, s);
  }

  lemma CountedClosed(a: seq<Op>, check: bool, greedy: bool, count: nat, limit: nat, d: nat, need: nat, lo: nat,
                      hi: nat, loop: seq<Op>)
    requires loop == CountedCode(a, check, greedy, count, limit, d, d + 1)
    requires ClosedCode(a, d + 1 + B2I(check), d + 1 + B2I(check) + need, lo, hi)
    ensures ClosedCode(loop, d, d + 1 + B2I(check) + need, lo, hi)
  {
    var k, n := B2I(check), |a|;
    var s := Bounds(2 + n + k, d, d + 1 + k + need, lo, hi);
    var init, pre := OSetI32(d, count), If(check, OSetCharPos(d + 1));
    var last := if limit == 0 then OLoop(d, -(n + 1)) else OLoopSplit(!greedy, check, d, limit, -(n + 1 + k));
    InsideOne(init, 0, s);
    InsideIf(check, OSetCharPos(d + 1), 1, s);
    Embed(a, d + 1 + k, d + 1 + k + need, lo, hi, 1 + k, s);
    InsideOne(last, 1 + k + n, s);
    InsideConcat([init], pre, 0, s);
    InsideConcat([init] + pre, a, 0, s);
    InsideConcat([init] + pre + a, [last], 0, s);
  }
}
