// The pattern that the machine really matches: a counted repetition without a maximum has one of INT32_MAX, because the
// machine counts down from there. For this pattern all counters fit, so what is shown in Simulation holds for every
// pattern of the parser and every subject.
module Capped {
  import opened RegexSyntax
  import opened Bytecode
  import opened Codegen
  import opened Closed
  import opened EcmaSemantics
  import opened StructuredRun
  import opened Frames
  import opened Simulation

  function CapMax(counted: bool, max: Option<nat>): (r: Option<nat>)
    ensures MaxInt(r) == MaxInt(max) && (counted ==> r.Some?)
  {
    if counted then Some(MaxInt(max)) else max
  }

  function Cap(e: Env, n: Node, bw: bool, lo: nat): (c: Node)
    requires WellFormed(n)
    ensures WellFormed(c) && Groups(c) == Groups(n)
    decreases n, e
  {
    match n
    case Empty => n
    case Char(_) => n
    case Assert(_) => n
    case BackRef(_, _) => n
    case Seq(l, r) => Seq(Cap(e, l, bw, lo), Cap(e, r, bw, lo + Groups(l)))
    case Alt(l, r) => Alt(Cap(e, l, bw, lo), Cap(e, r, bw, lo + Groups(l)))
    case Group(b) => Group(Cap(e, b, bw, lo + 1))
    case Look(behind, neg, b) => Look(behind, neg, Cap(e, b, behind, lo))
    case Quant(b, min, max, greedy) =>
      Quant(Cap(e, b, bw, lo), min, CapMax(IsCounted(e, b, bw, lo, min, max), max), greedy)
  }

  // In patterns of the parser a maximum of INT32_MAX has become none.
  predicate Open(n: Node) {
    match n
    case Empty => true
    case Char(_) => true
    case Assert(_) => true
    case BackRef(_, _) => true
    case Seq(l, r) => Open(l) && Open(r)
    case Alt(l, r) => Open(l) && Open(r)
    case Group(b) => Open(b)
    case Look(_, _, b) => Open(b)
    case Quant(b, _, max, _) => Open(b) && max != Some(INT32_MAX)
  }

  // ---- The code is the same ----

  // As in Codegen.QuantCodeWhole, sequences are wrapped in Some where they are compared as wholes.

  lemma SeqCaps(e: Env, l: Node, r: Node, bw: bool, lo: nat, l': Node, r': Node)
    requires WellFormed(Seq(l, r)) && l' == Cap(e, l, bw, lo) && r' == Cap(e, r, bw, lo + Groups(l))
    ensures Cap(e, Seq(l, r), bw, lo) == Seq(l', r')
  {
  }

  lemma AltCaps(e: Env, l: Node, r: Node, bw: bool, lo: nat, l': Node, r': Node)
    requires WellFormed(Alt(l, r)) && l' == Cap(e, l, bw, lo) && r' == Cap(e, r, bw, lo + Groups(l))
    ensures Cap(e, Alt(l, r), bw, lo) == Alt(l', r')
  {
  }

  // The verifier does not always replace a sum in an argument by an equal one.
  lemma Shifted(e: Env, n: Node, n': Node, bw: bool, lo: nat, lo': nat, c: seq<Op>)
    requires WellFormed(n) && WellFormed(n') && lo == lo' && c == Code(e, n, bw, lo)
    requires Some(Code(e, n', bw, lo)) == Some(Code(e, n, bw, lo))
    ensures c == Code(e, n', bw, lo')
  {
  }

  lemma SeqParts(e: Env, l: Node, r: Node, bw: bool, lo: nat, cl: seq<Op>, cr: seq<Op>)
    requires WellFormed(Seq(l, r)) && cl == Code(e, l, bw, lo) && cr == Code(e, r, bw, lo + Groups(l))
    ensures Code(e, Seq(l, r), bw, lo) == InOrder(bw, cl, cr)
  {
  }

  lemma SeqSame(e: Env, l: Node, l': Node, r: Node, r': Node, bw: bool, lo: nat, cl: seq<Op>, cr: seq<Op>)
    requires WellFormed(Seq(l, r)) && WellFormed(Seq(l', r'))
    requires cl == Code(e, l, bw, lo) == Code(e, l', bw, lo)
    requires cr == Code(e, r, bw, lo + Groups(l)) == Code(e, r', bw, lo + Groups(l'))
    ensures Some(Code(e, Seq(l, r), bw, lo)) == Some(Code(e, Seq(l', r'), bw, lo))
  {
    SeqParts(e, l, r, bw, lo, cl, cr);
    SeqParts(e, l', r', bw, lo, cl, cr);
  }

  lemma AltParts(e: Env, l: Node, r: Node, bw: bool, lo: nat, cl: seq<Op>, cr: seq<Op>)
    requires WellFormed(Alt(l, r)) && cl == Code(e, l, bw, lo) && cr == Code(e, r, bw, lo + Groups(l))
    ensures Code(e, Alt(l, r), bw, lo) == AltCode(cl, cr)
  {
  }

  lemma AltSame(e: Env, l: Node, l': Node, r: Node, r': Node, bw: bool, lo: nat, cl: seq<Op>, cr: seq<Op>)
    requires WellFormed(Alt(l, r)) && WellFormed(Alt(l', r'))
    requires cl == Code(e, l, bw, lo) == Code(e, l', bw, lo)
    requires cr == Code(e, r, bw, lo + Groups(l)) == Code(e, r', bw, lo + Groups(l'))
    ensures Some(Code(e, Alt(l, r), bw, lo)) == Some(Code(e, Alt(l', r'), bw, lo))
  {
    AltParts(e, l, r, bw, lo, cl, cr);
    AltParts(e, l', r', bw, lo, cl, cr);
  }

  lemma GroupParts(e: Env, b: Node, bw: bool, lo: nat, c: seq<Op>)
    requires WellFormed(b) && c == Code(e, b, bw, lo + 1)
    ensures Code(e, Group(b), bw, lo) == GroupCode(bw, lo, c)
  {
  }

  lemma GroupSame(e: Env, b: Node, b': Node, bw: bool, lo: nat, c: seq<Op>)
    requires WellFormed(b) && WellFormed(b') && c == Code(e, b, bw, lo + 1) == Code(e, b', bw, lo + 1)
    ensures Some(Code(e, Group(b), bw, lo)) == Some(Code(e, Group(b'), bw, lo))
  {
    GroupParts(e, b, bw, lo, c);
    GroupParts(e, b', bw, lo, c);
  }

  lemma LookParts(e: Env, behind: bool, neg: bool, b: Node, bw: bool, lo: nat, c: seq<Op>)
    requires WellFormed(b) && c == Code(e, b, behind, lo)
    ensures Code(e, Look(behind, neg, b), bw, lo) == LookCode(neg, c)
  {
  }

  lemma LookSame(e: Env, behind: bool, neg: bool, b: Node, b': Node, bw: bool, lo: nat, c: seq<Op>)
    requires WellFormed(b) && WellFormed(b') && c == Code(e, b, behind, lo) == Code(e, b', behind, lo)
    ensures Some(Code(e, Look(behind, neg, b), bw, lo)) == Some(Code(e, Look(behind, neg, b'), bw, lo))
  {
    LookParts(e, behind, neg, b, bw, lo, c);
    LookParts(e, behind, neg, b', bw, lo, c);
  }

  lemma QuantParts(e: Env, b: Node, min: nat, max: Option<nat>, greedy: bool, bw: bool, lo: nat, c: seq<Op>, g: nat,
                   m: nat)
    requires WellFormed(Quant(b, min, max, greedy)) && c == Code(e, b, bw, lo) && g == Groups(b) && m == MaxInt(max)
    ensures Some(Code(e, Quant(b, min, max, greedy), bw, lo))
         == Some(QuantCode(PlanOf(c, g, min), c, lo, g, min, m, greedy, 0, 0))
  {
  }

  lemma QuantSame(e: Env, b: Node, b': Node, min: nat, max: Option<nat>, max': Option<nat>, greedy: bool, bw: bool,
                  lo: nat, c: seq<Op>, g: nat, m: nat)
    requires WellFormed(Quant(b, min, max, greedy)) && WellFormed(Quant(b', min, max', greedy))
    requires c == Code(e, b, bw, lo) == Code(e, b', bw, lo) && g == Groups(b) == Groups(b')
    requires m == MaxInt(max) == MaxInt(max')
    ensures Some(Code(e, Quant(b, min, max, greedy), bw, lo)) == Some(Code(e, Quant(b', min, max', greedy), bw, lo))
  {
    QuantParts(e, b, min, max, greedy, bw, lo, c, g, m);
    QuantParts(e, b', min, max', greedy, bw, lo, c, g, m);
  }

  lemma {:induction false} CapCode(e: Env, n: Node, bw: bool, lo: nat)
    requires WellFormed(n)
    ensures Some(Code(e, Cap(e, n, bw, lo), bw, lo)) == Some(Code(e, n, bw, lo))
    decreases n, 1
  {
    match n
    case Empty =>
    case Char(_) =>
    case Assert(_) =>
    case BackRef(_, _) =>
    case Seq(l, r) => CapCodeSeq(e, l, r, bw, lo);
    case Alt(l, r) => CapCodeAlt(e, l, r, bw, lo);
    case Group(b) => CapCodeGroup(e, b, bw, lo);
    case Look(behind, neg, b) => CapCodeLook(e, behind, neg, b, bw, lo);
    case Quant(b, min, max, greedy) => CapCodeQuant(e, b, min, max, greedy, bw, lo);
  }

  lemma {:induction false} CapCodeSeq(e: Env, l: Node, r: Node, bw: bool, lo: nat)
    requires WellFormed(Seq(l, r))
    ensures Some(Code(e, Cap(e, Seq(l, r), bw, lo), bw, lo)) == Some(Code(e, Seq(l, r), bw, lo))
    decreases Seq(l, r), 0
  {
    var l', r' := Cap(e, l, bw, lo), Cap(e, r, bw, lo + Groups(l));
    var cl, cr := Code(e, l, bw, lo), Code(e, r, bw, lo + Groups(l));
    CapCode(e, l, bw, lo);
    assert Some(cl) == Some(Code(e, l', bw, lo));
    CapCode(e, r, bw, lo + Groups(l));
    Shifted(e, r, r', bw, lo + Groups(l), lo + Groups(l'), cr);
    CapSeqBy(e, l, r, bw, lo, l', r', cl, cr);
  }

  lemma CapSeqBy(e: Env, l: Node, r: Node, bw: bool, lo: nat, l': Node, r': Node, cl: seq<Op>, cr: seq<Op>)
    requires WellFormed(Seq(l, r)) && l' == Cap(e, l, bw, lo) && r' == Cap(e, r, bw, lo + Groups(l))
    requires cl == Code(e, l, bw, lo) == Code(e, l', bw, lo)
    requires cr == Code(e, r, bw, lo + Groups(l)) && cr == Code(e, r', bw, lo + Groups(l'))
    ensures Some(Code(e, Cap(e, Seq(l, r), bw, lo), bw, lo)) == Some(Code(e, Seq(l, r), bw, lo))
  {
    SeqCaps(e, l, r, bw, lo, l', r');
    SeqSame(e, l, l', r, r', bw, lo, cl, cr);
  }

  lemma {:induction false} CapCodeAlt(e: Env, l: Node, r: Node, bw: bool, lo: nat)
    requires WellFormed(Alt(l, r))
    ensures Some(Code(e, Cap(e, Alt(l, r), bw, lo), bw, lo)) == Some(Code(e, Alt(l, r), bw, lo))
    decreases Alt(l, r), 0
  {
    var l', r' := Cap(e, l, bw, lo), Cap(e, r, bw, lo + Groups(l));
    var cl, cr := Code(e, l, bw, lo), Code(e, r, bw, lo + Groups(l));
    CapCode(e, l, bw, lo);
    assert Some(cl) == Some(Code(e, l', bw, lo));
    CapCode(e, r, bw, lo + Groups(l));
    Shifted(e, r, r', bw, lo + Groups(l), lo + Groups(l'), cr);
    CapAltBy(e, l, r, bw, lo, l', r', cl, cr);
  }

  lemma CapAltBy(e: Env, l: Node, r: Node, bw: bool, lo: nat, l': Node, r': Node, cl: seq<Op>, cr: seq<Op>)
    requires WellFormed(Alt(l, r)) && l' == Cap(e, l, bw, lo) && r' == Cap(e, r, bw, lo + Groups(l))
    requires cl == Code(e, l, bw, lo) == Code(e, l', bw, lo)
    requires cr == Code(e, r, bw, lo + Groups(l)) && cr == Code(e, r', bw, lo + Groups(l'))
    ensures Some(Code(e, Cap(e, Alt(l, r), bw, lo), bw, lo)) == Some(Code(e, Alt(l, r), bw, lo))
  {
    AltCaps(e, l, r, bw, lo, l', r');
    AltSame(e, l, l', r, r', bw, lo, cl, cr);
  }

  lemma {:induction false} CapCodeGroup(e: Env, b: Node, bw: bool, lo: nat)
    requires WellFormed(b)
    ensures Some(Code(e, Cap(e, Group(b), bw, lo), bw, lo)) == Some(Code(e, Group(b), bw, lo))
    decreases Group(b), 0
  {
    CapCode(e, b, bw, lo + 1);
    GroupSame(e, b, Cap(e, b, bw, lo + 1), bw, lo, Code(e, b, bw, lo + 1));
  }

  lemma {:induction false} CapCodeLook(e: Env, behind: bool, neg: bool, b: Node, bw: bool, lo: nat)
    requires WellFormed(b)
    ensures Some(Code(e, Cap(e, Look(behind, neg, b), bw, lo), bw, lo)) == Some(Code(e, Look(behind, neg, b), bw, lo))
    decreases Look(behind, neg, b), 0
  {
    CapCode(e, b, behind, lo);
    LookSame(e, behind, neg, b, Cap(e, b, behind, lo), bw, lo, Code(e, b, behind, lo));
  }

  lemma {:induction false} CapCodeQuant(e: Env, b: Node, min: nat, max: Option<nat>, greedy: bool, bw: bool, lo: nat)
    requires WellFormed(Quant(b, min, max, greedy))
    ensures Some(Code(e, Cap(e, Quant(b, min, max, greedy), bw, lo), bw, lo))
         == Some(Code(e, Quant(b, min, max, greedy), bw, lo))
    decreases Quant(b, min, max, greedy), 0
  {
    CapCode(e, b, bw, lo);
    QuantSame(e, b, Cap(e, b, bw, lo), min, max, CapMax(IsCounted(e, b, bw, lo, min, max), max), greedy, bw, lo,
              Code(e, b, bw, lo), Groups(b), MaxInt(max));
  }

  lemma {:induction false} CapRefs(e: Env, n: Node, bw: bool, lo: nat, nc: nat)
    requires WellFormed(n)
    ensures RefsIn(Cap(e, n, bw, lo), nc) == RefsIn(n, nc)
    decreases n, 1
  {
    match n
    case Empty =>
    case Char(_) =>
    case Assert(_) =>
    case BackRef(_, _) =>
    case Seq(l, r) => CapRefsSeq(e, l, r, bw, lo, nc);
    case Alt(l, r) => CapRefsAlt(e, l, r, bw, lo, nc);
    case Group(b) => CapRefs(e, b, bw, lo + 1, nc);
    case Look(behind, _, b) => CapRefs(e, b, behind, lo, nc);
    case Quant(b, _, _, _) => CapRefs(e, b, bw, lo, nc);
  }

  lemma {:induction false} CapRefsSeq(e: Env, l: Node, r: Node, bw: bool, lo: nat, nc: nat)
    requires WellFormed(Seq(l, r))
    ensures RefsIn(Cap(e, Seq(l, r), bw, lo), nc) == RefsIn(Seq(l, r), nc)
    decreases Seq(l, r), 0
  {
    CapRefs(e, l, bw, lo, nc);
    CapRefs(e, r, bw, lo + Groups(l), nc);
    SeqCaps(e, l, r, bw, lo, Cap(e, l, bw, lo), Cap(e, r, bw, lo + Groups(l)));
  }

  lemma {:induction false} CapRefsAlt(e: Env, l: Node, r: Node, bw: bool, lo: nat, nc: nat)
    requires WellFormed(Alt(l, r))
    ensures RefsIn(Cap(e, Alt(l, r), bw, lo), nc) == RefsIn(Alt(l, r), nc)
    decreases Alt(l, r), 0
  {
    CapRefs(e, l, bw, lo, nc);
    CapRefs(e, r, bw, lo + Groups(l), nc);
    AltCaps(e, l, r, bw, lo, Cap(e, l, bw, lo), Cap(e, r, bw, lo + Groups(l)));
  }

  lemma {:induction false} CapFits(e: Env, n: Node, bw: bool, lo: nat)
    requires WellFormed(n) && (Open(n) || |e.input| <= INT32_MAX)
    ensures CountersFit(e, Cap(e, n, bw, lo), bw, lo)
    decreases n, 1
  {
    match n
    case Empty =>
    case Char(_) =>
    case Assert(_) =>
    case BackRef(_, _) =>
    case Seq(l, r) => CapFitsSeq(e, l, r, bw, lo);
    case Alt(l, r) => CapFitsAlt(e, l, r, bw, lo);
    case Group(b) => CapFits(e, b, bw, lo + 1);
    case Look(behind, _, b) => CapFits(e, b, behind, lo);
    case Quant(b, min, max, greedy) => CapFitsQuant(e, b, min, max, greedy, bw, lo);
  }

  lemma {:induction false} CapFitsSeq(e: Env, l: Node, r: Node, bw: bool, lo: nat)
    requires WellFormed(Seq(l, r)) && (Open(Seq(l, r)) || |e.input| <= INT32_MAX)
    ensures CountersFit(e, Cap(e, Seq(l, r), bw, lo), bw, lo)
    decreases Seq(l, r), 0
  {
    CapFits(e, l, bw, lo);
    CapFits(e, r, bw, lo + Groups(l));
    SeqCaps(e, l, r, bw, lo, Cap(e, l, bw, lo), Cap(e, r, bw, lo + Groups(l)));
    SeqFits(e, Cap(e, l, bw, lo), Cap(e, r, bw, lo + Groups(l)), bw, lo, lo + Groups(l));
  }

  lemma SeqFits(e: Env, l: Node, r: Node, bw: bool, lo: nat, mid: nat)
    requires CountersFit(e, l, bw, lo) && CountersFit(e, r, bw, mid) && mid == lo + Groups(l)
    ensures CountersFit(e, Seq(l, r), bw, lo)
  {
  }

  lemma {:induction false} CapFitsAlt(e: Env, l: Node, r: Node, bw: bool, lo: nat)
    requires WellFormed(Alt(l, r)) && (Open(Alt(l, r)) || |e.input| <= INT32_MAX)
    ensures CountersFit(e, Cap(e, Alt(l, r), bw, lo), bw, lo)
    decreases Alt(l, r), 0
  {
    CapFits(e, l, bw, lo);
    CapFits(e, r, bw, lo + Groups(l));
    AltCaps(e, l, r, bw, lo, Cap(e, l, bw, lo), Cap(e, r, bw, lo + Groups(l)));
    AltFits(e, Cap(e, l, bw, lo), Cap(e, r, bw, lo + Groups(l)), bw, lo, lo + Groups(l));
  }

  lemma AltFits(e: Env, l: Node, r: Node, bw: bool, lo: nat, mid: nat)
    requires CountersFit(e, l, bw, lo) && CountersFit(e, r, bw, mid) && mid == lo + Groups(l)
    ensures CountersFit(e, Alt(l, r), bw, lo)
  {
  }

  lemma {:induction false} CapFitsQuant(e: Env, b: Node, min: nat, max: Option<nat>, greedy: bool, bw: bool, lo: nat)
    requires WellFormed(Quant(b, min, max, greedy)) && (Open(Quant(b, min, max, greedy)) || |e.input| <= INT32_MAX)
    ensures CountersFit(e, Cap(e, Quant(b, min, max, greedy), bw, lo), bw, lo)
    decreases Quant(b, min, max, greedy), 0
  {
    CapCode(e, b, bw, lo);
    CapFits(e, b, bw, lo);
    FitsCapped(e, Cap(e, b, bw, lo), min, max, bw, lo, IsCounted(e, b, bw, lo, min, max));
  }

  lemma FitsCapped(e: Env, b: Node, min: nat, max: Option<nat>, bw: bool, lo: nat, counted: bool)
    requires counted == IsCounted(e, b, bw, lo, min, max) && (max != Some(INT32_MAX) || |e.input| <= INT32_MAX)
    ensures IsCounted(e, b, bw, lo, min, CapMax(counted, max)) == counted
    ensures CounterFits(counted, Idle(MayIdle(e, b, bw, lo), min), CapMax(counted, max), |e.input|)
  {
  }

  // ---- ... and so is what it does ----

  function CapLoop(e: Env, q: Loop): (r: Loop)
    requires WellFormed(q.b)
    ensures WellFormed(r.b)
  {
    q.(b := Cap(e, q.b, q.bw, q.lo))
  }

  lemma {:induction false} CapRun(e: Env, n: Node, bw: bool, lo: nat, x: VState)
    requires WellFormed(n)
    ensures Some(Run(e, Cap(e, n, bw, lo), bw, lo, x)) == Some(Run(e, n, bw, lo, x))
    decreases n, 1, 0, 0, 0
  {
    match n
    case Empty =>
    case Char(_) =>
    case Assert(_) =>
    case BackRef(_, _) =>
    case Seq(l, r) => CapRunSeq(e, l, r, bw, lo, x);
    case Alt(l, r) => CapRunAlt(e, l, r, bw, lo, x);
    case Group(b) => CapRunGroup(e, b, bw, lo, x);
    case Look(behind, neg, b) => CapRunLook(e, behind, neg, b, bw, lo, x);
    case Quant(b, min, max, greedy) => CapRunQuant(e, b, min, max, greedy, bw, lo, x);
  }

  lemma {:induction false} CapRunSeq(e: Env, l: Node, r: Node, bw: bool, lo: nat, x: VState)
    requires WellFormed(Seq(l, r))
    ensures Some(Run(e, Cap(e, Seq(l, r), bw, lo), bw, lo, x)) == Some(Run(e, Seq(l, r), bw, lo, x))
    decreases Seq(l, r), 0, 0, 0, 0
  {
    var l', r', mid := Cap(e, l, bw, lo), Cap(e, r, bw, lo + Groups(l)), lo + Groups(l);
    SeqCaps(e, l, r, bw, lo, l', r');
    if bw {
      var xs := Run(e, r, bw, mid, x);
      CapRun(e, r, bw, mid, x);
      CapRunAll(e, l, bw, lo, xs);
      SeqRuns(e, l, r, bw, lo, mid, x, xs);
      SeqRuns(e, l', r', bw, lo, mid, x, xs);
    } else {
      var xs := Run(e, l, bw, lo, x);
      CapRun(e, l, bw, lo, x);
      CapRunAll(e, r, bw, mid, xs);
      SeqRuns(e, l, r, bw, lo, mid, x, xs);
      SeqRuns(e, l', r', bw, lo, mid, x, xs);
    }
  }

  lemma SeqRuns(e: Env, l: Node, r: Node, bw: bool, lo: nat, mid: nat, x: VState, xs: seq<VState>)
    requires WellFormed(Seq(l, r)) && mid == lo + Groups(l)
    requires xs == if bw then Run(e, r, bw, mid, x) else Run(e, l, bw, lo, x)
    ensures Some(Run(e, Seq(l, r), bw, lo, x))
         == Some(if bw then RunAll(e, l, bw, lo, xs) else RunAll(e, r, bw, mid, xs))
  {
  }

  lemma {:induction false} CapRunAlt(e: Env, l: Node, r: Node, bw: bool, lo: nat, x: VState)
    requires WellFormed(Alt(l, r))
    ensures Some(Run(e, Cap(e, Alt(l, r), bw, lo), bw, lo, x)) == Some(Run(e, Alt(l, r), bw, lo, x))
    decreases Alt(l, r), 0, 0, 0, 0
  {
    var l', r', mid := Cap(e, l, bw, lo), Cap(e, r, bw, lo + Groups(l)), lo + Groups(l);
    AltCaps(e, l, r, bw, lo, l', r');
    CapRun(e, l, bw, lo, x);
    CapRun(e, r, bw, mid, x);
    AltRuns(e, l, r, bw, lo, mid, x);
    AltRuns(e, l', r', bw, lo, mid, x);
  }

  lemma AltRuns(e: Env, l: Node, r: Node, bw: bool, lo: nat, mid: nat, x: VState)
    requires WellFormed(Alt(l, r)) && mid == lo + Groups(l)
    ensures Some(Run(e, Alt(l, r), bw, lo, x)) == Some(Run(e, l, bw, lo, x) + Run(e, r, bw, mid, x))
  {
  }

  lemma {:induction false} CapRunGroup(e: Env, b: Node, bw: bool, lo: nat, x: VState)
    requires WellFormed(Group(b))
    ensures Some(Run(e, Cap(e, Group(b), bw, lo), bw, lo, x)) == Some(Run(e, Group(b), bw, lo, x))
    decreases Group(b), 0, 0, 0, 0
  {
    CapRun(e, b, bw, lo + 1, OpenV(bw, lo, x));
  }

  lemma {:induction false} CapRunLook(e: Env, behind: bool, neg: bool, b: Node, bw: bool, lo: nat, x: VState)
    requires WellFormed(Look(behind, neg, b))
    ensures Some(Run(e, Cap(e, Look(behind, neg, b), bw, lo), bw, lo, x))
         == Some(Run(e, Look(behind, neg, b), bw, lo, x))
    decreases Look(behind, neg, b), 0, 0, 0, 0
  {
    CapRun(e, b, behind, lo, x);
  }

  lemma {:induction false} CapRunQuant(e: Env, b: Node, min: nat, max: Option<nat>, greedy: bool, bw: bool, lo: nat,
                                       x: VState)
    requires WellFormed(Quant(b, min, max, greedy))
    ensures Some(Run(e, Cap(e, Quant(b, min, max, greedy), bw, lo), bw, lo, x))
         == Some(Run(e, Quant(b, min, max, greedy), bw, lo, x))
    decreases Quant(b, min, max, greedy), 0, 0, 0, 0
  {
    var p := PlanOf(Code(e, b, bw, lo), Groups(b), min);
    CapCode(e, b, bw, lo);
    CapQuant(e, Loop(b, bw, lo, p, greedy), min, MaxInt(max), ClearIf(p.pre, x, lo, Groups(b)));
  }

  lemma {:induction false} CapRunAll(e: Env, n: Node, bw: bool, lo: nat, xs: seq<VState>)
    requires WellFormed(n)
    ensures RunAll(e, Cap(e, n, bw, lo), bw, lo, xs) == RunAll(e, n, bw, lo, xs)
    decreases n, 2, |xs|, 0, 0
  {
    if xs != [] {
      CapRun(e, n, bw, lo, xs[0]);
      CapRunAll(e, n, bw, lo, xs[1..]);
    }
  }

  lemma {:induction false} CapQuant(e: Env, q: Loop, min: nat, max: nat, x: VState)
    requires WellFormed(q.b) && min <= max
    ensures RunQuant(e, CapLoop(e, q), min, max, x) == RunQuant(e, q, min, max, x)
    decreases q.b, 4, 0, 0, 0
  {
    match ShapeOf(min, max, q.plan.check)
    case Nothing =>
    case Star(once) =>
      CapStar(e, q, once, x);
    case Optional =>
      CapCounted(e, q, q.plan.check, max, max, x);
    case Plus =>
      var y := ClearIf(q.plan.reset, x, q.lo, Groups(q.b));
      CapRun(e, q.b, q.bw, q.lo, y);
      CapStarAll(e, q, false, x.pos, Run(e, q.b, q.bw, q.lo, y));
    case Counted =>
      CapCounted(e, q, q.plan.check && min != max, max, max - min, x);
  }

  lemma {:induction false} CapStar(e: Env, q: Loop, once: bool, x: VState)
    requires WellFormed(q.b)
    ensures RunStar(e, CapLoop(e, q), once, x) == RunStar(e, q, once, x)
    decreases q.b, 3, Room(e, q.bw, x.pos), 1, 0
  {
    var y := ClearIf(q.plan.reset, x, q.lo, Groups(q.b));
    CapRun(e, q.b, q.bw, q.lo, y);
    CapStarAll(e, q, once, x.pos, Run(e, q.b, q.bw, q.lo, y));
  }

  lemma {:induction false} CapStarAll(e: Env, q: Loop, once: bool, p: nat, ys: seq<VState>)
    requires WellFormed(q.b)
    ensures RunStarAll(e, CapLoop(e, q), once, p, ys) == RunStarAll(e, q, once, p, ys)
    decreases q.b, 3, Room(e, q.bw, p), 0, |ys|
  {
    if ys != [] {
      if Advances(e, q.bw, p, ys[0].pos) && !once {
        CapStar(e, q, once, ys[0]);
      }
      CapStarAll(e, q, once, p, ys[1..]);
    }
  }

  lemma {:induction false} CapCounted(e: Env, q: Loop, check: bool, count: nat, limit: nat, x: VState)
    requires WellFormed(q.b) && count > 0
    ensures RunCounted(e, CapLoop(e, q), check, count, limit, x) == RunCounted(e, q, check, count, limit, x)
    decreases q.b, 3, count, 1, 0
  {
    var y := ClearIf(q.plan.reset, x, q.lo, Groups(q.b));
    CapRun(e, q.b, q.bw, q.lo, y);
    CapCountedAll(e, q, check, count - 1, limit, x.pos, Run(e, q.b, q.bw, q.lo, y));
  }

  lemma {:induction false} CapCountedAll(e: Env, q: Loop, check: bool, left: nat, limit: nat, p: nat, ys: seq<VState>)
    requires WellFormed(q.b)
    ensures RunCountedAll(e, CapLoop(e, q), check, left, limit, p, ys) == RunCountedAll(e, q, check, left, limit, p, ys)
    decreases q.b, 3, left + 1, 0, |ys|
  {
    if ys != [] {
      if left > 0 {
        CapCounted(e, q, check, left, limit, ys[0]);
      }
      CapCountedAll(e, q, check, left, limit, p, ys[1..]);
    }
  }

  // ---- What the machine does, for all patterns ----

  lemma {:induction false} CapLive(e: Env, n: Node, bw: bool, lo: nat)
    requires WellFormed(n)
    ensures Live(Cap(e, n, bw, lo), lo) == Live(n, lo)
    decreases n, 1
  {
    match n
    case Empty =>
    case Char(_) =>
    case Assert(_) =>
    case BackRef(_, _) =>
    case Seq(l, r) => CapLiveSeq(e, l, r, bw, lo);
    case Alt(l, r) => CapLiveAlt(e, l, r, bw, lo);
    case Group(b) => CapLive(e, b, bw, lo + 1);
    case Look(behind, _, b) => CapLive(e, b, behind, lo);
    case Quant(b, _, _, _) => CapLive(e, b, bw, lo);
  }

  lemma {:induction false} CapLiveSeq(e: Env, l: Node, r: Node, bw: bool, lo: nat)
    requires WellFormed(Seq(l, r))
    ensures Live(Cap(e, Seq(l, r), bw, lo), lo) == Live(Seq(l, r), lo)
    decreases Seq(l, r), 0
  {
    var l', r' := Cap(e, l, bw, lo), Cap(e, r, bw, lo + Groups(l));
    SeqCaps(e, l, r, bw, lo, l', r');
    CapLive(e, l, bw, lo);
    CapLive(e, r, bw, lo + Groups(l));
    SeqLive(l, r, lo, lo + Groups(l));
    SeqLive(l', r', lo, lo + Groups(l));
  }

  lemma SeqLive(l: Node, r: Node, lo: nat, mid: nat)
    requires mid == lo + Groups(l)
    ensures Live(Seq(l, r), lo) == Live(l, lo) + Live(r, mid)
  {
  }

  lemma {:induction false} CapLiveAlt(e: Env, l: Node, r: Node, bw: bool, lo: nat)
    requires WellFormed(Alt(l, r))
    ensures Live(Cap(e, Alt(l, r), bw, lo), lo) == Live(Alt(l, r), lo)
    decreases Alt(l, r), 0
  {
    var l', r' := Cap(e, l, bw, lo), Cap(e, r, bw, lo + Groups(l));
    AltCaps(e, l, r, bw, lo, l', r');
    CapLive(e, l, bw, lo);
    CapLive(e, r, bw, lo + Groups(l));
    AltLive(l, r, lo, lo + Groups(l));
    AltLive(l', r', lo, lo + Groups(l));
  }

  lemma AltLive(l: Node, r: Node, lo: nat, mid: nat)
    requires mid == lo + Groups(l)
    ensures Live(Alt(l, r), lo) == Live(l, lo) + Live(r, mid)
  {
  }

  // The code of any pattern comes out in the ways to match of the pattern with the maximum, in the same order.
  lemma SimCapped(e: Env, n: Node, bw: bool, lo: nat, x: MState, v: VState, open: set<nat>, stale: set<nat>)
    requires Situation(e, n, bw, lo, x, v, open, stale) && (Open(n) || |e.input| <= INT32_MAX)
    ensures RelAll(e, Sem(e, Cap(e, n, bw, lo), bw, lo, x), Run(e, n, bw, lo, v), open, stale - Live(n, lo))
  {
    CapEntry(e, n, Cap(e, n, bw, lo), bw, lo, x, v, open, stale);
    SimNode(e, Cap(e, n, bw, lo), bw, lo, x, v, open, stale);
    CapRun(e, n, bw, lo, v);
    CapLive(e, n, bw, lo);
  }

  lemma CapEntry(e: Env, n: Node, n': Node, bw: bool, lo: nat, x: MState, v: VState, open: set<nat>, stale: set<nat>)
    requires Situation(e, n, bw, lo, x, v, open, stale) && (Open(n) || |e.input| <= INT32_MAX)
    requires n' == Cap(e, n, bw, lo)
    ensures Entry(e, n', bw, lo, x, v, open, stale)
  {
    CapCode(e, n, bw, lo);
    CapRefs(e, n, bw, lo, |x.caps|);
    CapFits(e, n, bw, lo);
  }
}
