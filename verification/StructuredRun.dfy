// What the emitted code does, read off the pattern: the ordered list of states in which a fragment
// can be left, with the capture words and the tests the code really makes. This is the half-way
// house between ECMA-262 and the machine.
module StructuredRun {
  import opened RegexSyntax
  import opened Bytecode
  import opened Codegen
  import opened EcmaSemantics

  const NULL: int := -1

  // Two words per group: 2g is the start and 2g+1 the end.
  datatype VState = VState(pos: nat, w: seq<int>)

  function SetWord(w: seq<int>, i: nat, v: int): (r: seq<int>)
    ensures |r| == |w|
  {
    if i < |w| then w[i := v] else w
  }

  // Clear both words of the groups lo .. hi-1.
  function Clear(w: seq<int>, lo: nat, hi: nat): (r: seq<int>)
    ensures |r| == |w|
    ensures forall i :: 0 <= i < |w| ==> r[i] == if 2 * lo <= i < 2 * hi then NULL else w[i]
  {
    seq(|w|, i requires 0 <= i < |w| => if 2 * lo <= i < 2 * hi then NULL else w[i])
  }

  // Compare the input from i up to t with the input from p on.
  function SameFrom(e: Env, icase: bool, i: int, t: int, p: nat): Option<nat>
    decreases t - i
  {
    if i >= t then Some(p)
    else if p >= |e.input| || !(0 <= i < |e.input|) then None
    else if Fold(e, icase, e.input[i]) != Fold(e, icase, e.input[p]) then None
    else SameFrom(e, icase, i + 1, t, p + 1)
  }

  // The same backwards, from t down to s.
  function SameDown(e: Env, icase: bool, s: int, t: int, p: nat): Option<nat>
    decreases t - s
  {
    if t <= s then Some(p)
    else if p == 0 || !(0 < t <= |e.input|) || p > |e.input| then None
    else if Fold(e, icase, e.input[t - 1]) != Fold(e, icase, e.input[p - 1]) then None
    else SameDown(e, icase, s, t - 1, p - 1)
  }

  function BackRefV(e: Env, bw: bool, icase: bool, groups: seq<nat>, x: VState): Option<nat> {
    if groups == [] then Some(x.pos)
    else
      var g := groups[0];
      if 2 * g + 1 >= |x.w| then None
      else if x.w[2 * g] != NULL && x.w[2 * g + 1] != NULL then
        if bw then SameDown(e, icase, x.w[2 * g], x.w[2 * g + 1], x.pos)
        else SameFrom(e, icase, x.w[2 * g], x.w[2 * g + 1], x.pos)
      else BackRefV(e, bw, icase, groups[1..], x)
  }

  function AtomToV(e: Env, n: Node, bw: bool, x: VState): Option<nat>
    requires n.Empty? || n.Char? || n.Assert? || n.BackRef?
    requires WellFormed(n)
  {
    match n
    case Empty => Some(x.pos)
    case Char(cls) =>
      var ch := Peek(e, bw, x.pos);
      if ch.Some? && Passes(e, TestOf(e, cls), ch.value) then Some(Next(bw, x.pos)) else None
    case Assert(a) => if x.pos <= |e.input| && Holds(e, a, x.pos) then Some(x.pos) else None
    case BackRef(groups, icase) => BackRefV(e, bw, icase, groups, x)
  }

  function AtV(to: Option<nat>, x: VState): seq<VState> {
    if to.Some? then [VState(to.value, x.w)] else []
  }

  function CloseV(bw: bool, g: nat, y: VState): VState {
    VState(y.pos, SetWord(y.w, 2 * g + B2I(!bw), y.pos))
  }

  function OpenV(bw: bool, g: nat, x: VState): VState {
    VState(x.pos, SetWord(x.w, 2 * g + B2I(bw), x.pos))
  }

  function CloseAllV(bw: bool, g: nat, ys: seq<VState>): (r: seq<VState>)
    ensures |r| == |ys|
    ensures forall i :: 0 <= i < |ys| ==> r[i] == CloseV(bw, g, ys[i])
  {
    if ys == [] then [] else [CloseV(bw, g, ys[0])] + CloseAllV(bw, g, ys[1..])
  }

  function ClearIf(c: bool, x: VState, lo: nat, groups: nat): VState {
    if c then VState(x.pos, Clear(x.w, lo, lo + groups)) else x
  }

  // The part of a quantifier that does not change from one iteration to the next.
  datatype Loop = Loop(b: Node, bw: bool, lo: nat, plan: Plan, greedy: bool)

  function Run(e: Env, n: Node, bw: bool, lo: nat, x: VState): seq<VState>
    requires WellFormed(n)
    decreases n, 1, 0, 0, 0, e
  {
    match n
    case Empty => AtV(AtomToV(e, n, bw, x), x)
    case Char(_) => AtV(AtomToV(e, n, bw, x), x)
    case Assert(_) => AtV(AtomToV(e, n, bw, x), x)
    case BackRef(_, _) => AtV(AtomToV(e, n, bw, x), x)
    case Seq(l, r) =>
      if bw then RunAll(e, l, bw, lo, Run(e, r, bw, lo + Groups(l), x))
      else RunAll(e, r, bw, lo + Groups(l), Run(e, l, bw, lo, x))
    case Alt(l, r) => Run(e, l, bw, lo, x) + Run(e, r, bw, lo + Groups(l), x)
    case Group(b) => CloseAllV(bw, lo, Run(e, b, bw, lo + 1, OpenV(bw, lo, x)))
    case Look(behind, neg, b) =>
      var ys := Run(e, b, behind, lo, x);
      if neg then (if ys == [] then [x] else [])
      else if ys == [] then [] else [VState(x.pos, ys[0].w)]
    case Quant(b, min, max, greedy) =>
      var p := PlanOf(Code(e, b, bw, lo), Groups(b), min);
      RunQuant(e, Loop(b, bw, lo, p, greedy), min, MaxInt(max), ClearIf(p.pre, x, lo, Groups(b)))
  }

  // A quantifier, once the captures have been cleared in front of it where that is needed.
  function RunQuant(e: Env, q: Loop, min: nat, max: nat, x: VState): seq<VState>
    requires WellFormed(q.b) && min <= max
    decreases q.b, 4, 0, 0, 0, e
  {
    match ShapeOf(min, max, q.plan.check)
    case Nothing => [x]
    case Star(once) => RunStar(e, q, once, x)
    case Optional => Prefer(q.greedy, RunCounted(e, q, q.plan.check, max, max, x), x)
    case Plus => RunStarAll(e, q, false, x.pos, Run(e, q.b, q.bw, q.lo, ClearIf(q.plan.reset, x, q.lo, Groups(q.b))))
    case Counted => RunCounted(e, q, q.plan.check && min != max, max, max - min, x)
  }

  function RunAll(e: Env, n: Node, bw: bool, lo: nat, xs: seq<VState>): seq<VState>
    requires WellFormed(n)
    decreases n, 2, |xs|, 0, 0, e
  {
    if xs == [] then [] else Run(e, n, bw, lo, xs[0]) + RunAll(e, n, bw, lo, xs[1..])
  }

  // The uncounted loop, at its split.
  function RunStar(e: Env, q: Loop, once: bool, x: VState): seq<VState>
    requires WellFormed(q.b)
    decreases q.b, 3, Room(e, q.bw, x.pos), 1, 0, e
  {
    Prefer(q.greedy,
           RunStarAll(e, q, once, x.pos, Run(e, q.b, q.bw, q.lo, ClearIf(q.plan.reset, x, q.lo, Groups(q.b)))), x)
  }

  // ... and after one iteration that began at p. Iterations that do not advance are dropped: by the
  // advance check when there is one, and otherwise because there are none (Progress.dfy).
  function RunStarAll(e: Env, q: Loop, once: bool, p: nat, ys: seq<VState>): seq<VState>
    requires WellFormed(q.b)
    decreases q.b, 3, Room(e, q.bw, p), 0, |ys|, e
  {
    if ys == [] then []
    else
      (if !Advances(e, q.bw, p, ys[0].pos) then []
       else if once then [ys[0]]
       else RunStar(e, q, once, ys[0]))
      + RunStarAll(e, q, once, p, ys[1..])
  }

  // The counted loop, with the counter at count before the iteration.
  function RunCounted(e: Env, q: Loop, check: bool, count: nat, limit: nat, x: VState): seq<VState>
    requires WellFormed(q.b) && count > 0
    decreases q.b, 3, count, 1, 0, e
  {
    RunCountedAll(e, q, check, count - 1, limit, x.pos,
                  Run(e, q.b, q.bw, q.lo, ClearIf(q.plan.reset, x, q.lo, Groups(q.b))))
  }

  function RunCountedAll(e: Env, q: Loop, check: bool, left: nat, limit: nat, p: nat, ys: seq<VState>): seq<VState>
    requires WellFormed(q.b)
    decreases q.b, 3, left + 1, 0, |ys|, e
  {
    if ys == [] then []
    else AfterOne(e, q, check, left, limit, p, ys[0]) + RunCountedAll(e, q, check, left, limit, p, ys[1..])
  }

  // What the loop instruction does with one way to leave the atom.
  function AfterOne(e: Env, q: Loop, check: bool, left: nat, limit: nat, p: nat, y: VState): seq<VState>
    requires WellFormed(q.b)
    decreases q.b, 3, left, 2, 0, e
  {
    if left > limit then RunCounted(e, q, check, left, limit, y)
    else if check && y.pos == p && left != limit then []
    else if left != 0 then Prefer(q.greedy, RunCounted(e, q, check, left, limit, y), y)
    else [y]
  }
}
