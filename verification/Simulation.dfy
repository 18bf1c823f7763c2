// The states in which the code of a pattern comes out are, one by one and in order, the ways to
// match of ECMA-262: leaving out capture resets and advance checks is invisible.
module Simulation {
  import opened RegexSyntax
  import opened Bytecode
  import opened Codegen
  import opened EcmaSemantics
  import opened StructuredRun
  import opened Progress
  import opened ClassTest
  import opened Frames

  // ---- Which patterns ----

  // Every back reference names an existing group.
  predicate RefsIn(n: Node, nc: nat) {
    match n
    case Empty => true
    case Char(_) => true
    case Assert(_) => true
    case BackRef(groups, _) => forall i :: 0 <= i < |groups| ==> groups[i] < nc
    case Seq(l, r) => RefsIn(l, nc) && RefsIn(r, nc)
    case Alt(l, r) => RefsIn(l, nc) && RefsIn(r, nc)
    case Group(b) => RefsIn(b, nc)
    case Look(_, _, b) => RefsIn(b, nc)
    case Quant(b, _, _, _) => RefsIn(b, nc)
  }

  // Does the code of an atom need the check for empty iterations?
  predicate MayIdle(e: Env, b: Node, bw: bool, lo: nat) {
    WellFormed(b) ==> Scan(Code(e, b, bw, lo)).needAdv
  }

  // A maximum of INT32_MAX stands for none. Only the counted form has a counter that can run out: without a maximum it
  // must outlast the subject, together with the mandatory iterations that need not consume anything.
  predicate CounterFits(counted: bool, idle: nat, max: Option<nat>, len: nat) {
    MaxInt(max) == INT32_MAX ==>
      if counted then max.Some? || idle + len <= INT32_MAX
      else max.None? || len <= INT32_MAX
  }

  predicate IsCounted(e: Env, b: Node, bw: bool, lo: nat, min: nat, max: Option<nat>) {
    ShapeOf(min, MaxInt(max), MayIdle(e, b, bw, lo)).Counted?
  }

  // All counters of a pattern fit.
  predicate CountersFit(e: Env, n: Node, bw: bool, lo: nat)
    decreases n
  {
    match n
    case Empty => true
    case Char(_) => true
    case Assert(_) => true
    case BackRef(_, _) => true
    case Seq(l, r) => CountersFit(e, l, bw, lo) && CountersFit(e, r, bw, lo + Groups(l))
    case Alt(l, r) => CountersFit(e, l, bw, lo) && CountersFit(e, r, bw, lo + Groups(l))
    case Group(b) => CountersFit(e, b, bw, lo + 1)
    case Look(behind, _, b) => CountersFit(e, b, behind, lo)
    case Quant(b, min, max, _) =>
      && CountersFit(e, b, bw, lo)
      && CounterFits(IsCounted(e, b, bw, lo, min, max), Idle(MayIdle(e, b, bw, lo), min), max, |e.input|)
  }

  // Iterations that need not consume anything.
  function Idle(may: bool, min: nat): nat {
    if may then min else 0
  }

  // ---- How a machine state stands for a MatchState ----

  predicate Exact(e: Env, c: Option<(nat, nat)>, s: int, t: int) {
    match c
    case None => s == NULL && t == NULL
    case Some(p) => s == p.0 && t == p.1 && p.0 <= p.1 <= |e.input|
  }

  // One group: open groups are undefined in the specification but half set in the machine; about
  // stale groups nothing is known.
  predicate GroupRel(e: Env, x: MState, v: VState, open: set<nat>, stale: set<nat>, g: nat)
    requires g < |x.caps| && |v.w| == 2 * |x.caps|
  {
    if g in stale then true
    else if g in open then x.caps[g].None? && (v.w[2 * g] == NULL || v.w[2 * g + 1] == NULL)
    else Exact(e, x.caps[g], v.w[2 * g], v.w[2 * g + 1])
  }

  ghost predicate Rel(e: Env, x: MState, v: VState, open: set<nat>, stale: set<nat>) {
    && x.pos == v.pos <= |e.input|
    && |v.w| == 2 * |x.caps|
    && forall g :: 0 <= g < |x.caps| ==> GroupRel(e, x, v, open, stale, g)
  }

  ghost predicate RelAll(e: Env, xs: seq<MState>, vs: seq<VState>, open: set<nat>, stale: set<nat>) {
    |xs| == |vs| && forall i :: 0 <= i < |xs| ==> Rel(e, xs[i], vs[i], open, stale)
  }

  lemma RelConcat(e: Env, xs: seq<MState>, vs: seq<VState>, ys: seq<MState>, us: seq<VState>, open: set<nat>,
                  stale: set<nat>)
    requires RelAll(e, xs, vs, open, stale) && RelAll(e, ys, us, open, stale)
    ensures RelAll(e, xs + ys, vs + us, open, stale)
  {
  }

  // ---- Back references ----

  lemma {:induction false} SameFromIsText(e: Env, icase: bool, s: nat, t: nat, p: nat)
    requires s <= t <= |e.input| && p <= |e.input|
    ensures SameFrom(e, icase, s, t, p)
         == if p + (t - s) <= |e.input| && SameText(e, icase, s, t, p) then Some(p + (t - s)) else None
    decreases t - s
  {
    if s < t && p < |e.input| {
      SameFromIsText(e, icase, s + 1, t, p + 1);
      if p + (t - s) <= |e.input| {
        if SameText(e, icase, s + 1, t, p + 1) && Fold(e, icase, e.input[s]) == Fold(e, icase, e.input[p]) {
          forall i | s <= i < t
            ensures Fold(e, icase, e.input[i]) == Fold(e, icase, e.input[p + (i - s)])
          {
            assert i > s ==> Fold(e, icase, e.input[i]) == Fold(e, icase, e.input[p + 1 + (i - (s + 1))]);
          }
        }
        if SameText(e, icase, s, t, p) {
          forall i | s + 1 <= i < t
            ensures Fold(e, icase, e.input[i]) == Fold(e, icase, e.input[p + 1 + (i - (s + 1))])
          {
            assert Fold(e, icase, e.input[i]) == Fold(e, icase, e.input[p + (i - s)]);
          }
          assert Fold(e, icase, e.input[s]) == Fold(e, icase, e.input[p + (s - s)]);
        }
      }
    }
  }

  lemma {:induction false} SameDownIsText(e: Env, icase: bool, s: nat, t: nat, p: nat)
    requires s <= t <= |e.input| && p <= |e.input|
    ensures SameDown(e, icase, s, t, p)
         == if t - s <= p && SameText(e, icase, s, t, p - (t - s)) then Some(p - (t - s)) else None
    decreases t - s
  {
    if s < t && p > 0 {
      SameDownIsText(e, icase, s, t - 1, p - 1);
      if t - s <= p {
        var q := p - (t - s);
        assert q == p - 1 - (t - 1 - s);
        if SameText(e, icase, s, t - 1, q) && Fold(e, icase, e.input[t - 1]) == Fold(e, icase, e.input[p - 1]) {
          forall i | s <= i < t
            ensures Fold(e, icase, e.input[i]) == Fold(e, icase, e.input[q + (i - s)])
          {
            assert i == t - 1 ==> q + (i - s) == p - 1;
          }
        }
        if SameText(e, icase, s, t, q) {
          assert Fold(e, icase, e.input[t - 1]) == Fold(e, icase, e.input[q + (t - 1 - s)]);
        }
      }
    }
  }

  // A back reference to the capture from s to t, as the machine compares it.
  lemma SameIsText(e: Env, bw: bool, icase: bool, s: nat, t: nat, p: nat)
    requires s <= t <= |e.input| && p <= |e.input|
    ensures (if bw then SameDown(e, icase, s, t, p) else SameFrom(e, icase, s, t, p))
         == if bw then if t - s <= p && SameText(e, icase, s, t, p - (t - s)) then Some(p - (t - s)) else None
            else if p + (t - s) <= |e.input| && SameText(e, icase, s, t, p) then Some(p + (t - s)) else None
  {
    if bw {
      SameDownIsText(e, icase, s, t, p);
    } else {
      SameFromIsText(e, icase, s, t, p);
    }
  }

  lemma {:induction false} SimBackRef(e: Env, bw: bool, icase: bool, groups: seq<nat>, x: MState, v: VState,
                                      open: set<nat>)
    requires Rel(e, x, v, open, {})
    requires forall i :: 0 <= i < |groups| ==> groups[i] < |x.caps|
    ensures BackRefV(e, bw, icase, groups, v) == BackRefTo(e, bw, icase, groups, x)
  {
    if groups != [] {
      var g := groups[0];
      assert GroupRel(e, x, v, open, {}, g);
      SimBackRef(e, bw, icase, groups[1..], x, v, open);
      if x.caps[g].Some? {
        var p := x.caps[g].value;
        SameIsText(e, bw, icase, p.0, p.1, x.pos);
      }
    }
  }

  // ---- Patterns ----

  // The situation at the entry of a pattern: related states, its own groups undefined, none of them
  // open, and nothing stale unless the code of the pattern is free of branches and back references.
  ghost predicate Situation(e: Env, n: Node, bw: bool, lo: nat, x: MState, v: VState, open: set<nat>,
                            stale: set<nat>) {
    && EnvOk(e) && WellFormed(n) && RefsIn(n, |x.caps|)
    && Rel(e, x, v, open, stale)
    && lo + Groups(n) <= |x.caps| && Fresh(x, lo, lo + Groups(n))
    && (forall g :: g in open ==> g < lo || lo + Groups(n) <= g)
    && (stale != {} ==> !Scan(Code(e, n, bw, lo)).needInit)
  }

  ghost predicate Entry(e: Env, n: Node, bw: bool, lo: nat, x: MState, v: VState, open: set<nat>, stale: set<nat>) {
    Situation(e, n, bw, lo, x, v, open, stale) && CountersFit(e, n, bw, lo)
  }

  // Main result: the same ways to match, in the same order.
  lemma {:induction false} SimNode(e: Env, n: Node, bw: bool, lo: nat, x: MState, v: VState, open: set<nat>,
                                   stale: set<nat>)
    requires Entry(e, n, bw, lo, x, v, open, stale)
    ensures RelAll(e, Sem(e, n, bw, lo, x), Run(e, n, bw, lo, v), open, stale - Live(n, lo))
    decreases n, 1, 0, 0, 0
  {
    match n
    case Empty =>
      SimLeaf(e, n, bw, lo, x, v, open, stale);
    case Char(_) =>
      SimLeaf(e, n, bw, lo, x, v, open, stale);
    case Assert(_) =>
      SimLeaf(e, n, bw, lo, x, v, open, stale);
    case BackRef(_, _) =>
      SimLeaf(e, n, bw, lo, x, v, open, stale);
    case Seq(l, r) =>
      SimSeq(e, l, r, bw, lo, x, v, open, stale);
    case Alt(l, r) =>
      SimAlt(e, l, r, bw, lo, x, v, open, stale);
    case Group(b) =>
      SimGroup(e, b, bw, lo, x, v, open, stale);
    case Look(behind, neg, b) =>
      SimLook(e, behind, neg, b, bw, lo, x, v, open, stale);
    case Quant(_, _, _, _) =>
      SimQuant(e, n, bw, lo, x, v, open, stale);
  }

  lemma SimLeaf(e: Env, n: Node, bw: bool, lo: nat, x: MState, v: VState, open: set<nat>, stale: set<nat>)
    requires n.Empty? || n.Char? || n.Assert? || n.BackRef?
    requires Entry(e, n, bw, lo, x, v, open, stale)
    ensures RelAll(e, Sem(e, n, bw, lo, x), Run(e, n, bw, lo, v), open, stale - Live(n, lo))
  {
    assert stale - Live(n, lo) == stale;
    assert AtomTo(e, n, bw, x) == AtomToV(e, n, bw, v) by {
      if n.BackRef? {
        assert stale == {};
        SimBackRef(e, bw, n.icase, n.groups, x, v, open);
      } else if n.Char? {
        var ch := Peek(e, bw, x.pos);
        if ch.Some? {
          TestIsClass(e, n.cls, ch.value);
        }
      }
    }
    SimAt(e, AtomTo(e, n, bw, x), x, v, open, stale);
    var to := AtomTo(e, n, bw, x);
    if to.Some? {
      LeafInside(e, n, bw, v);
    }
  }

  lemma LeafInside(e: Env, n: Node, bw: bool, v: VState)
    requires n.Empty? || n.Char? || n.Assert? || n.BackRef?
    requires WellFormed(n) && v.pos <= |e.input| && AtomToV(e, n, bw, v).Some?
    ensures AtomToV(e, n, bw, v).value <= |e.input|
  {
    LeafOnward(e, n, bw, v);
    assert Onward(e, bw, v, AtV(AtomToV(e, n, bw, v), v)[0]);
  }

  lemma SimAt(e: Env, to: Option<nat>, x: MState, v: VState, open: set<nat>, stale: set<nat>)
    requires Rel(e, x, v, open, stale)
    requires to.Some? ==> to.value <= |e.input|
    ensures RelAll(e, At(to, x), AtV(to, v), open, stale)
  {
    if to.Some? {
      var y, w := MState(to.value, x.caps), VState(to.value, v.w);
      assert forall g :: 0 <= g < |x.caps| ==> GroupRel(e, x, v, open, stale, g) == GroupRel(e, y, w, open, stale, g);
    }
  }

  // ---- Sequence, alternation, groups, lookaround ----

  lemma {:induction false} SimSeq(e: Env, l: Node, r: Node, bw: bool, lo: nat, x: MState, v: VState, open: set<nat>,
                                  stale: set<nat>)
    requires Entry(e, Seq(l, r), bw, lo, x, v, open, stale)
    ensures RelAll(e, Sem(e, Seq(l, r), bw, lo, x), Run(e, Seq(l, r), bw, lo, v), open, stale - Live(Seq(l, r), lo))
    decreases Seq(l, r), 0, 1, 0, 0
  {
    var lr := lo + Groups(l);
    if bw {
      ScanConcat(Code(e, r, bw, lr), Code(e, l, bw, lo));
      SimThen(e, Seq(l, r), r, lr, l, lo, bw, x, v, open, stale);
      assert stale - Live(r, lr) - Live(l, lo) == stale - Live(Seq(l, r), lo);
    } else {
      ScanConcat(Code(e, l, bw, lo), Code(e, r, bw, lr));
      SimThen(e, Seq(l, r), l, lo, r, lr, bw, x, v, open, stale);
      assert stale - Live(l, lo) - Live(r, lr) == stale - Live(Seq(l, r), lo);
    }
  }

  lemma {:induction false} SimThen(e: Env, n: Node, a: Node, la: nat, b: Node, lb: nat, bw: bool, x: MState, v: VState,
                                   open: set<nat>, stale: set<nat>)
    requires n.Seq? && ((a == n.l && b == n.r) || (a == n.r && b == n.l))
    requires Entry(e, a, bw, la, x, v, open, stale) && Entry(e, b, bw, lb, x, v, open, stale)
    requires la + Groups(a) <= lb || lb + Groups(b) <= la
    ensures RelAll(e, SemAll(e, b, bw, lb, Sem(e, a, bw, la, x)), RunAll(e, b, bw, lb, Run(e, a, bw, la, v)),
                   open, stale - Live(a, la) - Live(b, lb))
    decreases n, 0, 0, 0, 0
  {
    var xs, vs := Sem(e, a, bw, la, x), Run(e, a, bw, la, v);
    SimNode(e, a, bw, la, x, v, open, stale);
    SemFrame(e, a, bw, la, x);
    LiveInside(a, la);
    forall i | 0 <= i < |xs|
      ensures Entry(e, b, bw, lb, xs[i], vs[i], open, stale - Live(a, la))
    {
      assert SameCaps(x, xs[i], Live(a, la));
    }
    SimAll(e, b, bw, lb, xs, vs, open, stale - Live(a, la));
  }

  lemma {:induction false} SimAll(e: Env, n: Node, bw: bool, lo: nat, xs: seq<MState>, vs: seq<VState>, open: set<nat>,
                                  stale: set<nat>)
    requires WellFormed(n) && |xs| == |vs|
    requires forall i :: 0 <= i < |xs| ==> Entry(e, n, bw, lo, xs[i], vs[i], open, stale)
    ensures RelAll(e, SemAll(e, n, bw, lo, xs), RunAll(e, n, bw, lo, vs), open, stale - Live(n, lo))
    decreases n, 2, |xs|, 0, 0
  {
    if xs != [] {
      SimNode(e, n, bw, lo, xs[0], vs[0], open, stale);
      SimAll(e, n, bw, lo, xs[1..], vs[1..], open, stale);
      RelConcat(e, Sem(e, n, bw, lo, xs[0]), Run(e, n, bw, lo, vs[0]),
                SemAll(e, n, bw, lo, xs[1..]), RunAll(e, n, bw, lo, vs[1..]), open, stale - Live(n, lo));
    }
  }

  lemma NothingLess(s: set<nat>)
    ensures {} - s == {}
  {
  }

  lemma {:induction false} SimAlt(e: Env, l: Node, r: Node, bw: bool, lo: nat, x: MState, v: VState, open: set<nat>,
                                  stale: set<nat>)
    requires Entry(e, Alt(l, r), bw, lo, x, v, open, stale)
    ensures RelAll(e, Sem(e, Alt(l, r), bw, lo, x), Run(e, Alt(l, r), bw, lo, v), open, stale - Live(Alt(l, r), lo))
    decreases Alt(l, r), 0, 0, 0, 0
  {
    var lr := lo + Groups(l);
    AltScan(Code(e, l, bw, lo), Code(e, r, bw, lr));
    SimNode(e, l, bw, lo, x, v, open, {});
    SimNode(e, r, bw, lr, x, v, open, {});
    NothingLess(Live(l, lo));
    NothingLess(Live(r, lr));
    assert stale == {};
    NothingLess(Live(Alt(l, r), lo));
    RelConcat(e, Sem(e, l, bw, lo, x), Run(e, l, bw, lo, v), Sem(e, r, bw, lr, x), Run(e, r, bw, lr, v), open, {});
  }

  lemma AltScan(cl: seq<Op>, cr: seq<Op>)
    ensures Scan(AltCode(cl, cr)).needInit
  {
    assert AltCode(cl, cr)[0] == OSplit(true, |cl| + 1);
  }

  lemma GroupScan(bw: bool, g: nat, cb: seq<Op>)
    ensures Scan(GroupCode(bw, g, cb)).needInit == Scan(cb).needInit
  {
    var rest := cb + [OSave(!bw, g)];
    assert GroupCode(bw, g, cb) == [OSave(bw, g)] + rest;
    assert ([OSave(bw, g)] + rest)[1..] == rest;
    assert [OSave(!bw, g)][1..] == [];
    ScanConcat(cb, [OSave(!bw, g)]);
  }

  lemma {:induction false} SimGroup(e: Env, b: Node, bw: bool, lo: nat, x: MState, v: VState, open: set<nat>,
                                    stale: set<nat>)
    requires Entry(e, Group(b), bw, lo, x, v, open, stale)
    ensures RelAll(e, Sem(e, Group(b), bw, lo, x), Run(e, Group(b), bw, lo, v), open, stale - Live(Group(b), lo))
    decreases Group(b), 0, 0, 0, 0
  {
    var cb := Code(e, b, bw, lo + 1);
    GroupScan(bw, lo, cb);
    var simple := !Scan(cb).needInit;
    var open' := if simple then open else open + {lo};
    var stale' := if simple then stale + {lo} else stale;
    var v' := OpenV(bw, lo, v);
    GroupEntry(e, b, bw, lo, x, v, open, stale, open', stale');
    SimNode(e, b, bw, lo + 1, x, v', open', stale');
    var ys, us := Sem(e, b, bw, lo + 1, x), Run(e, b, bw, lo + 1, v');
    RunOnward(e, b, bw, lo + 1, v');
    RunFrame(e, b, bw, lo + 1, v');
    var inner, outer := stale' - Live(b, lo + 1), stale - Live(Group(b), lo);
    assert lo !in outer && (forall g :: g != lo ==> (g in open' <==> g in open) && (g in inner <==> g in outer));
    CloseRel(e, bw, lo, x, v', ys, us, open', inner, open, outer, lo + 1 + Groups(b));
  }

  lemma GroupEntry(e: Env, b: Node, bw: bool, lo: nat, x: MState, v: VState, open: set<nat>, stale: set<nat>,
                   open': set<nat>, stale': set<nat>)
    requires Entry(e, Group(b), bw, lo, x, v, open, stale)
    requires var simple := !Scan(Code(e, b, bw, lo + 1)).needInit;
      && open' == (if simple then open else open + {lo})
      && stale' == (if simple then stale + {lo} else stale)
    ensures Entry(e, b, bw, lo + 1, x, OpenV(bw, lo, v), open', stale')
  {
    GroupScan(bw, lo, Code(e, b, bw, lo + 1));
    OpenRel(e, bw, lo, x, v, open, stale, open', stale');
  }

  lemma OpenRel(e: Env, bw: bool, lo: nat, x: MState, v: VState, open: set<nat>, stale: set<nat>, open': set<nat>,
                stale': set<nat>)
    requires Rel(e, x, v, open, stale) && lo < |x.caps| && x.caps[lo].None? && lo !in open
    requires (open' == open && stale' == stale + {lo}) || (open' == open + {lo} && stale' == stale && stale == {})
    ensures Rel(e, x, OpenV(bw, lo, v), open', stale')
  {
    forall g | 0 <= g < |x.caps|
      ensures GroupRel(e, x, OpenV(bw, lo, v), open', stale', g)
    {
      assert GroupRel(e, x, v, open, stale, g);
    }
  }

  lemma CloseRel(e: Env, bw: bool, lo: nat, x: MState, v: VState, ys: seq<MState>, us: seq<VState>, open': set<nat>,
                 stale': set<nat>,
                 open: set<nat>, stale: set<nat>, hi: nat)
    requires RelAll(e, ys, us, open', stale') && lo < |x.caps| && x.pos == v.pos && |v.w| == 2 * |x.caps|
    requires v.pos <= |e.input|
    requires v.w[2 * lo + B2I(bw)] == v.pos
    requires AllOnward(e, bw, v, us) && AllSameWords(v, us, lo + 1, hi)
    requires lo !in open && lo !in stale
    requires forall g :: g != lo ==> (g in open' <==> g in open) && (g in stale' <==> g in stale)
    ensures RelAll(e, CloseAll(bw, lo, x.pos, ys), CloseAllV(bw, lo, us), open, stale)
  {
    forall i | 0 <= i < |ys|
      ensures Rel(e, Close(bw, lo, x.pos, ys[i]), CloseV(bw, lo, us[i]), open, stale)
    {
      assert us[i] in us;
      assert Onward(e, bw, v, us[i]) && SameWords(v, us[i], lo + 1, hi);
      assert Rel(e, ys[i], us[i], open', stale');
      CloseOneRel(e, bw, lo, x.pos, ys[i], us[i], open', stale', open, stale);
    }
  }

  lemma CloseOneRel(e: Env, bw: bool, lo: nat, p: nat, y: MState, u: VState, open': set<nat>, stale': set<nat>,
                    open: set<nat>, stale: set<nat>)
    requires Rel(e, y, u, open', stale') && lo < |y.caps|
    requires u.w[2 * lo + B2I(bw)] == p && p <= |e.input| && (if bw then u.pos <= p else p <= u.pos)
    requires lo !in open && lo !in stale
    requires forall g :: g != lo ==> (g in open' <==> g in open) && (g in stale' <==> g in stale)
    ensures Rel(e, Close(bw, lo, p, y), CloseV(bw, lo, u), open, stale)
  {
    forall g | 0 <= g < |y.caps|
      ensures GroupRel(e, Close(bw, lo, p, y), CloseV(bw, lo, u), open, stale, g)
    {
      assert GroupRel(e, y, u, open', stale', g);
    }
  }

  lemma {:induction false} SimLook(e: Env, behind: bool, neg: bool, b: Node, bw: bool, lo: nat, x: MState, v: VState,
                                   open: set<nat>, stale: set<nat>)
    requires Entry(e, Look(behind, neg, b), bw, lo, x, v, open, stale)
    ensures RelAll(e, Sem(e, Look(behind, neg, b), bw, lo, x), Run(e, Look(behind, neg, b), bw, lo, v), open,
                   stale - Live(Look(behind, neg, b), lo))
    decreases Look(behind, neg, b), 0, 0, 0, 0
  {
    var cb := Code(e, b, behind, lo);
    assert LookCode(neg, cb)[0] == OLook(neg, |cb| + 1);
    assert stale == {};
    assert {} - Live(b, lo) == {};
    SimNode(e, b, behind, lo, x, v, open, {});
    LookRel(e, x, v, Sem(e, b, behind, lo, x), Run(e, b, behind, lo, v), open);
  }

  lemma LookRel(e: Env, x: MState, v: VState, ys: seq<MState>, us: seq<VState>, open: set<nat>)
    requires Rel(e, x, v, open, {}) && RelAll(e, ys, us, open, {})
    ensures ys == [] <==> us == []
    ensures ys != [] ==> Rel(e, MState(x.pos, ys[0].caps), VState(v.pos, us[0].w), open, {})
  {
    if ys != [] {
      var y, u := MState(x.pos, ys[0].caps), VState(v.pos, us[0].w);
      assert Rel(e, ys[0], us[0], open, {});
      forall g | 0 <= g < |y.caps|
        ensures GroupRel(e, y, u, open, {}, g)
      {
        assert GroupRel(e, ys[0], us[0], open, {}, g);
      }
    }
  }

  // ---- Quantifiers ----

  // Related states in front of an iteration of the loop.
  ghost predicate AtLoop(e: Env, q: Loop, x: MState, v: VState, open: set<nat>) {
    && EnvOk(e) && WellFormed(q.b) && RefsIn(q.b, |x.caps|) && CountersFit(e, q.b, q.bw, q.lo)
    && Rel(e, x, v, open, {})
    && q.lo + Groups(q.b) <= |x.caps|
    && (forall g :: q.lo <= g < q.lo + Groups(q.b) && g !in Live(q.b, q.lo) ==> x.caps[g].None?)
    && (forall g :: g in open ==> g < q.lo || q.lo + Groups(q.b) <= g)
    && q.plan.check == Scan(Code(e, q.b, q.bw, q.lo)).needAdv
    && (!q.plan.reset && Groups(q.b) > 0 ==> !Scan(Code(e, q.b, q.bw, q.lo)).needInit)
  }

  ghost predicate AllAtLoop(e: Env, q: Loop, ys: seq<MState>, us: seq<VState>, open: set<nat>) {
    |ys| == |us| && forall i :: 0 <= i < |ys| ==> AtLoop(e, q, ys[i], us[i], open)
  }

  function Again(e: Env, q: Loop, x: MState): seq<MState> {
    Sem(e, q.b, q.bw, q.lo, MState(x.pos, Forget(x.caps, q.lo, q.lo + Groups(q.b))))
  }

  function AgainV(e: Env, q: Loop, v: VState): seq<VState>
    requires WellFormed(q.b)
  {
    Run(e, q.b, q.bw, q.lo, ClearIf(q.plan.reset, v, q.lo, Groups(q.b)))
  }

  lemma ResetRel(e: Env, q: Loop, x: MState, v: VState, open: set<nat>)
    requires AtLoop(e, q, x, v, open)
    ensures Rel(e, MState(x.pos, Forget(x.caps, q.lo, q.lo + Groups(q.b))),
                ClearIf(q.plan.reset, v, q.lo, Groups(q.b)), open,
                if q.plan.reset then {} else Live(q.b, q.lo))
  {
    var xr := MState(x.pos, Forget(x.caps, q.lo, q.lo + Groups(q.b)));
    var vr := ClearIf(q.plan.reset, v, q.lo, Groups(q.b));
    var stale := if q.plan.reset then {} else Live(q.b, q.lo);
    forall g | 0 <= g < |x.caps|
      ensures GroupRel(e, xr, vr, open, stale, g)
    {
      assert GroupRel(e, x, v, open, {}, g);
    }
  }

  lemma AfterIter(e: Env, q: Loop, x: MState, v: VState, ys: seq<MState>, us: seq<VState>, open: set<nat>)
    requires AtLoop(e, q, x, v, open)
    requires RelAll(e, ys, us, open, {})
    requires AllSameCaps(MState(x.pos, Forget(x.caps, q.lo, q.lo + Groups(q.b))), ys, Live(q.b, q.lo))
    ensures AllAtLoop(e, q, ys, us, open)
  {
    forall i | 0 <= i < |ys|
      ensures AtLoop(e, q, ys[i], us[i], open)
    {
      assert ys[i] in ys;
      assert SameCaps(MState(x.pos, Forget(x.caps, q.lo, q.lo + Groups(q.b))), ys[i], Live(q.b, q.lo));
      assert Rel(e, ys[i], us[i], open, {});
    }
  }

  lemma IterEntry(e: Env, q: Loop, x: MState, v: VState, open: set<nat>, xr: MState, vr: VState, stale: set<nat>)
    requires AtLoop(e, q, x, v, open)
    requires xr == MState(x.pos, Forget(x.caps, q.lo, q.lo + Groups(q.b)))
    requires vr == ClearIf(q.plan.reset, v, q.lo, Groups(q.b))
    requires stale == if q.plan.reset then {} else Live(q.b, q.lo)
    ensures Entry(e, q.b, q.bw, q.lo, xr, vr, open, stale)
  {
    ResetRel(e, q, x, v, open);
    LiveInside(q.b, q.lo);
  }

  // One iteration keeps the situation: captures left over from the iteration before are all written
  // again before anything can see them.
  lemma {:induction false} SimIter(e: Env, q: Loop, x: MState, v: VState, open: set<nat>)
    requires AtLoop(e, q, x, v, open)
    ensures AllAtLoop(e, q, Again(e, q, x), AgainV(e, q, v), open)
    ensures AllOnward(e, q.bw, v, AgainV(e, q, v))
    ensures !q.plan.check ==> AllAdvance(e, q.bw, v, AgainV(e, q, v))
    decreases q.b, 2, 0, 0, 0
  {
    var xr := MState(x.pos, Forget(x.caps, q.lo, q.lo + Groups(q.b)));
    var vr := ClearIf(q.plan.reset, v, q.lo, Groups(q.b));
    var stale := if q.plan.reset then {} else Live(q.b, q.lo);
    IterEntry(e, q, x, v, open, xr, vr, stale);
    SimNode(e, q.b, q.bw, q.lo, xr, vr, open, stale);
    assert stale - Live(q.b, q.lo) == {};
    SemFrame(e, q.b, q.bw, q.lo, xr);
    AfterIter(e, q, x, v, Again(e, q, x), AgainV(e, q, v), open);
    RunOnward(e, q.b, q.bw, q.lo, vr);
    if !q.plan.check {
      NoCheckNeeded(e, q.b, q.bw, q.lo, vr);
    }
  }

  lemma {:induction false} NoRoomAgain(e: Env, b: Node, bw: bool, lo: nat, max: Option<nat>, greedy: bool, p: nat,
                                       ys: seq<MState>)
    requires Room(e, bw, p) == 0
    ensures RepAll(e, b, bw, lo, 0, max, greedy, p, ys) == []
    decreases |ys|
  {
    if ys != [] {
      NoRoomAgain(e, b, bw, lo, max, greedy, p, ys[1..]);
    }
  }

  lemma {:induction false} NoRoomAgainV(e: Env, q: Loop, once: bool, p: nat, us: seq<VState>)
    requires WellFormed(q.b) && Room(e, q.bw, p) == 0
    ensures RunStarAll(e, q, once, p, us) == []
    decreases |us|
  {
    if us != [] {
      NoRoomAgainV(e, q, once, p, us[1..]);
    }
  }

  // A maximum that a subject of this length can never exhaust.
  predicate Ample(max: Option<nat>, need: nat) {
    max.None? || max.value >= need
  }

  lemma SimPrefer(e: Env, greedy: bool, ys: seq<MState>, us: seq<VState>, x: MState, v: VState, open: set<nat>)
    requires RelAll(e, ys, us, open, {}) && Rel(e, x, v, open, {})
    ensures RelAll(e, Prefer(greedy, ys, x), Prefer(greedy, us, v), open, {})
  {
    RelConcat(e, ys, us, [x], [v], open, {});
    RelConcat(e, [x], [v], ys, us, open, {});
  }

  lemma {:induction false} SimStar(e: Env, q: Loop, once: bool, max: Option<nat>, x: MState, v: VState, open: set<nat>)
    requires AtLoop(e, q, x, v, open)
    requires if once then max == Some(1) else Ample(max, Room(e, q.bw, x.pos))
    ensures RelAll(e, Rep(e, q.b, q.bw, q.lo, 0, max, q.greedy, x), RunStar(e, q, once, v), open, {})
    decreases q.b, 3, Room(e, q.bw, x.pos), 1, 0
  {
    var us := AgainV(e, q, v);
    LoopIs(e, q, 0, max, x);
    StarIs(e, q, once, v);
    if max == Some(0) {
      NoRoomAgainV(e, q, once, v.pos, us);
      SimStop(e, q.greedy, x, v, open);
    } else {
      SimIter(e, q, x, v, open);
      SimStarAll(e, q, once, max, x.pos, Again(e, q, x), us, open);
      SimPrefer(e, q.greedy, RepAll(e, q.b, q.bw, q.lo, 0, max, q.greedy, x.pos, Again(e, q, x)),
                RunStarAll(e, q, once, v.pos, us), x, v, open);
    }
  }

  lemma SimStop(e: Env, greedy: bool, x: MState, v: VState, open: set<nat>)
    requires Rel(e, x, v, open, {})
    ensures RelAll(e, [x], Prefer(greedy, [], v), open, {})
  {
    assert Prefer(greedy, [], v) == [v];
  }

  lemma LoopIs(e: Env, q: Loop, min: nat, max: Option<nat>, y: MState)
    ensures Rep(e, q.b, q.bw, q.lo, min, max, q.greedy, y)
         == if max == Some(0) then [y]
            else
              var again := RepAll(e, q.b, q.bw, q.lo, min, max, q.greedy, y.pos, Again(e, q, y));
              if min > 0 then again else Prefer(q.greedy, again, y)
  {
    RepIs(e, q.b, q.bw, q.lo, min, max, q.greedy, y);
  }

  lemma StarIs(e: Env, q: Loop, once: bool, v: VState)
    requires WellFormed(q.b)
    ensures RunStar(e, q, once, v) == Prefer(q.greedy, RunStarAll(e, q, once, v.pos, AgainV(e, q, v)), v)
  {
  }

  lemma {:induction false} SimStarAll(e: Env, q: Loop, once: bool, max: Option<nat>, p: nat, ys: seq<MState>,
                                      us: seq<VState>, open: set<nat>)
    requires WellFormed(q.b) && AllAtLoop(e, q, ys, us, open)
    requires if once then max == Some(1) else max != Some(0) && Ample(max, Room(e, q.bw, p))
    ensures RelAll(e, RepAll(e, q.b, q.bw, q.lo, 0, max, q.greedy, p, ys), RunStarAll(e, q, once, p, us), open, {})
    decreases q.b, 3, Room(e, q.bw, p), 0, |ys|
  {
    if ys != [] {
      assert AtLoop(e, q, ys[0], us[0], open);
      SimStarAll(e, q, once, max, p, ys[1..], us[1..], open);
      var restE := RepAll(e, q.b, q.bw, q.lo, 0, max, q.greedy, p, ys[1..]);
      var restV := RunStarAll(e, q, once, p, us[1..]);
      if Advances(e, q.bw, p, ys[0].pos) {
        if once {
          RelConcat(e, [ys[0]], [us[0]], restE, restV, open, {});
        } else {
          SimStar(e, q, once, Dec(max), ys[0], us[0], open);
          RelConcat(e, Rep(e, q.b, q.bw, q.lo, 0, Dec(max), q.greedy, ys[0]), RunStar(e, q, once, us[0]), restE, restV,
                    open, {});
        }
      } else {
        RelConcat(e, [], [], restE, restV, open, {});
      }
    }
  }

  // One mandatory iteration that is known to advance, then the loop.
  lemma {:induction false} SimPlusAll(e: Env, q: Loop, max: Option<nat>, p: VState, ys: seq<MState>, us: seq<VState>,
                                      open: set<nat>)
    requires WellFormed(q.b) && AllAtLoop(e, q, ys, us, open) && AllAdvance(e, q.bw, p, us)
    requires max != Some(0) && Ample(max, Room(e, q.bw, p.pos))
    ensures RelAll(e, RepAll(e, q.b, q.bw, q.lo, 1, max, q.greedy, p.pos, ys), RunStarAll(e, q, false, p.pos, us),
                   open, {})
    decreases q.b, 3, Room(e, q.bw, p.pos), 0, |ys|
  {
    if ys != [] {
      assert AtLoop(e, q, ys[0], us[0], open);
      assert Advances(e, q.bw, p.pos, us[0].pos);
      SimPlusAll(e, q, max, p, ys[1..], us[1..], open);
      SimStar(e, q, false, Dec(max), ys[0], us[0], open);
      RelConcat(e, Rep(e, q.b, q.bw, q.lo, 0, Dec(max), q.greedy, ys[0]), RunStar(e, q, false, us[0]),
                RepAll(e, q.b, q.bw, q.lo, 1, max, q.greedy, p.pos, ys[1..]), RunStarAll(e, q, false, p.pos, us[1..]),
                open, {});
    }
  }

  // Mandatory iterations left when the counter stands at count.
  function MinLeft(count: nat, limit: nat): nat {
    if count > limit then count - limit else 0
  }

  // The counter stands for the maximum, or it cannot run out.
  predicate CountOk(max: Option<nat>, count: nat, min: nat, room: nat) {
    max == Some(count) || (max.None? && count >= min + room)
  }

  lemma {:induction false} SimCounted(e: Env, q: Loop, check: bool, count: nat, limit: nat, max: Option<nat>,
                                      x: MState, v: VState, open: set<nat>)
    requires AtLoop(e, q, x, v, open) && count > 0
    requires check || limit == 0 || !q.plan.check
    requires CountOk(max, count, Idle(q.plan.check, MinLeft(count, limit)), Room(e, q.bw, x.pos))
    ensures RelAll(e, RepAll(e, q.b, q.bw, q.lo, MinLeft(count, limit), max, q.greedy, x.pos, Again(e, q, x)),
                   RunCounted(e, q, check, count, limit, v), open, {})
    decreases q.b, 3, count, 1, 0
  {
    SimIter(e, q, x, v, open);
    SimCountedAll(e, q, check, count - 1, limit, max, v, Again(e, q, x), AgainV(e, q, v), open);
  }

  lemma {:induction false} SimCountedAll(e: Env, q: Loop, check: bool, left: nat, limit: nat, max: Option<nat>,
                                         p: VState,
                                         ys: seq<MState>, us: seq<VState>, open: set<nat>)
    requires WellFormed(q.b) && AllAtLoop(e, q, ys, us, open) && p.pos <= |e.input|
    requires AllOnward(e, q.bw, p, us) && (!q.plan.check ==> AllAdvance(e, q.bw, p, us))
    requires check || limit == 0 || !q.plan.check
    requires CountOk(max, left + 1, Idle(q.plan.check, MinLeft(left + 1, limit)), Room(e, q.bw, p.pos))
    ensures RelAll(e, RepAll(e, q.b, q.bw, q.lo, MinLeft(left + 1, limit), max, q.greedy, p.pos, ys),
                   RunCountedAll(e, q, check, left, limit, p.pos, us), open, {})
    decreases q.b, 3, left + 1, 0, |ys|
  {
    if ys != [] {
      assert AtLoop(e, q, ys[0], us[0], open);
      assert Onward(e, q.bw, p, us[0]);
      assert !q.plan.check ==> Advances(e, q.bw, p.pos, us[0].pos);
      SimCountedAll(e, q, check, left, limit, max, p, ys[1..], us[1..], open);
      var min := MinLeft(left + 1, limit);
      if left > 0 && !(min == 0 && !Advances(e, q.bw, p.pos, us[0].pos)) {
        SimCounted(e, q, check, left, limit, Dec(max), ys[0], us[0], open);
      }
      SimAfterOne(e, q, check, left, limit, max, p, ys[0], us[0], open);
      var head := if min == 0 && !Advances(e, q.bw, p.pos, ys[0].pos) then []
                  else Rep(e, q.b, q.bw, q.lo, Pred(min), Dec(max), q.greedy, ys[0]);
      RelConcat(e, head, AfterOne(e, q, check, left, limit, p.pos, us[0]),
                RepAll(e, q.b, q.bw, q.lo, min, max, q.greedy, p.pos, ys[1..]),
                RunCountedAll(e, q, check, left, limit, p.pos, us[1..]), open, {});
    }
  }

  lemma SimAfterOne(e: Env, q: Loop, check: bool, left: nat, limit: nat, max: Option<nat>, p: VState, y: MState,
                    u: VState, open: set<nat>)
    requires AtLoop(e, q, y, u, open) && p.pos <= |e.input|
    requires Onward(e, q.bw, p, u) && (!q.plan.check ==> Advances(e, q.bw, p.pos, u.pos))
    requires check || limit == 0 || !q.plan.check
    requires CountOk(max, left + 1, Idle(q.plan.check, MinLeft(left + 1, limit)), Room(e, q.bw, p.pos))
    requires left > 0 && !(MinLeft(left + 1, limit) == 0 && !Advances(e, q.bw, p.pos, u.pos)) ==>
      RelAll(e, RepAll(e, q.b, q.bw, q.lo, MinLeft(left, limit), Dec(max), q.greedy, y.pos, Again(e, q, y)),
             RunCounted(e, q, check, left, limit, u), open, {})
    ensures var min := MinLeft(left + 1, limit);
      RelAll(e,
             if min == 0 && !Advances(e, q.bw, p.pos, y.pos) then []
             else Rep(e, q.b, q.bw, q.lo, Pred(min), Dec(max), q.greedy, y),
             AfterOne(e, q, check, left, limit, p.pos, u), open, {})
  {
    var min := MinLeft(left + 1, limit);
    if min == 0 && !Advances(e, q.bw, p.pos, y.pos) {
      AfterStuck(e, q, check, left, limit, p, u);
    } else {
      AfterMoved(e, q, check, left, limit, p, u);
      assert Pred(min) == MinLeft(left, limit);
      LoopIs(e, q, Pred(min), Dec(max), y);
      var again := RepAll(e, q.b, q.bw, q.lo, Pred(min), Dec(max), q.greedy, y.pos, Again(e, q, y));
      if left == 0 {
        SimLast(e, q, Dec(max), y, u, again, open);
      } else if left <= limit {
        SimPrefer(e, q.greedy, again, RunCounted(e, q, check, left, limit, u), y, u, open);
      }
    }
  }

  // An empty iteration that does not count ends the loop.
  lemma AfterStuck(e: Env, q: Loop, check: bool, left: nat, limit: nat, p: VState, u: VState)
    requires WellFormed(q.b) && MinLeft(left + 1, limit) == 0 && !Advances(e, q.bw, p.pos, u.pos)
    requires Onward(e, q.bw, p, u) && (!q.plan.check ==> Advances(e, q.bw, p.pos, u.pos))
    requires check || limit == 0 || !q.plan.check
    ensures AfterOne(e, q, check, left, limit, p.pos, u) == []
  {
  }

  lemma AfterMoved(e: Env, q: Loop, check: bool, left: nat, limit: nat, p: VState, u: VState)
    requires WellFormed(q.b) && !(MinLeft(left + 1, limit) == 0 && !Advances(e, q.bw, p.pos, u.pos))
    ensures AfterOne(e, q, check, left, limit, p.pos, u)
         == if left > limit then RunCounted(e, q, check, left, limit, u)
            else if left != 0 then Prefer(q.greedy, RunCounted(e, q, check, left, limit, u), u)
            else [u]
  {
  }

  // The counter has run out, so either the maximum has too or the subject has.
  lemma SimLast(e: Env, q: Loop, max: Option<nat>, y: MState, u: VState, again: seq<MState>, open: set<nat>)
    requires AtLoop(e, q, y, u, open)
    requires max == Some(0) || (max.None? && Room(e, q.bw, y.pos) == 0)
    requires again == RepAll(e, q.b, q.bw, q.lo, 0, max, q.greedy, y.pos, Again(e, q, y))
    ensures RelAll(e, if max == Some(0) then [y] else Prefer(q.greedy, again, y), [u], open, {})
  {
    if max.None? {
      NoRoomAgain(e, q.b, q.bw, q.lo, max, q.greedy, y.pos, Again(e, q, y));
      assert Prefer(q.greedy, again, y) == [y];
    }
  }

  lemma LoopNeedsInit(a: seq<Op>, check: bool, min: nat, max: nat, greedy: bool)
    requires min <= max && max > 0
    ensures Scan(LoopCode(a, check, min, max, greedy, 0, 0)).needInit
  {
    match ShapeOf(min, max, check)
    case Nothing =>
    case Star(once) =>
      assert LoopCode(a, check, min, max, greedy, 0, 0)[0].OSplit?;
    case Optional =>
      assert LoopCode(a, check, min, max, greedy, 0, 0)[0].OSplit?;
    case Plus =>
      ScanOne(OSplit(!greedy, -(|a| + 1)));
      ScanConcat(a, [OSplit(!greedy, -(|a| + 1))]);
    case Counted =>
      CountedNeedsInit(a, check && min != max, greedy, max, max - min);
  }

  lemma CountedNeedsInit(a: seq<Op>, check: bool, greedy: bool, count: nat, limit: nat)
    ensures Scan(CountedCode(a, check, greedy, count, limit, 0, 0)).needInit
  {
    var code := CountedCode(a, check, greedy, count, limit, 0, 0);
    var last := code[|code| - 1];
    var front := [OSetI32(0, count)] + If(check, OSetCharPos(0)) + a;
    assert code == front + [last];
    ScanOne(last);
    ScanConcat(front, [last]);
  }

  lemma {:induction false} SimQuant(e: Env, n: Node, bw: bool, lo: nat, x: MState, v: VState, open: set<nat>,
                                    stale: set<nat>)
    requires n.Quant? && Entry(e, n, bw, lo, x, v, open, stale)
    ensures RelAll(e, Sem(e, n, bw, lo, x), Run(e, n, bw, lo, v), open, stale - Live(n, lo))
    decreases n, 0, 0, 0, 0
  {
    var Quant(b, min, max, greedy) := n;
    var c, g, m := Code(e, b, bw, lo), Groups(b), MaxInt(max);
    var p := PlanOf(c, g, min);
    var q := Loop(b, bw, lo, p, greedy);
    var v1 := ClearIf(p.pre, v, lo, g);
    PreRel(e, p.pre, lo, g, x, v, open, stale);
    if m == 0 {
      assert stale - Live(n, lo) == stale;
    } else {
      QuantNotStale(p, c, lo, g, min, m, greedy);
      assert stale == {} && stale - Live(n, lo) == {};
      SimLoop(e, q, min, max, x, v1, open);
    }
  }

  lemma PreRel(e: Env, pre: bool, lo: nat, g: nat, x: MState, v: VState, open: set<nat>, stale: set<nat>)
    requires Rel(e, x, v, open, stale) && Fresh(x, lo, lo + g)
    ensures Rel(e, x, ClearIf(pre, v, lo, g), open, stale)
  {
    forall h | 0 <= h < |x.caps|
      ensures GroupRel(e, x, ClearIf(pre, v, lo, g), open, stale, h)
    {
      assert GroupRel(e, x, v, open, stale, h);
    }
  }

  lemma QuantNotStale(p: Plan, c: seq<Op>, lo: nat, g: nat, min: nat, max: nat, greedy: bool)
    requires (g == 0 ==> !p.reset && !p.pre) && min <= max && max > 0
    ensures Scan(QuantCode(p, c, lo, g, min, max, greedy, 0, 0)).needInit
  {
    var loop := LoopCode(WithReset(p, c, lo, g), p.check, min, max, greedy, 0, 0);
    LoopNeedsInit(WithReset(p, c, lo, g), p.check, min, max, greedy);
    if p.pre {
      var op := OSaveReset(lo, lo + g - 1);
      ScanConcat([op], loop);
      assert ([op] + loop)[1..] == loop;
    } else {
      assert [] + loop == loop;
    }
  }

  // The loop of a quantifier against RepeatMatcher.
  lemma {:induction false} SimLoop(e: Env, q: Loop, min: nat, max: Option<nat>, x: MState, v: VState, open: set<nat>)
    requires AtLoop(e, q, x, v, open)
    requires min <= MaxInt(max) <= INT32_MAX && 0 < MaxInt(max)
    requires CounterFits(ShapeOf(min, MaxInt(max), q.plan.check).Counted?, Idle(q.plan.check, min), max, |e.input|)
    ensures RelAll(e, Rep(e, q.b, q.bw, q.lo, min, max, q.greedy, x), RunQuant(e, q, min, MaxInt(max), v), open, {})
    decreases q.b, 4, 0, 0, 0
  {
    var m := MaxInt(max);
    match ShapeOf(min, m, q.plan.check)
    case Nothing =>
    case Star(once) =>
      SimStar(e, q, once, max, x, v, open);
    case Optional =>
      SimCounted(e, q, q.plan.check, m, m, max, x, v, open);
      SimPrefer(e, q.greedy, RepAll(e, q.b, q.bw, q.lo, 0, max, q.greedy, x.pos, Again(e, q, x)),
                RunCounted(e, q, q.plan.check, m, m, v), x, v, open);
    case Plus =>
      SimIter(e, q, x, v, open);
      SimPlusAll(e, q, max, v, Again(e, q, x), AgainV(e, q, v), open);
    case Counted =>
      SimCounted(e, q, q.plan.check && min != m, m, m - min, max, x, v, open);
  }
}
