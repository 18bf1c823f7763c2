// Matching never goes against its direction, so an iteration that does not advance is one that ends
// where it began: the guard of RepeatMatcher in section 22.2.2.3.1 of ECMA-262.
module Direction {
  import opened RegexSyntax
  import opened EcmaSemantics

  predicate Along(e: Env, bw: bool, p: nat, q: nat) {
    q <= |e.input| && if bw then q <= p else p <= q
  }

  ghost predicate AllAlong(e: Env, bw: bool, p: nat, ys: seq<MState>) {
    forall y :: y in ys ==> Along(e, bw, p, y.pos)
  }

  // In every iteration, from any state, the two readings of the guard agree.
  lemma EmptyIteration(e: Env, b: Node, bw: bool, lo: nat, x: MState, y: MState)
    requires x.pos <= |e.input| && y in Sem(e, b, bw, lo, x)
    ensures !Advances(e, bw, x.pos, y.pos) <==> y.pos == x.pos
  {
    SemAlong(e, b, bw, lo, x);
    assert Along(e, bw, x.pos, y.pos);
  }

  lemma {:induction false} SemAlong(e: Env, n: Node, bw: bool, lo: nat, x: MState)
    requires x.pos <= |e.input|
    ensures AllAlong(e, bw, x.pos, Sem(e, n, bw, lo, x))
    decreases n, 1, 0, 0, 0
  {
    match n
    case Empty =>
    case Char(_) =>
    case Assert(_) =>
    case BackRef(_, _) =>
    case Seq(l, r) =>
      if bw {
        SemAlong(e, r, bw, lo + Groups(l), x);
        SemAllAlong(e, l, bw, lo, x.pos, Sem(e, r, bw, lo + Groups(l), x));
      } else {
        SemAlong(e, l, bw, lo, x);
        SemAllAlong(e, r, bw, lo + Groups(l), x.pos, Sem(e, l, bw, lo, x));
      }
    case Alt(l, r) =>
      SemAlong(e, l, bw, lo, x);
      SemAlong(e, r, bw, lo + Groups(l), x);
    case Group(b) =>
      SemAlong(e, b, bw, lo + 1, x);
      CloseAlong(e, bw, lo, x.pos, Sem(e, b, bw, lo + 1, x));
    case Look(_, _, _) =>
    case Quant(b, min, max, greedy) =>
      RepAlong(e, b, bw, lo, min, max, greedy, x.pos, x);
  }

  lemma CloseAlong(e: Env, bw: bool, lo: nat, p: nat, ys: seq<MState>)
    requires AllAlong(e, bw, p, ys)
    ensures AllAlong(e, bw, p, CloseAll(bw, lo, p, ys))
  {
    forall z | z in CloseAll(bw, lo, p, ys)
      ensures Along(e, bw, p, z.pos)
    {
      var k :| 0 <= k < |ys| && z == Close(bw, lo, p, ys[k]);
      assert ys[k] in ys;
    }
  }

  lemma {:induction false} SemAllAlong(e: Env, n: Node, bw: bool, lo: nat, p: nat, xs: seq<MState>)
    requires AllAlong(e, bw, p, xs)
    ensures AllAlong(e, bw, p, SemAll(e, n, bw, lo, xs))
    decreases n, 2, |xs|, 0, 0
  {
    if xs != [] {
      assert Along(e, bw, p, xs[0].pos);
      SemAlong(e, n, bw, lo, xs[0]);
      SemAllAlong(e, n, bw, lo, p, xs[1..]);
    }
  }

  lemma {:induction false} RepAlong(e: Env, b: Node, bw: bool, lo: nat, min: nat, max: Option<nat>, greedy: bool,
                                    p: nat, x: MState)
    requires Along(e, bw, p, x.pos)
    ensures AllAlong(e, bw, p, Rep(e, b, bw, lo, min, max, greedy, x))
    decreases b, 3, min, Room(e, bw, x.pos), 1
  {
    if max != Some(0) {
      var xr := MState(x.pos, Forget(x.caps, lo, lo + Groups(b)));
      SemAlong(e, b, bw, lo, xr);
      RepAllAlong(e, b, bw, lo, min, max, greedy, p, x.pos, Sem(e, b, bw, lo, xr));
      RepIs(e, b, bw, lo, min, max, greedy, x);
    }
  }

  lemma {:induction false} RepAllAlong(e: Env, b: Node, bw: bool, lo: nat, min: nat, max: Option<nat>, greedy: bool,
                                       p: nat, q: nat,
                                       ys: seq<MState>)
    requires Along(e, bw, p, q) && AllAlong(e, bw, q, ys)
    ensures AllAlong(e, bw, p, RepAll(e, b, bw, lo, min, max, greedy, q, ys))
    decreases b, 3, min, Room(e, bw, q), 0, |ys|
  {
    if ys != [] {
      assert Along(e, bw, q, ys[0].pos);
      if !(min == 0 && !Advances(e, bw, q, ys[0].pos)) {
        RepAlong(e, b, bw, lo, Pred(min), Dec(max), greedy, p, ys[0]);
      }
      RepAllAlong(e, b, bw, lo, min, max, greedy, p, q, ys[1..]);
    }
  }
}
