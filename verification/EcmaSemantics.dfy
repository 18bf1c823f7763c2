// The matching rules of section 22.2.2 of ECMA-262: matchers that take a continuation, and the
// same rules as the ordered list of all ways to match. The two are proved to agree.
module EcmaSemantics {
  import opened RegexSyntax

  // A MatchState of section 22.2.2.1: an end index and one entry per capture group.
  datatype MState = MState(pos: nat, caps: seq<Option<(nat, nat)>>)

  type Cont = MState -> Option<MState>

  function SetCap(caps: seq<Option<(nat, nat)>>, g: nat, v: Option<(nat, nat)>): (r: seq<Option<(nat, nat)>>)
    ensures |r| == |caps|
  {
    if g < |caps| then caps[g := v] else caps
  }

  // Make the groups lo .. hi-1 undefined.
  function Forget(caps: seq<Option<(nat, nat)>>, lo: nat, hi: nat): (r: seq<Option<(nat, nat)>>)
    ensures |r| == |caps|
    ensures forall g :: 0 <= g < |caps| ==> r[g] == if lo <= g < hi then None else caps[g]
  {
    seq(|caps|, g requires 0 <= g < |caps| => if lo <= g < hi then None else caps[g])
  }

  // The state after a group that was entered at position p has been left.
  function Close(bw: bool, lo: nat, p: nat, y: MState): MState {
    MState(y.pos, SetCap(y.caps, lo, Some(if bw then (y.pos, p) else (p, y.pos))))
  }

  // The first group of the list that took part in the match.
  function FirstSet(caps: seq<Option<(nat, nat)>>, groups: seq<nat>): Option<(nat, nat)> {
    if groups == [] then None
    else if groups[0] < |caps| && caps[groups[0]].Some? then caps[groups[0]]
    else FirstSet(caps, groups[1..])
  }

  // The position after a back reference, if the text it names occurs again here.
  function BackRefTo(e: Env, bw: bool, icase: bool, groups: seq<nat>, x: MState): Option<nat> {
    var span := FirstSet(x.caps, groups);
    if span.None? then Some(x.pos)
    else
      var (s, t) := span.value;
      if !(s <= t <= |e.input|) then None
      else if bw then
        if t - s <= x.pos <= |e.input| && SameText(e, icase, s, t, x.pos - (t - s)) then Some(x.pos - (t - s)) else None
      else
        if x.pos + (t - s) <= |e.input| && SameText(e, icase, s, t, x.pos) then Some(x.pos + (t - s)) else None
  }

  // Where matching goes on after an atom that neither branches nor captures.
  function AtomTo(e: Env, n: Node, bw: bool, x: MState): Option<nat>
    requires n.Empty? || n.Char? || n.Assert? || n.BackRef?
  {
    match n
    case Empty => Some(x.pos)
    case Char(cls) =>
      var ch := Peek(e, bw, x.pos);
      if ch.Some? && InClass(e, cls, ch.value) then Some(Next(bw, x.pos)) else None
    case Assert(a) => if x.pos <= |e.input| && Holds(e, a, x.pos) then Some(x.pos) else None
    case BackRef(groups, icase) => BackRefTo(e, bw, icase, groups, x)
  }

  function Dec(max: Option<nat>): Option<nat> {
    if max.Some? && max.value > 0 then Some(max.value - 1) else max
  }

  function Pred(min: nat): nat {
    if min == 0 then 0 else min - 1
  }

  // ---- Matchers with continuations ----

  // lo is the number of the first group inside n; bw is true inside a lookbehind.
  function Match(e: Env, n: Node, bw: bool, lo: nat, x: MState, c: Cont): Option<MState>
    decreases n, 1, 0, 0, 0, e
  {
    match n
    case Empty => c(x)
    case Char(_) => Resume(AtomTo(e, n, bw, x), x, c)
    case Assert(_) => Resume(AtomTo(e, n, bw, x), x, c)
    case BackRef(_, _) => Resume(AtomTo(e, n, bw, x), x, c)
    case Seq(l, r) =>
      if bw then Match(e, r, bw, lo + Groups(l), x, Then(e, l, bw, lo, c))
      else Match(e, l, bw, lo, x, Then(e, r, bw, lo + Groups(l), c))
    case Alt(l, r) =>
      var first := Match(e, l, bw, lo, x, c);
      if first.Some? then first else Match(e, r, bw, lo + Groups(l), x, c)
    case Group(b) => Match(e, b, bw, lo + 1, x, ThenClose(bw, lo, x.pos, c))
    case Look(behind, neg, b) =>
      var r := Match(e, b, behind, lo, x, Succeed());
      if neg then (if r.Some? then None else c(x))
      else if r.None? then None else c(MState(x.pos, r.value.caps))
    case Quant(b, min, max, greedy) => Repeat(e, b, bw, lo, min, max, greedy, x, c)
  }

  function Resume(to: Option<nat>, x: MState, c: Cont): Option<MState> {
    if to.Some? then c(MState(to.value, x.caps)) else None
  }

  function Succeed(): Cont {
    (y: MState) => Some(y)
  }

  function Then(e: Env, n: Node, bw: bool, lo: nat, c: Cont): Cont
    decreases n, 2, 0, 0, 0, e
  {
    (y: MState) => Match(e, n, bw, lo, y, c)
  }

  function ThenClose(bw: bool, lo: nat, p: nat, c: Cont): Cont {
    (y: MState) => c(Close(bw, lo, p, y))
  }

  // RepeatMatcher, section 22.2.2.3.1.
  function Repeat(e: Env, b: Node, bw: bool, lo: nat, min: nat, max: Option<nat>, greedy: bool,
                  x: MState, c: Cont): Option<MState>
    decreases b, 3, min, Room(e, bw, x.pos), 1, e
  {
    if max == Some(0) then c(x)
    else
      var xr := MState(x.pos, Forget(x.caps, lo, lo + Groups(b)));
      var d := ThenRepeat(e, b, bw, lo, min, max, greedy, x.pos, c);
      if min > 0 then Match(e, b, bw, lo, xr, d)
      else if greedy then
        var z := Match(e, b, bw, lo, xr, d);
        if z.Some? then z else c(x)
      else
        var z := c(x);
        if z.Some? then z else Match(e, b, bw, lo, xr, d)
  }

  // The continuation d of RepeatMatcher: once the minimum is reached an iteration that did not
  // advance fails.
  function ThenRepeat(e: Env, b: Node, bw: bool, lo: nat, min: nat, max: Option<nat>, greedy: bool,
                      p: nat, c: Cont): Cont
    decreases b, 3, min, Room(e, bw, p), 0, e
  {
    (y: MState) =>
      if min == 0 && !Advances(e, bw, p, y.pos) then None
      else Repeat(e, b, bw, lo, Pred(min), Dec(max), greedy, y, c)
  }

  // ---- All ways to match, in order of preference ----

  function Sem(e: Env, n: Node, bw: bool, lo: nat, x: MState): seq<MState>
    decreases n, 1, 0, 0, 0, 0, e
  {
    match n
    case Empty => [x]
    case Char(_) => At(AtomTo(e, n, bw, x), x)
    case Assert(_) => At(AtomTo(e, n, bw, x), x)
    case BackRef(_, _) => At(AtomTo(e, n, bw, x), x)
    case Seq(l, r) =>
      if bw then SemAll(e, l, bw, lo, Sem(e, r, bw, lo + Groups(l), x))
      else SemAll(e, r, bw, lo + Groups(l), Sem(e, l, bw, lo, x))
    case Alt(l, r) => Sem(e, l, bw, lo, x) + Sem(e, r, bw, lo + Groups(l), x)
    case Group(b) => CloseAll(bw, lo, x.pos, Sem(e, b, bw, lo + 1, x))
    case Look(behind, neg, b) =>
      var ys := Sem(e, b, behind, lo, x);
      if neg then (if ys == [] then [x] else [])
      else if ys == [] then [] else [MState(x.pos, ys[0].caps)]
    case Quant(b, min, max, greedy) => Rep(e, b, bw, lo, min, max, greedy, x)
  }

  function At(to: Option<nat>, x: MState): seq<MState> {
    if to.Some? then [MState(to.value, x.caps)] else []
  }

  function SemAll(e: Env, n: Node, bw: bool, lo: nat, xs: seq<MState>): seq<MState>
    decreases n, 2, |xs|, 0, 0, 0, e
  {
    if xs == [] then [] else Sem(e, n, bw, lo, xs[0]) + SemAll(e, n, bw, lo, xs[1..])
  }

  function CloseAll(bw: bool, lo: nat, p: nat, ys: seq<MState>): (r: seq<MState>)
    ensures |r| == |ys|
    ensures forall i :: 0 <= i < |ys| ==> r[i] == Close(bw, lo, p, ys[i])
  {
    if ys == [] then [] else [Close(bw, lo, p, ys[0])] + CloseAll(bw, lo, p, ys[1..])
  }

  function Prefer<T>(greedy: bool, again: seq<T>, stop: T): seq<T> {
    if greedy then again + [stop] else [stop] + again
  }

  function Rep(e: Env, b: Node, bw: bool, lo: nat, min: nat, max: Option<nat>, greedy: bool, x: MState): seq<MState>
    decreases b, 3, min, Room(e, bw, x.pos), 1, 0, e
  {
    if max == Some(0) then [x]
    else
      var ys := Sem(e, b, bw, lo, MState(x.pos, Forget(x.caps, lo, lo + Groups(b))));
      var again := RepAll(e, b, bw, lo, min, max, greedy, x.pos, ys);
      if min > 0 then again else Prefer(greedy, again, x)
  }

  function RepAll(e: Env, b: Node, bw: bool, lo: nat, min: nat, max: Option<nat>, greedy: bool,
                  p: nat, ys: seq<MState>): seq<MState>
    decreases b, 3, min, Room(e, bw, p), 0, |ys|, e
  {
    if ys == [] then []
    else
      (if min == 0 && !Advances(e, bw, p, ys[0].pos) then []
       else Rep(e, b, bw, lo, Pred(min), Dec(max), greedy, ys[0]))
      + RepAll(e, b, bw, lo, min, max, greedy, p, ys[1..])
  }

  lemma RepIs(e: Env, b: Node, bw: bool, lo: nat, min: nat, max: Option<nat>, greedy: bool, x: MState)
    ensures Rep(e, b, bw, lo, min, max, greedy, x)
         == if max == Some(0) then [x]
            else
              var ys := Sem(e, b, bw, lo, MState(x.pos, Forget(x.caps, lo, lo + Groups(b))));
              var again := RepAll(e, b, bw, lo, min, max, greedy, x.pos, ys);
              if min > 0 then again else Prefer(greedy, again, x)
  {
  }

  // ---- The two readings agree ----

  // What a continuation makes of an ordered list of states: the first success.
  function First(xs: seq<MState>, c: Cont): Option<MState> {
    if xs == [] then None else if c(xs[0]).Some? then c(xs[0]) else First(xs[1..], c)
  }

  lemma {:induction false} FirstConcat(xs: seq<MState>, ys: seq<MState>, c: Cont)
    ensures First(xs + ys, c) == if First(xs, c).Some? then First(xs, c) else First(ys, c)
  {
    if xs == [] {
      assert xs + ys == ys;
    } else {
      assert (xs + ys)[1..] == xs[1..] + ys;
      FirstConcat(xs[1..], ys, c);
    }
  }

  lemma FirstOne(x: MState, c: Cont)
    ensures First([x], c) == c(x)
  {
    assert First([x][1..], c).None?;
  }

  lemma FirstAt(to: Option<nat>, x: MState, c: Cont)
    ensures Resume(to, x, c) == First(At(to, x), c)
  {
    if to.Some? {
      FirstOne(MState(to.value, x.caps), c);
    }
  }

  lemma FirstSucceed(xs: seq<MState>)
    ensures First(xs, Succeed()) == if xs == [] then None else Some(xs[0])
  {
  }

  // Running a matcher with a continuation is trying the continuation on every way to match, in order.
  lemma {:induction false} MatchIsFirst(e: Env, n: Node, bw: bool, lo: nat, x: MState, c: Cont)
    ensures Match(e, n, bw, lo, x, c) == First(Sem(e, n, bw, lo, x), c)
    decreases n, 1, 0, 0, 0, 0
  {
    match n
    case Empty =>
      FirstOne(x, c);
    case Char(_) =>
      FirstAt(AtomTo(e, n, bw, x), x, c);
    case Assert(_) =>
      FirstAt(AtomTo(e, n, bw, x), x, c);
    case BackRef(_, _) =>
      FirstAt(AtomTo(e, n, bw, x), x, c);
    case Seq(l, r) =>
      if bw {
        MatchIsFirst(e, r, bw, lo + Groups(l), x, Then(e, l, bw, lo, c));
        FirstThen(e, l, bw, lo, Sem(e, r, bw, lo + Groups(l), x), c);
      } else {
        MatchIsFirst(e, l, bw, lo, x, Then(e, r, bw, lo + Groups(l), c));
        FirstThen(e, r, bw, lo + Groups(l), Sem(e, l, bw, lo, x), c);
      }
    case Alt(l, r) =>
      MatchIsFirst(e, l, bw, lo, x, c);
      MatchIsFirst(e, r, bw, lo + Groups(l), x, c);
      FirstConcat(Sem(e, l, bw, lo, x), Sem(e, r, bw, lo + Groups(l), x), c);
    case Group(b) =>
      MatchIsFirst(e, b, bw, lo + 1, x, ThenClose(bw, lo, x.pos, c));
      FirstThenClose(bw, lo, x.pos, Sem(e, b, bw, lo + 1, x), c);
    case Look(behind, neg, b) =>
      MatchIsFirst(e, b, behind, lo, x, Succeed());
      var ys := Sem(e, b, behind, lo, x);
      FirstSucceed(ys);
      if !neg && ys != [] {
        FirstOne(MState(x.pos, ys[0].caps), c);
      }
      FirstOne(x, c);
    case Quant(b, min, max, greedy) =>
      RepeatIsFirst(e, b, bw, lo, min, max, greedy, x, c);
  }

  lemma {:induction false} FirstThen(e: Env, n: Node, bw: bool, lo: nat, xs: seq<MState>, c: Cont)
    ensures First(xs, Then(e, n, bw, lo, c)) == First(SemAll(e, n, bw, lo, xs), c)
    decreases n, 2, |xs|, 0, 0, 0
  {
    if xs != [] {
      MatchIsFirst(e, n, bw, lo, xs[0], c);
      FirstThen(e, n, bw, lo, xs[1..], c);
      FirstConcat(Sem(e, n, bw, lo, xs[0]), SemAll(e, n, bw, lo, xs[1..]), c);
    }
  }

  lemma {:induction false} FirstThenClose(bw: bool, lo: nat, p: nat, xs: seq<MState>, c: Cont)
    ensures First(xs, ThenClose(bw, lo, p, c)) == First(CloseAll(bw, lo, p, xs), c)
  {
    if xs != [] {
      FirstThenClose(bw, lo, p, xs[1..], c);
      assert CloseAll(bw, lo, p, xs)[1..] == CloseAll(bw, lo, p, xs[1..]);
    }
  }

  lemma {:induction false} RepeatIsFirst(e: Env, b: Node, bw: bool, lo: nat, min: nat, max: Option<nat>,
                                         greedy: bool, x: MState, c: Cont)
    ensures Repeat(e, b, bw, lo, min, max, greedy, x, c) == First(Rep(e, b, bw, lo, min, max, greedy, x), c)
    decreases b, 3, min, Room(e, bw, x.pos), 1, 0
  {
    if max != Some(0) {
      var xr := MState(x.pos, Forget(x.caps, lo, lo + Groups(b)));
      var d := ThenRepeat(e, b, bw, lo, min, max, greedy, x.pos, c);
      var ys := Sem(e, b, bw, lo, xr);
      var again := RepAll(e, b, bw, lo, min, max, greedy, x.pos, ys);
      MatchIsFirst(e, b, bw, lo, xr, d);
      FirstThenRepeat(e, b, bw, lo, min, max, greedy, x.pos, ys, c);
      FirstConcat(again, [x], c);
      FirstConcat([x], again, c);
    }
  }

  lemma {:induction false} FirstThenRepeat(e: Env, b: Node, bw: bool, lo: nat, min: nat, max: Option<nat>,
                                           greedy: bool, p: nat, ys: seq<MState>, c: Cont)
    ensures First(ys, ThenRepeat(e, b, bw, lo, min, max, greedy, p, c))
         == First(RepAll(e, b, bw, lo, min, max, greedy, p, ys), c)
    decreases b, 3, min, Room(e, bw, p), 0, |ys|
  {
    if ys != [] {
      var head := if min == 0 && !Advances(e, bw, p, ys[0].pos) then []
                  else Rep(e, b, bw, lo, Pred(min), Dec(max), greedy, ys[0]);
      if !(min == 0 && !Advances(e, bw, p, ys[0].pos)) {
        RepeatIsFirst(e, b, bw, lo, Pred(min), Dec(max), greedy, ys[0], c);
      }
      FirstThenRepeat(e, b, bw, lo, min, max, greedy, p, ys[1..], c);
      FirstConcat(head, RepAll(e, b, bw, lo, min, max, greedy, p, ys[1..]), c);
    }
  }
}
