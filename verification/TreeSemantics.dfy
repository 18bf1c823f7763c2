// The matching rules of section 22.2.2 of ECMA-262 on the parse tree itself: which characters a class and an assertion
// are about, how groups are numbered, and how terms, alternatives and repetitions are put together with continuations.
// This is what the patterns of ParseTree, and the matchers of EcmaSemantics on them, are proved to mean.
module TreeSemantics {
  import opened RegexSyntax
  import opened EcmaSemantics
  import opened ParseTree

  // ---- Characters ----

  const UPPER := "ABCDEFGHIJKLMNOPQRSTUVWXYZ"
  const LOWER := "abcdefghijklmnopqrstuvwxyz"
  const NUMBERS := "0123456789"

  predicate IsOneOf(c: nat, s: string) {
    exists i :: 0 <= i < |s| && s[i] as int == c
  }

  // WordCharacters, section 22.2.2.9.3. Without regard to case the long s and the Kelvin sign are the letters s and k.
  predicate IsWord(c: nat, icase: bool) {
    || IsOneOf(c, UPPER) || IsOneOf(c, LOWER) || IsOneOf(c, NUMBERS) || IsOneOf(c, "_")
    || (icase && IsOneOf(c, "\U{017f}\U{212a}"))
  }

  // LineTerminator, section 12.3.
  predicate EndsLine(c: nat) {
    IsOneOf(c, "\n\r\U{2028}\U{2029}")
  }

  // CharacterSetMatcher, section 22.2.2.7.1: does the set have the character?
  predicate HasChar(e: Env, cls: CharClass, ch: nat) {
    match cls
    case Lit(c, icase) => c == ch || (icase && e.canon(c) == e.canon(ch))
    case Dot(all) => all || !EndsLine(ch)
    case Space(neg) => if neg then !e.isSpace(ch) else e.isSpace(ch)
    case Points(points, icase) =>
      var x := if icase then e.canon(ch) else ch;
      exists i :: 0 <= i < |points| / 2 && points[2 * i] <= x < points[2 * i + 1]
  }

  // IsWordChar, section 22.2.2.4.1, for the character at i.
  predicate WordAt(e: Env, i: int, icase: bool) {
    0 <= i < |e.input| && IsWord(e.input[i], icase)
  }

  // CompileAssertion, section 22.2.2.4.
  predicate IsAt(e: Env, a: Assertion, pos: nat)
    requires pos <= |e.input|
  {
    match a
    case LineStart(multi) => pos == 0 || (multi && EndsLine(e.input[pos - 1]))
    case LineEnd(multi) => pos == |e.input| || (multi && EndsLine(e.input[pos]))
    case WordBoundary(neg, icase) => (WordAt(e, pos - 1, icase) == WordAt(e, pos, icase)) == neg
  }

  // ---- Groups: one for each left parenthesis that captures, from left to right ----

  function AtomCaptures(a: Atom): nat
    decreases a, 0
  {
    match a
    case AChar(_) => 0
    case AAssert(_) => 0
    case ABackRef(_, _) => 0
    case ACapture(d) => 1 + Captures(d)
    case AParen(d) => Captures(d)
    case ALook(_, _, d) => Captures(d)
  }

  // In the first k terms.
  function TermCaptures(a: Alternative, k: nat): nat
    requires k <= |a.terms|
    decreases a, k
  {
    if k == 0 then 0 else TermCaptures(a, k - 1) + AtomCaptures(a.terms[k - 1].atom)
  }

  function AlternativeCaptures(a: Alternative): nat
    decreases a, |a.terms| + 1
  {
    TermCaptures(a, |a.terms|)
  }

  // In the alternatives from i on, the first being 0.
  function CapturesFrom(d: Disj, i: nat): nat
    requires i <= |d.rest| + 1
    decreases d, |d.rest| + 1 - i
  {
    if i > |d.rest| then 0
    else AlternativeCaptures(if i == 0 then d.first else d.rest[i - 1]) + CapturesFrom(d, i + 1)
  }

  function Captures(d: Disj): nat
    decreases d, |d.rest| + 2
  {
    CapturesFrom(d, 0)
  }

  // ---- What is an error: a maximum below the minimum, and sets of too many intervals ----

  predicate Accepted(d: Disj)
    decreases d
  {
    AcceptedAlternative(d.first) && forall i :: 0 <= i < |d.rest| ==> AcceptedAlternative(d.rest[i])
  }

  predicate AcceptedAlternative(a: Alternative)
    decreases a
  {
    forall i :: 0 <= i < |a.terms| ==> AcceptedTerm(a.terms[i])
  }

  predicate AcceptedTerm(t: Term)
    decreases t
  {
    (t.quant.Some? ==> t.quant.value.min <= t.quant.value.max) && AcceptedAtom(t.atom)
  }

  predicate AcceptedAtom(a: Atom)
    decreases a
  {
    match a
    case AChar(cls) => cls.Points? ==> |cls.points| / 2 < 65535
    case AAssert(_) => true
    case ABackRef(_, _) => true
    case ACapture(d) => Accepted(d)
    case AParen(d) => Accepted(d)
    case ALook(_, _, d) => Accepted(d)
  }

  // ---- Matchers ----

  // lo is the number of the first group inside, and bw is true inside a lookbehind.
  function MatchDisj(e: Env, d: Disj, bw: bool, lo: nat, x: MState, c: Cont): Option<MState>
    decreases d, |d.rest| + 2, 0, 0, 0, e
  {
    MatchFrom(e, d, 0, bw, lo, x, c)
  }

  // The first alternative from i on with which the rest of the pattern matches.
  function MatchFrom(e: Env, d: Disj, i: nat, bw: bool, lo: nat, x: MState, c: Cont): Option<MState>
    requires i <= |d.rest| + 1
    decreases d, |d.rest| + 1 - i, 0, 0, 0, e
  {
    if i > |d.rest| then None
    else
      var a := if i == 0 then d.first else d.rest[i - 1];
      var r := MatchAlternative(e, a, bw, lo, x, c);
      if r.Some? then r else MatchFrom(e, d, i + 1, bw, lo + AlternativeCaptures(a), x, c)
  }

  // Terms are matched from left to right, and from right to left inside a lookbehind.
  function MatchAlternative(e: Env, a: Alternative, bw: bool, lo: nat, x: MState, c: Cont): Option<MState>
    decreases a, |a.terms| + 1, 1, 0, 0, e
  {
    if bw then MatchDown(e, a, |a.terms|, lo, x, c) else MatchUp(e, a, 0, lo, x, c)
  }

  // The terms from i on.
  function MatchUp(e: Env, a: Alternative, i: nat, lo: nat, x: MState, c: Cont): Option<MState>
    requires i <= |a.terms|
    decreases a, |a.terms| - i, 0, 0, 0, e
  {
    if i == |a.terms| then c(x)
    else MatchTerm(e, a.terms[i], false, lo + TermCaptures(a, i), x, Up(e, a, i + 1, lo, c))
  }

  function Up(e: Env, a: Alternative, i: nat, lo: nat, c: Cont): Cont
    requires i <= |a.terms|
    decreases a, |a.terms| - i, 1, 0, 0, e
  {
    (y: MState) => MatchUp(e, a, i, lo, y, c)
  }

  // The terms before i.
  function MatchDown(e: Env, a: Alternative, i: nat, lo: nat, x: MState, c: Cont): Option<MState>
    requires i <= |a.terms|
    decreases a, i, 0, 0, 0, e
  {
    if i == 0 then c(x)
    else MatchTerm(e, a.terms[i - 1], true, lo + TermCaptures(a, i - 1), x, Down(e, a, i - 1, lo, c))
  }

  function Down(e: Env, a: Alternative, i: nat, lo: nat, c: Cont): Cont
    requires i <= |a.terms|
    decreases a, i, 1, 0, 0, e
  {
    (y: MState) => MatchDown(e, a, i, lo, y, c)
  }

  // A maximum of 2147483647 stands for none.
  function MatchTerm(e: Env, t: Term, bw: bool, lo: nat, x: MState, c: Cont): Option<MState>
    decreases t, 0, 0, 0, 0, e
  {
    match t.quant
    case None => MatchAtom(e, t.atom, bw, lo, x, c)
    case Some(q) =>
      RepeatAtom(e, t.atom, bw, lo, q.min, if q.max == 2147483647 then None else Some(q.max), q.greedy, x, c)
  }

  // RepeatMatcher, section 22.2.2.3.1.
  function RepeatAtom(e: Env, a: Atom, bw: bool, lo: nat, min: nat, max: Option<nat>, greedy: bool, x: MState,
                      c: Cont): Option<MState>
    decreases a, 3, min, Room(e, bw, x.pos), 1, e
  {
    if max == Some(0) then c(x)
    else
      var again := AgainAtom(e, a, bw, lo, min, max, greedy, x.pos, c);
      var caps := seq(|x.caps|, g requires 0 <= g < |x.caps| =>
        if lo <= g < lo + AtomCaptures(a) then None else x.caps[g]);
      var xr := MState(x.pos, caps);
      if min > 0 then MatchAtom(e, a, bw, lo, xr, again)
      else if greedy then
        var z := MatchAtom(e, a, bw, lo, xr, again);
        if z.Some? then z else c(x)
      else
        var z := c(x);
        if z.Some? then z else MatchAtom(e, a, bw, lo, xr, again)
  }

  // Once the minimum is reached an iteration that ends where it began fails; by Direction.EmptyIteration none ends
  // behind that.
  function AgainAtom(e: Env, a: Atom, bw: bool, lo: nat, min: nat, max: Option<nat>, greedy: bool, p: nat,
                     c: Cont): Cont
    decreases a, 3, min, Room(e, bw, p), 0, e
  {
    (y: MState) =>
      if min == 0 && !(if bw then y.pos < p else p < y.pos <= |e.input|) then None
      else
        RepeatAtom(e, a, bw, lo, if min == 0 then 0 else min - 1,
                   if max.Some? && max.value > 0 then Some(max.value - 1) else max, greedy, y, c)
  }

  // CompileAtom, section 22.2.2.7, and the assertions of section 22.2.2.4.
  function MatchAtom(e: Env, a: Atom, bw: bool, lo: nat, x: MState, c: Cont): Option<MState>
    decreases a, 1, 0, 0, 0, e
  {
    match a
    case AChar(cls) => MatchChar(e, cls, bw, x, c)
    case AAssert(t) => if x.pos <= |e.input| && IsAt(e, t, x.pos) then c(x) else None
    case ABackRef(groups, icase) => MatchBack(e, groups, icase, bw, x, c)
    case ACapture(d) => MatchDisj(e, d, bw, lo + 1, x, Capture(bw, lo, x.pos, c))
    case AParen(d) => MatchDisj(e, d, bw, lo, x, c)
    case ALook(behind, neg, d) =>
      var r := MatchDisj(e, d, behind, lo, x, (y: MState) => Some(y));
      if neg then (if r.Some? then None else c(x))
      else if r.None? then None
      else c(MState(x.pos, r.value.caps))
  }

  function MatchChar(e: Env, cls: CharClass, bw: bool, x: MState, c: Cont): Option<MState> {
    if bw then
      if 0 < x.pos <= |e.input| && HasChar(e, cls, e.input[x.pos - 1]) then c(MState(x.pos - 1, x.caps)) else None
    else
      if x.pos < |e.input| && HasChar(e, cls, e.input[x.pos]) then c(MState(x.pos + 1, x.caps)) else None
  }

  // The group lo is closed: from p to the end, or the other way round.
  function Capture(bw: bool, lo: nat, p: nat, c: Cont): Cont {
    (y: MState) =>
      var span := if bw then (y.pos, p) else (p, y.pos);
      c(if lo < |y.caps| then MState(y.pos, y.caps[lo := Some(span)]) else y)
  }

  // BackreferenceMatcher, section 22.2.2.7.2. Of groups with the same name the first that has matched counts.
  function MatchBack(e: Env, groups: seq<nat>, icase: bool, bw: bool, x: MState, c: Cont): Option<MState>
    decreases |groups|
  {
    if groups == [] then c(x)
    else if groups[0] < |x.caps| && x.caps[groups[0]].Some? then
      var (s, t) := x.caps[groups[0]].value;
      if !(s <= t <= |e.input| && x.pos <= |e.input|) then None
      else
        var f: int := if bw then x.pos - (t - s) else x.pos + (t - s);
        if f < 0 || f > |e.input| then None
        else if SameChars(e, icase, s, if bw then f else x.pos, t - s) then c(MState(f, x.caps)) else None
    else MatchBack(e, groups[1..], icase, bw, x, c)
  }

  // n characters from i and from j on.
  predicate SameChars(e: Env, icase: bool, i: nat, j: nat, n: nat)
    requires i + n <= |e.input| && j + n <= |e.input|
  {
    forall k :: i <= k < i + n ==>
      var a, b := e.input[k], e.input[j + (k - i)];
      a == b || (icase && e.canon(a) == e.canon(b))
  }

  // ---- One attempt, and the search: RegExpBuiltinExec, section 22.2.7.2 ----

  function MatchTree(e: Env, d: Disj, k: nat): Option<MState> {
    var none := seq(1 + Captures(d), _ => None);
    var r := MatchDisj(e, d, false, 1, MState(k, none), (y: MState) => Some(y));
    if r.None? then None
    else if |r.value.caps| == 0 then r
    else Some(MState(r.value.pos, r.value.caps[0 := Some((k, r.value.pos))]))
  }

  function ExecTree(e: Env, d: Disj, k: nat, sticky: bool): Option<MState>
    decreases |e.input| - k
  {
    var r := MatchTree(e, d, k);
    if r.Some? then r
    else if sticky || k >= |e.input| then None
    else ExecTree(e, d, k + 1, sticky)
  }
}
