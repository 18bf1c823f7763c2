// The patterns that parse trees are turned into have the meaning of the trees: characters, groups and matchers.
module TreeLaws {
  import opened CharRange
  import opened RegexSyntax
  import opened EcmaSemantics
  import opened ParseTree
  import opened TreeSemantics

  // ---- Characters ----

  lemma UpperIs(c: nat)
    ensures IsOneOf(c, UPPER) <==> 'A' as int <= c <= 'Z' as int
  {
    assert |UPPER| == 26 && forall i :: 0 <= i < 26 ==> UPPER[i] as int == 65 + i;
    if 65 <= c <= 90 {
      assert UPPER[c - 65] as int == c;
    }
  }

  lemma LowerIs(c: nat)
    ensures IsOneOf(c, LOWER) <==> 'a' as int <= c <= 'z' as int
  {
    assert |LOWER| == 26 && forall i :: 0 <= i < 26 ==> LOWER[i] as int == 97 + i;
    if 97 <= c <= 122 {
      assert LOWER[c - 97] as int == c;
    }
  }

  lemma NumbersAre(c: nat)
    ensures IsOneOf(c, NUMBERS) <==> '0' as int <= c <= '9' as int
  {
    assert |NUMBERS| == 10 && forall i :: 0 <= i < 10 ==> NUMBERS[i] as int == 48 + i;
    if 48 <= c <= 57 {
      assert NUMBERS[c - 48] as int == c;
    }
  }

  // The table of the engine has just the word characters.
  lemma WordChars(c: nat, icase: bool)
    ensures IsWordChar(c, icase) <==> IsWord(c, icase)
  {
    UpperIs(c);
    LowerIs(c);
    NumbersAre(c);
    OneChar(c, "_");
    TwoChars(c, "\U{017f}\U{212a}");
  }

  lemma OneChar(c: nat, s: string)
    requires |s| == 1
    ensures IsOneOf(c, s) <==> c == s[0] as int
  {
    assert s[0] as int == c ==> IsOneOf(c, s);
  }

  lemma TwoChars(c: nat, s: string)
    requires |s| == 2
    ensures IsOneOf(c, s) <==> c == s[0] as int || c == s[1] as int
  {
    assert s[0] as int == c ==> IsOneOf(c, s);
    assert s[1] as int == c ==> IsOneOf(c, s);
  }

  lemma LineTerminators(c: nat)
    ensures IsLineTerminator(c) <==> EndsLine(c)
  {
    var s := "\n\r\U{2028}\U{2029}";
    assert |s| == 4 && s[0] as int == 10 && s[1] as int == 13 && s[2] as int == 0x2028 && s[3] as int == 0x2029;
    assert s[0] as int == c ==> IsOneOf(c, s);
    assert s[1] as int == c ==> IsOneOf(c, s);
    assert s[2] as int == c ==> IsOneOf(c, s);
    assert s[3] as int == c ==> IsOneOf(c, s);
  }

  // Anchors and word boundaries hold where the characters around the position say so.
  lemma Assertions(e: Env, a: Assertion, pos: nat)
    requires pos <= |e.input|
    ensures Holds(e, a, pos) <==> IsAt(e, a, pos)
  {
    if pos > 0 {
      LineTerminators(e.input[pos - 1]);
      WordChars(e.input[pos - 1], a.WordBoundary? && a.icase);
    }
    if pos < |e.input| {
      LineTerminators(e.input[pos]);
      WordChars(e.input[pos], a.WordBoundary? && a.icase);
    }
  }

  // Classes that have been lexed have the characters of their intervals.
  lemma Classes(e: Env, cls: CharClass, ch: nat)
    requires cls.Points? ==> Sorted(cls.points) && |cls.points| % 2 == 0
    ensures InClass(e, cls, ch) <==> HasChar(e, cls, ch)
  {
    LineTerminators(ch);
    if cls.Points? {
      MemberInterval(cls.points, if cls.icase then e.canon(ch) else ch);
    }
  }

  // ---- Groups ----

  lemma {:induction false} AtomGroups(a: Atom)
    ensures Groups(NodeOfAtom(a)) == AtomCaptures(a)
    decreases a, 0
  {
    match a
    case AChar(_) =>
    case AAssert(_) =>
    case ABackRef(_, _) =>
    case ACapture(d) => DisjGroups(d);
    case AParen(d) => DisjGroups(d);
    case ALook(_, _, d) => DisjGroups(d);
  }

  lemma {:induction false} TermsGroups(a: Alternative, k: nat)
    requires k <= |a.terms|
    ensures Groups(NodeOfTerms(a, k)) == TermCaptures(a, k)
    decreases a, k
  {
    if k > 0 {
      TermsGroups(a, k - 1);
      AtomGroups(a.terms[k - 1].atom);
    }
  }

  // All groups are those of the alternatives up to k and of the ones from there on.
  lemma {:induction false} AlternativesGroups(d: Disj, k: nat)
    requires k <= |d.rest|
    ensures Captures(d) == Groups(NodeOfAlternatives(d, k)) + CapturesFrom(d, k + 1)
    decreases d, k
  {
    if k == 0 {
      TermsGroups(d.first, |d.first.terms|);
      assert CapturesFrom(d, 0) == AlternativeCaptures(d.first) + CapturesFrom(d, 1);
    } else {
      AlternativesGroups(d, k - 1);
      TermsGroups(d.rest[k - 1], |d.rest[k - 1].terms|);
      assert CapturesFrom(d, k) == AlternativeCaptures(d.rest[k - 1]) + CapturesFrom(d, k + 1);
    }
  }

  // The groups of a pattern are the capturing parentheses of its tree.
  lemma {:induction false} DisjGroups(d: Disj)
    ensures Groups(NodeOf(d)) == Captures(d)
    decreases d, |d.rest| + 1
  {
    AlternativesGroups(d, |d.rest|);
  }

  // ---- Errors ----

  lemma {:induction false} AtomAccepted(a: Atom)
    requires LexedAtom(a)
    ensures WellFormed(NodeOfAtom(a)) <==> AcceptedAtom(a)
    decreases a, 0
  {
    match a
    case AChar(_) =>
    case AAssert(_) =>
    case ABackRef(_, _) =>
    case ACapture(d) => DisjAccepted(d);
    case AParen(d) => DisjAccepted(d);
    case ALook(_, _, d) => DisjAccepted(d);
  }

  lemma {:induction false} TermAccepted(t: Term)
    requires LexedTerm(t)
    ensures WellFormed(NodeOfTerm(t)) <==> AcceptedTerm(t)
    decreases t, 0
  {
    AtomAccepted(t.atom);
  }

  lemma {:induction false} TermsAccepted(a: Alternative, k: nat)
    requires LexedAlternative(a) && k <= |a.terms|
    ensures WellFormed(NodeOfTerms(a, k)) <==> forall i :: 0 <= i < k ==> AcceptedTerm(a.terms[i])
    decreases a, k
  {
    if k > 0 {
      TermsAccepted(a, k - 1);
      TermAccepted(a.terms[k - 1]);
    }
  }

  lemma {:induction false} AlternativesAccepted(d: Disj, k: nat)
    requires Lexed(d) && k <= |d.rest|
    ensures WellFormed(NodeOfAlternatives(d, k))
       <==> AcceptedAlternative(d.first) && forall i :: 0 <= i < k ==> AcceptedAlternative(d.rest[i])
    decreases d, k
  {
    if k == 0 {
      TermsAccepted(d.first, |d.first.terms|);
    } else {
      AlternativesAccepted(d, k - 1);
      TermsAccepted(d.rest[k - 1], |d.rest[k - 1].terms|);
    }
  }

  // Patterns are well-formed when their trees have no error.
  lemma {:induction false} DisjAccepted(d: Disj)
    requires Lexed(d)
    ensures WellFormed(NodeOf(d)) <==> Accepted(d)
    decreases d, |d.rest| + 1
  {
    AlternativesAccepted(d, |d.rest|);
  }

  // ---- Continuations that do the same are as good as one another ----

  ghost predicate SameCont(c: Cont, c': Cont) {
    forall y :: c(y) == c'(y)
  }

  lemma {:induction false} FirstSame(xs: seq<MState>, c: Cont, c': Cont)
    requires SameCont(c, c')
    ensures First(xs, c) == First(xs, c')
  {
    if xs != [] {
      FirstSame(xs[1..], c, c');
    }
  }

  lemma MatchSame(e: Env, n: Node, bw: bool, lo: nat, x: MState, c: Cont, c': Cont)
    requires SameCont(c, c')
    ensures Match(e, n, bw, lo, x, c) == Match(e, n, bw, lo, x, c')
  {
    MatchIsFirst(e, n, bw, lo, x, c);
    MatchIsFirst(e, n, bw, lo, x, c');
    FirstSame(Sem(e, n, bw, lo, x), c, c');
  }

  // ---- Matchers ----

  lemma CharIs(e: Env, cls: CharClass, bw: bool, x: MState, c: Cont)
    requires cls.Points? ==> Sorted(cls.points) && |cls.points| % 2 == 0
    ensures Resume(AtomTo(e, Char(cls), bw, x), x, c) == MatchChar(e, cls, bw, x, c)
  {
    var ch := Peek(e, bw, x.pos);
    if ch.Some? {
      Classes(e, cls, ch.value);
    }
  }

  lemma AssertIs(e: Env, a: Assertion, bw: bool, x: MState, c: Cont)
    ensures Resume(AtomTo(e, Assert(a), bw, x), x, c)
         == if x.pos <= |e.input| && IsAt(e, a, x.pos) then c(x) else None
  {
    if x.pos <= |e.input| {
      Assertions(e, a, x.pos);
    }
    assert MState(x.pos, x.caps) == x;
  }

  lemma {:induction false} BackIs(e: Env, groups: seq<nat>, icase: bool, bw: bool, x: MState, c: Cont)
    ensures Resume(BackRefTo(e, bw, icase, groups, x), x, c) == MatchBack(e, groups, icase, bw, x, c)
    decreases |groups|
  {
    if groups == [] {
      assert MState(x.pos, x.caps) == x;
    } else if groups[0] < |x.caps| && x.caps[groups[0]].Some? {
      var (s, t) := x.caps[groups[0]].value;
      if s <= t <= |e.input| && x.pos <= |e.input| {
        if bw && t - s <= x.pos {
          SameCharsIs(e, icase, s, t, x.pos - (t - s));
        } else if !bw && x.pos + (t - s) <= |e.input| {
          SameCharsIs(e, icase, s, t, x.pos);
        }
      }
    } else {
      BackIs(e, groups[1..], icase, bw, x, c);
    }
  }

  lemma SameCharsIs(e: Env, icase: bool, s: nat, t: nat, p: nat)
    requires s <= t <= |e.input| && p + (t - s) <= |e.input|
    ensures SameText(e, icase, s, t, p) <==> SameChars(e, icase, s, p, t - s)
  {
    if SameText(e, icase, s, t, p) {
      forall k | s <= k < s + (t - s)
        ensures var a, b := e.input[k], e.input[p + (k - s)]; a == b || (icase && e.canon(a) == e.canon(b))
      {
        assert Fold(e, icase, e.input[k]) == Fold(e, icase, e.input[p + (k - s)]);
      }
    }
  }

  // What an atom means is what the matcher of the tree does.
  lemma {:induction false} AtomIs(e: Env, a: Atom, bw: bool, lo: nat, x: MState, c: Cont)
    requires LexedAtom(a)
    ensures Match(e, NodeOfAtom(a), bw, lo, x, c) == MatchAtom(e, a, bw, lo, x, c)
    decreases a, 1, 0, 0, 0
  {
    match a
    case AChar(cls) => CharIs(e, cls, bw, x, c);
    case AAssert(t) => AssertIs(e, t, bw, x, c);
    case ABackRef(groups, icase) => BackIs(e, groups, icase, bw, x, c);
    case ACapture(d) =>
      DisjIs(e, d, bw, lo + 1, x, Capture(bw, lo, x.pos, c));
      CaptureSame(bw, lo, x.pos, c);
      MatchSame(e, NodeOf(d), bw, lo + 1, x, ThenClose(bw, lo, x.pos, c), Capture(bw, lo, x.pos, c));
    case AParen(d) => DisjIs(e, d, bw, lo, x, c);
    case ALook(behind, neg, d) =>
      LookIs(e, behind, neg, d, bw, lo, x, c);
  }

  lemma CaptureSame(bw: bool, lo: nat, p: nat, c: Cont)
    ensures SameCont(ThenClose(bw, lo, p, c), Capture(bw, lo, p, c))
  {
    forall y: MState
      ensures ThenClose(bw, lo, p, c)(y) == Capture(bw, lo, p, c)(y)
    {
      var span := if bw then (y.pos, p) else (p, y.pos);
      assert Close(bw, lo, p, y) == if lo < |y.caps| then MState(y.pos, y.caps[lo := Some(span)]) else y;
    }
  }

  lemma {:induction false} LookIs(e: Env, behind: bool, neg: bool, d: Disj, bw: bool, lo: nat, x: MState, c: Cont)
    requires Lexed(d)
    ensures Match(e, Look(behind, neg, NodeOf(d)), bw, lo, x, c) == MatchAtom(e, ALook(behind, neg, d), bw, lo, x, c)
    decreases ALook(behind, neg, d), 0, 0, 0, 0
  {
    var id := (y: MState) => Some(y);
    DisjIs(e, d, behind, lo, x, id);
    MatchSame(e, NodeOf(d), behind, lo, x, Succeed(), id);
  }

  lemma {:induction false} RepeatIs(e: Env, a: Atom, bw: bool, lo: nat, min: nat, max: Option<nat>, greedy: bool,
                                    x: MState, c: Cont)
    requires LexedAtom(a)
    ensures Repeat(e, NodeOfAtom(a), bw, lo, min, max, greedy, x, c)
         == RepeatAtom(e, a, bw, lo, min, max, greedy, x, c)
    decreases a, 3, min, Room(e, bw, x.pos), 1
  {
    if max != Some(0) {
      AtomGroups(a);
      ForgetSame(x.caps, lo, Groups(NodeOfAtom(a)), AtomCaptures(a));
      var xr := MState(x.pos, Forget(x.caps, lo, lo + AtomCaptures(a)));
      var d := ThenRepeat(e, NodeOfAtom(a), bw, lo, min, max, greedy, x.pos, c);
      var again := AgainAtom(e, a, bw, lo, min, max, greedy, x.pos, c);
      AgainIs(e, a, bw, lo, min, max, greedy, x.pos, c);
      MatchSame(e, NodeOfAtom(a), bw, lo, xr, d, again);
      AtomIs(e, a, bw, lo, xr, again);
      RepeatBy(e, a, bw, lo, min, max, greedy, x, c, xr, d, again);
    }
  }

  lemma RepeatBy(e: Env, a: Atom, bw: bool, lo: nat, min: nat, max: Option<nat>, greedy: bool, x: MState, c: Cont,
                 xr: MState, d: Cont, again: Cont)
    requires max != Some(0) && xr == MState(x.pos, Forget(x.caps, lo, lo + Groups(NodeOfAtom(a))))
    requires xr == MState(x.pos, Forget(x.caps, lo, lo + AtomCaptures(a)))
    requires d == ThenRepeat(e, NodeOfAtom(a), bw, lo, min, max, greedy, x.pos, c)
    requires again == AgainAtom(e, a, bw, lo, min, max, greedy, x.pos, c)
    requires Match(e, NodeOfAtom(a), bw, lo, xr, d) == MatchAtom(e, a, bw, lo, xr, again)
    ensures Repeat(e, NodeOfAtom(a), bw, lo, min, max, greedy, x, c)
         == RepeatAtom(e, a, bw, lo, min, max, greedy, x, c)
  {
    RepeatWith(e, NodeOfAtom(a), bw, lo, min, max, greedy, x, c, xr, d);
    RepeatAtomWith(e, a, bw, lo, min, max, greedy, x, c, xr, again);
  }

  lemma ForgetSame(caps: seq<Option<(nat, nat)>>, lo: nat, n: nat, n': nat)
    requires n == n'
    ensures Forget(caps, lo, lo + n) == Forget(caps, lo, lo + n')
  {
  }

  // What to do with a match m of the body, and with stopping.
  function Choose(min: nat, greedy: bool, m: Option<MState>, stop: Option<MState>): Option<MState> {
    if min > 0 then m
    else if greedy then (if m.Some? then m else stop)
    else if stop.Some? then stop else m
  }

  lemma RepeatWith(e: Env, b: Node, bw: bool, lo: nat, min: nat, max: Option<nat>, greedy: bool, x: MState, c: Cont,
                   xr: MState, d: Cont)
    requires max != Some(0) && xr == MState(x.pos, Forget(x.caps, lo, lo + Groups(b)))
    requires d == ThenRepeat(e, b, bw, lo, min, max, greedy, x.pos, c)
    ensures Repeat(e, b, bw, lo, min, max, greedy, x, c) == Choose(min, greedy, Match(e, b, bw, lo, xr, d), c(x))
  {
  }

  lemma RepeatAtomWith(e: Env, a: Atom, bw: bool, lo: nat, min: nat, max: Option<nat>, greedy: bool, x: MState,
                       c: Cont, xr: MState, again: Cont)
    requires max != Some(0) && xr == MState(x.pos, Forget(x.caps, lo, lo + AtomCaptures(a)))
    requires again == AgainAtom(e, a, bw, lo, min, max, greedy, x.pos, c)
    ensures RepeatAtom(e, a, bw, lo, min, max, greedy, x, c)
         == Choose(min, greedy, MatchAtom(e, a, bw, lo, xr, again), c(x))
  {
    var caps := seq(|x.caps|, g requires 0 <= g < |x.caps| =>
      if lo <= g < lo + AtomCaptures(a) then None else x.caps[g]);
    assert caps == xr.caps;
  }

  lemma {:induction false} AgainIs(e: Env, a: Atom, bw: bool, lo: nat, min: nat, max: Option<nat>, greedy: bool,
                                   p: nat, c: Cont)
    requires LexedAtom(a)
    ensures SameCont(ThenRepeat(e, NodeOfAtom(a), bw, lo, min, max, greedy, p, c),
                     AgainAtom(e, a, bw, lo, min, max, greedy, p, c))
    decreases a, 3, min, Room(e, bw, p), 0
  {
    forall y: MState
      ensures ThenRepeat(e, NodeOfAtom(a), bw, lo, min, max, greedy, p, c)(y)
           == AgainAtom(e, a, bw, lo, min, max, greedy, p, c)(y)
    {
      if !(min == 0 && !Advances(e, bw, p, y.pos)) {
        RepeatIs(e, a, bw, lo, Pred(min), Dec(max), greedy, y, c);
      }
    }
  }

  lemma {:induction false} TermIs(e: Env, t: Term, bw: bool, lo: nat, x: MState, c: Cont)
    requires LexedTerm(t)
    ensures Match(e, NodeOfTerm(t), bw, lo, x, c) == MatchTerm(e, t, bw, lo, x, c)
    decreases t, 0, 0, 0, 0
  {
    match t.quant
    case None => AtomIs(e, t.atom, bw, lo, x, c);
    case Some(q) =>
      RepeatIs(e, t.atom, bw, lo, q.min, if q.max == INT32_MAX then None else Some(q.max), q.greedy, x, c);
  }

  // The first k terms and then, from there on, the others.
  lemma {:induction false} UpIs(e: Env, a: Alternative, k: nat, lo: nat, x: MState, c: Cont)
    requires LexedAlternative(a) && k <= |a.terms|
    ensures Match(e, NodeOfTerms(a, k), false, lo, x, Up(e, a, k, lo, c)) == MatchUp(e, a, 0, lo, x, c)
    decreases a, k, 1, 0, 0
  {
    if k > 0 {
      UpIs(e, a, k - 1, lo, x, c);
      TermsGroups(a, k - 1);
      var l := NodeOfTerms(a, k - 1);
      var next := Then(e, NodeOfTerm(a.terms[k - 1]), false, lo + Groups(l), Up(e, a, k, lo, c));
      UpStep(e, a, k, lo, c, next);
      MatchSame(e, l, false, lo, x, next, Up(e, a, k - 1, lo, c));
    }
  }

  lemma {:induction false} UpStep(e: Env, a: Alternative, k: nat, lo: nat, c: Cont, next: Cont)
    requires LexedAlternative(a) && 0 < k <= |a.terms|
    requires next == Then(e, NodeOfTerm(a.terms[k - 1]), false, lo + TermCaptures(a, k - 1), Up(e, a, k, lo, c))
    ensures SameCont(next, Up(e, a, k - 1, lo, c))
    decreases a, k, 0, 0, 0
  {
    forall y: MState
      ensures next(y) == Up(e, a, k - 1, lo, c)(y)
    {
      TermIs(e, a.terms[k - 1], false, lo + TermCaptures(a, k - 1), y, Up(e, a, k, lo, c));
    }
  }

  lemma {:induction false} DownIs(e: Env, a: Alternative, k: nat, lo: nat, x: MState, c: Cont)
    requires LexedAlternative(a) && k <= |a.terms|
    ensures Match(e, NodeOfTerms(a, k), true, lo, x, c) == MatchDown(e, a, k, lo, x, c)
    decreases a, k, 1, 0, 0
  {
    if k > 0 {
      TermsGroups(a, k - 1);
      var l, t, g := NodeOfTerms(a, k - 1), a.terms[k - 1], lo + TermCaptures(a, k - 1);
      DownStep(e, a, k, lo, c);
      TermIs(e, t, true, g, x, Down(e, a, k - 1, lo, c));
      MatchSame(e, NodeOfTerm(t), true, g, x, Then(e, l, true, lo, c), Down(e, a, k - 1, lo, c));
    }
  }

  lemma {:induction false} DownStep(e: Env, a: Alternative, k: nat, lo: nat, c: Cont)
    requires LexedAlternative(a) && 0 < k <= |a.terms|
    ensures SameCont(Then(e, NodeOfTerms(a, k - 1), true, lo, c), Down(e, a, k - 1, lo, c))
    decreases a, k, 0, 0, 0
  {
    var next, down := Then(e, NodeOfTerms(a, k - 1), true, lo, c), Down(e, a, k - 1, lo, c);
    forall y: MState
      ensures next(y) == down(y)
    {
      DownIs(e, a, k - 1, lo, y, c);
    }
  }

  lemma {:induction false} AlternativeIs(e: Env, a: Alternative, bw: bool, lo: nat, x: MState, c: Cont)
    requires LexedAlternative(a)
    ensures Match(e, NodeOfTerms(a, |a.terms|), bw, lo, x, c) == MatchAlternative(e, a, bw, lo, x, c)
    decreases a, |a.terms| + 1, 0, 0, 0
  {
    var k := |a.terms|;
    if bw {
      DownIs(e, a, k, lo, x, c);
    } else {
      UpIs(e, a, k, lo, x, c);
      assert SameCont(c, Up(e, a, k, lo, c));
      MatchSame(e, NodeOfTerms(a, k), false, lo, x, c, Up(e, a, k, lo, c));
    }
  }

  // The alternatives up to k and then, if they fail, the ones from there on.
  lemma {:induction false} AlternativesAre(e: Env, d: Disj, k: nat, bw: bool, lo: nat, x: MState, c: Cont)
    requires Lexed(d) && k <= |d.rest|
    ensures MatchDisj(e, d, bw, lo, x, c)
         == (var r := Match(e, NodeOfAlternatives(d, k), bw, lo, x, c);
             if r.Some? then r
             else MatchFrom(e, d, k + 1, bw, lo + Groups(NodeOfAlternatives(d, k)), x, c))
    decreases d, k, 0, 0, 0
  {
    if k == 0 {
      TermsGroups(d.first, |d.first.terms|);
      AlternativeIs(e, d.first, bw, lo, x, c);
    } else {
      var l, a := NodeOfAlternatives(d, k - 1), d.rest[k - 1];
      AlternativesAre(e, d, k - 1, bw, lo, x, c);
      TermsGroups(a, |a.terms|);
      AlternativeIs(e, a, bw, lo + Groups(l), x, c);
    }
  }

  // Main result: a pattern means what its tree does.
  lemma {:induction false} DisjIs(e: Env, d: Disj, bw: bool, lo: nat, x: MState, c: Cont)
    requires Lexed(d)
    ensures Match(e, NodeOf(d), bw, lo, x, c) == MatchDisj(e, d, bw, lo, x, c)
    decreases d, |d.rest| + 1, 0, 0, 0
  {
    AlternativesAre(e, d, |d.rest|, bw, lo, x, c);
  }
}
