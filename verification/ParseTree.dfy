// Pattern text after lexing, in the shape the one-pass compiler meets it, and the pattern it denotes.
module ParseTree {
  import opened CharRange
  import opened RegexSyntax

  datatype Quantifier = Quantifier(min: nat, max: nat, greedy: bool)   // max INT32_MAX is infinity

  datatype Term = Term(atom: Atom, quant: Option<Quantifier>)

  datatype Atom =
    | AChar(cls: CharClass)
    | AAssert(a: Assertion)
    | ABackRef(groups: seq<nat>, icase: bool)
    | ACapture(d: Disj)
    | AParen(d: Disj)
    | ALook(behind: bool, neg: bool, d: Disj)

  datatype Alternative = Alternative(terms: seq<Term>)

  datatype Disj = Disj(first: Alternative, rest: seq<Alternative>)

  function NodeOfAtom(a: Atom): Node {
    match a
    case AChar(cls) => Char(cls)
    case AAssert(x) => Assert(x)
    case ABackRef(groups, icase) => BackRef(groups, icase)
    case ACapture(d) => Group(NodeOf(d))
    case AParen(d) => NodeOf(d)
    case ALook(behind, neg, d) => Look(behind, neg, NodeOf(d))
  }

  function NodeOfTerm(t: Term): Node {
    match t.quant
    case None => NodeOfAtom(t.atom)
    case Some(q) => Quant(NodeOfAtom(t.atom), q.min, if q.max == INT32_MAX then None else Some(q.max), q.greedy)
  }

  // The first k terms of an alternative.
  function NodeOfTerms(a: Alternative, k: nat): Node
    requires k <= |a.terms|
    decreases a, k
  {
    if k == 0 then Empty else Seq(NodeOfTerms(a, k - 1), NodeOfTerm(a.terms[k - 1]))
  }

  // The first alternative and k more.
  function NodeOfAlternatives(d: Disj, k: nat): Node
    requires k <= |d.rest|
    decreases d, k
  {
    if k == 0 then NodeOfTerms(d.first, |d.first.terms|)
    else Alt(NodeOfAlternatives(d, k - 1), NodeOfTerms(d.rest[k - 1], |d.rest[k - 1].terms|))
  }

  function NodeOf(d: Disj): Node
    decreases d, |d.rest| + 1
  {
    NodeOfAlternatives(d, |d.rest|)
  }

  // What the lexer guarantees: sorted class tables, digits clamped to INT32_MAX.
  predicate Lexed(d: Disj)
    decreases d
  {
    LexedAlternative(d.first) && forall i :: 0 <= i < |d.rest| ==> LexedAlternative(d.rest[i])
  }

  predicate LexedAlternative(a: Alternative)
    decreases a
  {
    forall i :: 0 <= i < |a.terms| ==> LexedTerm(a.terms[i])
  }

  predicate LexedTerm(t: Term)
    decreases t
  {
    && (t.quant.Some? ==> t.quant.value.min <= INT32_MAX && t.quant.value.max <= INT32_MAX)
    && LexedAtom(t.atom)
  }

  predicate LexedAtom(a: Atom)
    decreases a
  {
    match a
    case AChar(cls) => cls.Points? ==> Sorted(cls.points) && |cls.points| % 2 == 0
                                       && (forall i :: 0 <= i < |cls.points| ==> cls.points[i] <= UINT32_MAX)
    case AAssert(_) => true
    case ABackRef(_, _) => true
    case ACapture(d) => Lexed(d)
    case AParen(d) => Lexed(d)
    case ALook(_, _, d) => Lexed(d)
  }
}
