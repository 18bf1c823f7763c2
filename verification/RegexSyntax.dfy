// Patterns, inputs and character classes: what the compiler reads and what the
// two semantics talk about.
module RegexSyntax {
  import opened CharRange

  datatype Option<+T> = None | Some(value: T)

  const INT32_MAX: nat := 0x7fff_ffff

  // What surrounds one match: the subject as decoded characters and the tables the engine
  // consults (case folding and white space), left abstract.
  datatype Env = Env(input: seq<nat>, canon: nat -> nat, isSpace: nat -> bool)

  datatype CharClass =
    | Lit(c: nat, icase: bool)
    | Dot(all: bool)
    | Space(neg: bool)
    | Points(points: seq<nat>, icase: bool)   // boundary list, already folded when icase

  datatype Assertion =
    | LineStart(multi: bool)
    | LineEnd(multi: bool)
    | WordBoundary(neg: bool, icase: bool)

  // Capture groups carry no index: groups are numbered from left to right, so the number of a
  // group is the count of groups that open before it.
  datatype Node =
    | Empty
    | Char(cls: CharClass)
    | Assert(a: Assertion)
    | BackRef(groups: seq<nat>, icase: bool)
    | Seq(l: Node, r: Node)
    | Alt(l: Node, r: Node)
    | Group(body: Node)
    | Look(behind: bool, neg: bool, body: Node)
    | Quant(body: Node, min: nat, max: Option<nat>, greedy: bool)

  function Groups(n: Node): nat {
    match n
    case Empty => 0
    case Char(_) => 0
    case Assert(_) => 0
    case BackRef(_, _) => 0
    case Seq(l, r) => Groups(l) + Groups(r)
    case Alt(l, r) => Groups(l) + Groups(r)
    case Group(b) => 1 + Groups(b)
    case Look(_, _, b) => Groups(b)
    case Quant(b, _, _, _) => Groups(b)
  }

  // Line terminators of section 12.3 of ECMA-262.
  predicate IsLineTerminator(c: nat) {
    c == 10 || c == 13 || c == 0x2028 || c == 0x2029
  }

  predicate IsWordByte(c: nat) {
    48 <= c <= 57 || 65 <= c <= 90 || c == 95 || 97 <= c <= 122
  }

  predicate IsWordChar(c: nat, icase: bool) {
    if c < 256 then IsWordByte(c) else icase && (c == 0x017f || c == 0x212a)
  }

  // Does character ch belong to the class?
  predicate InClass(e: Env, cls: CharClass, ch: nat) {
    match cls
    case Lit(c, icase) => if icase then e.canon(c) == e.canon(ch) else c == ch
    case Dot(all) => all || !IsLineTerminator(ch)
    case Space(neg) => e.isSpace(ch) != neg
    case Points(pts, icase) => Member(pts, if icase then e.canon(ch) else ch)
  }

  predicate Holds(e: Env, a: Assertion, pos: nat)
    requires pos <= |e.input|
  {
    match a
    case LineStart(multi) => pos == 0 || (multi && IsLineTerminator(e.input[pos - 1]))
    case LineEnd(multi) => pos == |e.input| || (multi && IsLineTerminator(e.input[pos]))
    case WordBoundary(neg, icase) =>
      var before := pos > 0 && IsWordChar(e.input[pos - 1], icase);
      var after := pos < |e.input| && IsWordChar(e.input[pos], icase);
      (before != after) != neg
  }

  function Fold(e: Env, icase: bool, c: nat): nat {
    if icase then e.canon(c) else c
  }

  // Is the stretch of the input that starts at p the stretch [s, t), up to case?
  predicate SameText(e: Env, icase: bool, s: nat, t: nat, p: nat)
    requires s <= t <= |e.input| && p + (t - s) <= |e.input|
  {
    forall i :: s <= i < t ==> Fold(e, icase, e.input[i]) == Fold(e, icase, e.input[p + (i - s)])
  }

  // Strict progress in the direction of matching, inside the input.
  predicate Advances(e: Env, bw: bool, p: nat, q: nat) {
    if bw then q < p else p < q <= |e.input|
  }

  // How far a match may still move.
  function Room(e: Env, bw: bool, p: nat): nat {
    if bw then p else if p <= |e.input| then |e.input| - p else 0
  }

  // The position after one character in the direction of matching, and that character.
  function Peek(e: Env, bw: bool, p: nat): (r: Option<nat>) {
    if bw then (if 0 < p <= |e.input| then Some(e.input[p - 1]) else None)
    else (if p < |e.input| then Some(e.input[p]) else None)
  }

  function Next(bw: bool, p: nat): nat
    requires bw ==> p > 0
  {
    if bw then p - 1 else p + 1
  }

  // What a pattern that came out of the parser satisfies: class boundary lists are sorted,
  // and repetition counts were clamped to INT32_MAX and are in order.
  predicate WellFormed(n: Node) {
    match n
    case Empty => true
    case Char(cls) =>
      cls.Points? ==>
        && Sorted(cls.points) && |cls.points| % 2 == 0 && |cls.points| / 2 < 65535
        && forall i :: 0 <= i < |cls.points| ==> cls.points[i] <= UINT32_MAX
    case Assert(_) => true
    case BackRef(_, _) => true
    case Seq(l, r) => WellFormed(l) && WellFormed(r)
    case Alt(l, r) => WellFormed(l) && WellFormed(r)
    case Group(b) => WellFormed(b)
    case Look(_, _, b) => WellFormed(b)
    case Quant(b, min, max, _) =>
      WellFormed(b) && min <= INT32_MAX && (max.Some? ==> min <= max.value <= INT32_MAX)
  }
}
