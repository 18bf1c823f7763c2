// The one-pass compiler: code is appended, opened up in front of an atom that was already emitted,
// patched and rotated. Each method is proved against Codegen.
module Emitter {
  import opened CharRange
  import opened RegexSyntax
  import opened Bytecode
  import opened Codegen
  import opened ParseTree

  const CAPTURE_COUNT_MAX: nat := 255

  class ParseState {
    const e: Env
    var code: seq<Op>
    var captureCount: nat

    constructor (env: Env, start: seq<Op>, captures: nat)
      ensures e == env && code == start && captureCount == captures
    {
      e, code, captureCount := env, start, captures;
    }

    method Emit(op: Op)
      modifies this`code
      ensures code == old(code) + [op]
    {
      code := code + [op];
    }

    // The closing instruction of a bracketed piece of code.
    method EmitLast(op: Op, ghost front: seq<Op>, ghost first: Op, ghost c: seq<Op>)
      requires code == front + [first] + c
      modifies this`code
      ensures code == front + ([first] + c + [op])
    {
      Emit(op);
      Wrap(front, first, c, op);
    }

    // Open a gap of n instructions at pos.
    method Insert(pos: nat, n: nat)
      requires pos <= |code|
      modifies this`code
      ensures |code| == |old(code)| + n
      ensures code[..pos] == old(code)[..pos] && code[pos + n..] == old(code)[pos..]
    {
      code := code[..pos] + seq(n, _ => OMatch) + code[pos..];
    }

    // Insert one instruction.
    method InsertOp(pos: nat, op: Op)
      requires pos <= |code|
      modifies this`code
      ensures code == old(code)[..pos] + ([op] + old(code)[pos..])
      ensures code[..pos] == old(code)[..pos] && code[pos..] == [op] + old(code)[pos..]
    {
      Insert(pos, 1);
      code := code[pos := op];
    }

    method EmitGoto(target: nat)
      modifies this`code
      ensures code == old(code) + [OGoto(target - (|old(code)| + 1))]
    {
      var pos := |code|;
      Emit(OGoto(target - (pos + 1)));
    }

    // ---- Character classes ----

    method EmitRange(pts: seq<nat>, icase: bool) returns (ok: bool)
      requires Sorted(pts) && |pts| % 2 == 0
      requires forall i :: 0 <= i < |pts| ==> pts[i] <= UINT32_MAX
      modifies this`code
      ensures ok == (|pts| / 2 < 65535)
      ensures ok ==> code == old(code) + [OChar(RangeTest(pts, icase))]
    {
      var len := |pts| / 2;
      if len >= 65535 {
        return false;
      }
      if len == 0 {
        Emit(OChar(TChar(UINT32_MAX, false)));
        return true;
      }
      var high := pts[|pts| - 1];
      if high == UINT32_MAX {
        high := pts[|pts| - 2];
      }
      var wide := high > 0xffff;
      var ranges: seq<(nat, nat)> := [];
      var i := 0;
      while i < |pts|
        invariant 0 <= i <= |pts| && i % 2 == 0 && |ranges| == i / 2
        invariant ranges == RangesOf(pts, wide)[..i / 2]
      {
        assert pts[i] < pts[i + 1];
        var last := pts[i + 1] - 1;
        if !wide && last == UINT32_MAX - 1 {
          last := 0xffff;
        }
        assert RangesOf(pts, wide)[i / 2] == (pts[i], last);
        ranges := ranges + [(pts[i], last)];
        i := i + 2;
      }
      assert RangesOf(pts, wide)[..i / 2] == RangesOf(pts, wide);
      Emit(OChar(if wide then TRange32(ranges, icase) else TRange(ranges, icase)));
      return true;
    }

    method EmitTest(cls: CharClass) returns (ok: bool)
      requires cls.Points? ==> Sorted(cls.points) && |cls.points| % 2 == 0
      requires cls.Points? ==> forall i :: 0 <= i < |cls.points| ==> cls.points[i] <= UINT32_MAX
      modifies this`code
      ensures ok == WellFormed(Char(cls))
      ensures ok ==> code == old(code) + [OChar(TestOf(e, cls))]
    {
      ok := true;
      match cls
      case Lit(c, icase) => Emit(OChar(TChar(if icase then e.canon(c) else c, icase)));
      case Dot(all) => Emit(OChar(if all then TAny else TDot));
      case Space(neg) => Emit(OChar(if neg then TNotSpace else TSpace));
      case Points(pts, icase) => ok := EmitRange(pts, icase);
    }

    // ---- Quantifiers ----

    // The scan of the code emitted since from.
    method ScanAtom(from: nat) returns (needAdv: bool, needInit: bool)
      requires from <= |code|
      ensures ScanResult(needAdv, needInit) == Scan(code[from..])
    {
      needAdv, needInit := true, false;
      var pos := from;
      ghost var all := Scan(code[from..]);
      while pos < |code|
        invariant from <= pos <= |code|
        invariant all == ScanResult(needAdv && Scan(code[pos..]).needAdv, needInit || Scan(code[pos..]).needInit)
      {
        assert code[pos..][1..] == code[pos + 1..];
        match code[pos] {
          case OChar(_) => needAdv := false;
          case OAssert(_) =>
          case OSetI32(_, _) =>
          case OSetCharPos(_) =>
          case OPrev =>
          case OSave(_, _) =>
          case OSaveReset(_, _) =>
          case OBackRef(_, _, _) => needInit := true;
          case _ =>
            needInit := true;
            break;
        }
        pos := pos + 1;
      }
    }

    // The quantifier behind the atom whose code starts at atomStart.
    method EmitQuantifier(atomStart: nat, firstCapture: nat, min: nat, max: nat, greedy: bool, ghost front: seq<Op>,
                          ghost atom: seq<Op>)
      requires |front| == atomStart && code == front + atom && firstCapture <= captureCount && min <= max
      modifies this`code
      ensures var groups := old(captureCount) - firstCapture;
        code == front + QuantCode(PlanOf(atom, groups, min), atom, firstCapture, groups, min, max, greedy, 0, 0)
    {
      var groups := captureCount - firstCapture;
      ghost var p := PlanOf(atom, groups, min);
      ghost var a := WithReset(p, atom, firstCapture, groups);
      ghost var loop := LoopCode(a, p.check, min, max, greedy, 0, 0);
      Cut(front, atom);
      var check, needInit := ScanAtom(atomStart);
      if needInit && groups > 0 {
        EmitReset(atomStart, OSaveReset(firstCapture, firstCapture + groups - 1), front, atom);
      }
      assert code == front + a;
      if min == 0 && !needInit && groups > 0 {
        ghost var op := OSaveReset(firstCapture, firstCapture + groups - 1);
        EmitReset(atomStart, OSaveReset(firstCapture, firstCapture + groups - 1), front, a);
        Assoc(front, [op], a);
        EmitLoopOn(atomStart + 1, check, min, max, greedy, front + [op], a);
        QuantPieces(front, p, atom, firstCapture, groups, min, max, greedy, a, [op], loop);
      } else {
        EmitLoopOn(atomStart, check, min, max, greedy, front, a);
        QuantPieces(front, p, atom, firstCapture, groups, min, max, greedy, a, [], loop);
      }
    }

    // Clear the captures of the atom, in front of the code from atomStart on.
    method EmitReset(atomStart: nat, op: Op, ghost front: seq<Op>, ghost rest: seq<Op>)
      requires |front| == atomStart && code == front + rest
      modifies this`code
      ensures code == front + ([op] + rest)
    {
      Cut(front, rest);
      InsertOp(atomStart, op);
    }

    method EmitLoopOn(start: nat, check: bool, min: nat, max: nat, greedy: bool, ghost front: seq<Op>, ghost a: seq<Op>)
      requires |front| == start && code == front + a && min <= max
      modifies this`code
      ensures code == front + LoopCode(a, check, min, max, greedy, 0, 0)
    {
      Cut(front, a);
      EmitLoop(start, check, min, max, greedy);
    }

    // The loop around the atom that starts at start.
    method EmitLoop(start: nat, check: bool, min: nat, max: nat, greedy: bool)
      requires start <= |code| && min <= max
      modifies this`code
      ensures code == old(code)[..start] + LoopCode(old(code)[start..], check, min, max, greedy, 0, 0)
    {
      if min == 0 {
        if max == 0 {
          code := code[..start];
        } else if max == 1 || max == INT32_MAX {
          EmitStar(start, check, max == 1, greedy);
        } else {
          EmitOptional(start, check, max, greedy);
        }
      } else if min == 1 && max == INT32_MAX && !check {
        Emit(OSplit(!greedy, start - (|code| + 1)));
      } else {
        EmitCounted(start, check && min != max, greedy, max, max - min);
      }
    }

    method EmitOptional(start: nat, check: bool, max: nat, greedy: bool)
      requires start <= |code| && max > 0
      modifies this`code
      ensures code == old(code)[..start] + OptionalCode(greedy,
                                                        CountedCode(old(code)[start..], check, greedy, max, max, 0, 0))
    {
      ghost var front, a := code[..start], code[start..];
      var len := |code| - start;
      var op := OSplit(greedy, (if check then 3 else 2) + len);
      InsertOp(start, op);
      assert code[..start + 1] == front + [op] && code[start + 1..] == a;
      EmitCounted(start + 1, check, greedy, max, max);
      Assoc(front, [op], CountedCode(a, check, greedy, max, max, 0, 0));
    }

    method EmitStar(start: nat, check: bool, once: bool, greedy: bool)
      requires start <= |code|
      modifies this`code
      ensures code == old(code)[..start] + StarCode(old(code)[start..], check, once, greedy, 0)
    {
      ghost var front, a := code[..start], code[start..];
      var len := |code| - start;
      var hasGoto := !once;
      Insert(start, if check then 2 else 1);
      code := code[start := OSplit(greedy, len + (if hasGoto then 1 else 0) + (if check then 2 else 0))];
      ghost var split := code[start];
      if check {
        code := code[start + 1 := OSetCharPos(0)];
        FrontFilled(code, front, a, split, check);
        Emit(OCheckAdvance(0));
      } else {
        FrontFilled(code, front, a, split, check);
      }
      if hasGoto {
        EmitGoto(start);
      }
      StarWhole(front, a, split, check, once, OGoto(-(|a| + 2 + 2 * B2I(check))));
    }

    // Counter, optional position save in front of the atom; loop instruction behind it.
    method EmitCounted(start: nat, check: bool, greedy: bool, count: nat, limit: nat)
      requires start <= |code| && (limit == 0 ==> !check)
      modifies this`code
      ensures code == old(code)[..start] + CountedCode(old(code)[start..], check, greedy, count, limit, 0, 0)
    {
      ghost var front, a := code[..start], code[start..];
      Insert(start, if check then 2 else 1);
      code := code[start := OSetI32(0, count)];
      if check {
        code := code[start + 1 := OSetCharPos(0)];
      }
      var off := (start + 1) - (|code| + 1);
      Emit(if limit == 0 then OLoop(0, off) else OLoopSplit(!greedy, check, 0, limit, off));
      assert code == front + [OSetI32(0, count)] + If(check, OSetCharPos(0)) + a
                     + [if limit == 0 then OLoop(0, -(|a| + 1))
                        else OLoopSplit(!greedy, check, 0, limit, -(|a| + 1 + B2I(check)))];
    }

    // ---- Terms, alternatives, disjunctions ----

    method EmitAtom(a: Atom, bw: bool) returns (ok: bool)
      requires LexedAtom(a) && captureCount <= CAPTURE_COUNT_MAX
      modifies this
      ensures ok <==> WellFormed(NodeOfAtom(a)) && old(captureCount) + Groups(NodeOfAtom(a)) <= CAPTURE_COUNT_MAX
      ensures ok ==> captureCount == old(captureCount) + Groups(NodeOfAtom(a))
      ensures ok ==> code == old(code) + Code(e, NodeOfAtom(a), bw, old(captureCount))
      decreases a
    {
      match a
      case AChar(cls) =>
        if bw {
          Emit(OPrev);
        }
        ok := EmitTest(cls);
        if ok && bw {
          Emit(OPrev);
        }
      case AAssert(x) =>
        Emit(OAssert(x));
        ok := true;
      case ABackRef(groups, icase) =>
        Emit(OBackRef(bw, icase, groups));
        ok := true;
      case ACapture(d) =>
        ok := EmitCapture(d, bw);
      case AParen(d) =>
        ok := EmitDisjunction(d, bw);
      case ALook(behind, neg, d) =>
        ok := EmitLook(behind, neg, d);
    }

    method EmitCapture(d: Disj, bw: bool) returns (ok: bool)
      requires Lexed(d) && captureCount <= CAPTURE_COUNT_MAX
      modifies this
      ensures ok <==> WellFormed(NodeOf(d)) && old(captureCount) + 1 + Groups(NodeOf(d)) <= CAPTURE_COUNT_MAX
      ensures ok ==> captureCount == old(captureCount) + 1 + Groups(NodeOf(d))
      ensures ok ==> code == old(code) + GroupCode(bw, old(captureCount), Code(e, NodeOf(d), bw, old(captureCount) + 1))
      decreases d, 1
    {
      if captureCount >= CAPTURE_COUNT_MAX {
        return false;
      }
      ghost var front := code;
      var captureIndex := captureCount;
      captureCount := captureCount + 1;
      Emit(OSave(bw, captureIndex));
      ok := EmitDisjunction(d, bw);
      if ok {
        EmitLast(OSave(!bw, captureIndex), front, OSave(bw, captureIndex), Code(e, NodeOf(d), bw, captureIndex + 1));
      }
    }

    method EmitLook(behind: bool, neg: bool, d: Disj) returns (ok: bool)
      requires Lexed(d) && captureCount <= CAPTURE_COUNT_MAX
      modifies this
      ensures ok <==> WellFormed(NodeOf(d)) && old(captureCount) + Groups(NodeOf(d)) <= CAPTURE_COUNT_MAX
      ensures ok ==> captureCount == old(captureCount) + Groups(NodeOf(d))
      ensures ok ==> code == old(code) + LookCode(neg, Code(e, NodeOf(d), behind, old(captureCount)))
      decreases d, 1
    {
      var pos := |code|;
      ghost var front := code;
      Emit(OLook(neg, 0));
      ok := EmitDisjunction(d, behind);
      if ok {
        ghost var b := Code(e, NodeOf(d), behind, old(captureCount));
        EmitLast(OLookMatch(neg), front, OLook(neg, 0), b);
        Patch(front, OLook(neg, 0), OLook(neg, |b| + 1), b, OLookMatch(neg));
        code := code[pos := OLook(neg, |code| - (pos + 1))];
      }
    }

    method EmitTerm(t: Term, bw: bool) returns (ok: bool)
      requires LexedTerm(t) && captureCount <= CAPTURE_COUNT_MAX
      modifies this
      ensures ok <==> WellFormed(NodeOfTerm(t)) && old(captureCount) + Groups(NodeOfTerm(t)) <= CAPTURE_COUNT_MAX
      ensures ok ==> captureCount == old(captureCount) + Groups(NodeOfTerm(t))
      ensures ok ==> code == old(code) + Code(e, NodeOfTerm(t), bw, old(captureCount))
      decreases t, 0
    {
      var lastAtomStart, lastCaptureCount := |code|, captureCount;
      ok := EmitAtom(t.atom, bw);
      if !ok || t.quant.None? {
        return;
      }
      var q := t.quant.value;
      if q.max < q.min {
        return false;
      }
      ghost var c := Code(e, NodeOfAtom(t.atom), bw, lastCaptureCount);
      EmitQuantifier(lastAtomStart, lastCaptureCount, q.min, q.max, q.greedy, old(code), c);
      QuantTermCode(e, t, bw, lastCaptureCount, c);
    }

    // Move the code from mid on in front of the code from start on.
    method Rotate(start: nat, mid: nat)
      requires start <= mid <= |code|
      modifies this`code
      ensures code == old(code)[..start] + (old(code)[mid..] + old(code)[start..mid])
    {
      code := code[..start] + (code[mid..] + code[start..mid]);
    }

    method EmitAlternative(a: Alternative, bw: bool) returns (ok: bool)
      requires LexedAlternative(a) && captureCount <= CAPTURE_COUNT_MAX
      modifies this
      ensures var n := NodeOfTerms(a, |a.terms|);
        && (ok <==> WellFormed(n) && old(captureCount) + Groups(n) <= CAPTURE_COUNT_MAX)
        && (ok ==> captureCount == old(captureCount) + Groups(n))
        && (ok ==> code == old(code) + Code(e, n, bw, old(captureCount)))
      decreases a, 0
    {
      var start := |code|;
      ghost var front, lo := code, captureCount;
      var i := 0;
      ghost var n: Node := Empty;
      while i < |a.terms|
        invariant 0 <= i <= |a.terms| && n == NodeOfTerms(a, i)
        invariant WellFormed(n) && captureCount == lo + Groups(n) <= CAPTURE_COUNT_MAX
        invariant |front| == start && code == front + Code(e, n, bw, lo)
      {
        ghost var l := n;
        n := Seq(l, NodeOfTerm(a.terms[i]));
        assert n == NodeOfTerms(a, i + 1);
        ok := EmitNextTerm(start, a.terms[i], bw, front, l, lo);
        if !ok {
          PrefixFails(a, i, lo);
          return;
        }
        i := i + 1;
      }
      ok := true;
    }

    // One more term of the alternative that starts at start; in a lookbehind it goes in front.
    method EmitNextTerm(start: nat, t: Term, bw: bool, ghost front: seq<Op>, ghost l: Node,
                        ghost lo: nat) returns (ok: bool)
      requires LexedTerm(t) && captureCount <= CAPTURE_COUNT_MAX
      requires WellFormed(l) && captureCount == lo + Groups(l) && |front| == start && code == front + Code(e, l, bw, lo)
      modifies this
      ensures ok <==> WellFormed(NodeOfTerm(t)) && lo + Groups(Seq(l, NodeOfTerm(t))) <= CAPTURE_COUNT_MAX
      ensures ok ==> captureCount == lo + Groups(Seq(l, NodeOfTerm(t)))
      ensures ok ==> code == front + Code(e, Seq(l, NodeOfTerm(t)), bw, lo)
      decreases t, 1
    {
      ghost var before := Code(e, l, bw, lo);
      var termStart := |code|;
      ok := EmitTerm(t, bw);
      if ok {
        ghost var term := Code(e, NodeOfTerm(t), bw, lo + Groups(l));
        Assoc(front, before, term);
        if bw {
          Slices(front, before, term);
          Rotate(start, termStart);
        }
        SeqCode(e, l, NodeOfTerm(t), bw, lo, before, term);
      }
    }

    // One more alternative after those in n.
    method EmitOr(start: nat, d: Disj, i: nat, bw: bool, ghost front: seq<Op>, ghost n: Node,
                  ghost lo: nat) returns (ok: bool)
      requires i < |d.rest| && LexedAlternative(d.rest[i]) && n == NodeOfAlternatives(d, i) && WellFormed(n)
      requires captureCount == lo + Groups(n) <= CAPTURE_COUNT_MAX && |front| == start
      requires code == front + Code(e, n, bw, lo)
      modifies this
      ensures var m := NodeOfAlternatives(d, i + 1);
        && (ok <==> WellFormed(m) && lo + Groups(m) <= CAPTURE_COUNT_MAX)
        && (ok ==> captureCount == lo + Groups(m) && code == front + Code(e, m, bw, lo))
      decreases d.rest[i], 2
    {
      ghost var r := NodeOfTerms(d.rest[i], |d.rest[i].terms|);
      assert NodeOfAlternatives(d, i + 1) == Alt(n, r);
      ok := EmitNextAlternative(start, d.rest[i], bw, front, Code(e, n, bw, lo));
      if ok {
        AltOfCode(e, n, r, bw, lo);
      }
    }

    method EmitDisjunction(d: Disj, bw: bool) returns (ok: bool)
      requires Lexed(d) && captureCount <= CAPTURE_COUNT_MAX
      modifies this
      ensures var n := NodeOf(d);
        && (ok <==> WellFormed(n) && old(captureCount) + Groups(n) <= CAPTURE_COUNT_MAX)
        && (ok ==> captureCount == old(captureCount) + Groups(n))
        && (ok ==> code == old(code) + Code(e, n, bw, old(captureCount)))
      decreases d, 0
    {
      var start := |code|;
      ghost var front, lo := code, captureCount;
      ok := EmitAlternative(d.first, bw);
      if !ok {
        AlternativesFail(d, 0, lo);
        return;
      }
      var i := 0;
      ghost var n := NodeOfAlternatives(d, 0);
      while i < |d.rest|
        invariant 0 <= i <= |d.rest| && n == NodeOfAlternatives(d, i)
        invariant WellFormed(n) && captureCount == lo + Groups(n) <= CAPTURE_COUNT_MAX
        invariant |front| == start && code == front + Code(e, n, bw, lo)
      {
        ok := EmitOr(start, d, i, bw, front, n, lo);
        n := NodeOfAlternatives(d, i + 1);
        if !ok {
          AlternativesFail(d, i + 1, lo);
          return;
        }
        i := i + 1;
      }
      assert n == NodeOf(d);
      ok := true;
    }

    // One more alternative: a split in front of everything since start, a jump behind it.
    method EmitNextAlternative(start: nat, a: Alternative, bw: bool, ghost front: seq<Op>,
                               ghost l: seq<Op>) returns (ok: bool)
      requires LexedAlternative(a) && captureCount <= CAPTURE_COUNT_MAX && |front| == start && code == front + l
      modifies this
      ensures var n := NodeOfTerms(a, |a.terms|);
        && (ok <==> WellFormed(n) && old(captureCount) + Groups(n) <= CAPTURE_COUNT_MAX)
        && (ok ==> captureCount == old(captureCount) + Groups(n))
        && (ok ==> code == front + AltCode(l, Code(e, n, bw, old(captureCount))))
      decreases a, 1
    {
      ghost var lo := captureCount;
      var len := |code| - start;
      Cut(front, l);
      InsertOp(start, OSplit(true, len + 1));
      var pos := |code|;
      Emit(OGoto(0));
      ok := EmitAlternative(a, bw);
      if ok {
        ghost var r := Code(e, NodeOfTerms(a, |a.terms|), bw, lo);
        assert code == front + ([OSplit(true, |l| + 1)] + l) + [OGoto(0)] + r;
        code := code[pos := OGoto(|code| - (pos + 1))];
        assert code == front + ([OSplit(true, |l| + 1)] + l) + [OGoto(|r|)] + r;
      }
    }
  }

  lemma QuantPieces(front: seq<Op>, p: Plan, atom: seq<Op>, lo: nat, groups: nat, min: nat, max: nat, greedy: bool,
                    a: seq<Op>, pre: seq<Op>, loop: seq<Op>)
    requires (groups == 0 ==> !p.reset && !p.pre) && min <= max
    requires a == WithReset(p, atom, lo, groups) && loop == LoopCode(a, p.check, min, max, greedy, 0, 0)
    requires pre == if p.pre then [OSaveReset(lo, lo + groups - 1)] else []
    ensures front + QuantCode(p, atom, lo, groups, min, max, greedy, 0, 0) == front + pre + loop
    ensures pre == [] ==> front + pre == front
  {
    Assoc(front, pre, loop);
    assert QuantCode(p, atom, lo, groups, min, max, greedy, 0, 0) == pre + loop;
  }

  lemma QuantTermCode(e: Env, t: Term, bw: bool, lo: nat, c: seq<Op>)
    requires LexedTerm(t) && t.quant.Some? && t.quant.value.min <= t.quant.value.max
    requires WellFormed(NodeOfAtom(t.atom)) && c == Code(e, NodeOfAtom(t.atom), bw, lo)
    ensures WellFormed(NodeOfTerm(t)) && Groups(NodeOfTerm(t)) == Groups(NodeOfAtom(t.atom))
    ensures var q, g := t.quant.value, Groups(NodeOfAtom(t.atom));
      Code(e, NodeOfTerm(t), bw, lo) == QuantCode(PlanOf(c, g, q.min), c, lo, g, q.min, q.max, q.greedy, 0, 0)
  {
  }

  lemma SeqCode(e: Env, l: Node, r: Node, bw: bool, lo: nat, cl: seq<Op>, cr: seq<Op>)
    requires WellFormed(l) && WellFormed(r) && cl == Code(e, l, bw, lo) && cr == Code(e, r, bw, lo + Groups(l))
    ensures Code(e, Seq(l, r), bw, lo) == if bw then cr + cl else cl + cr
  {
  }

  lemma AltOfCode(e: Env, l: Node, r: Node, bw: bool, lo: nat)
    requires WellFormed(l) && WellFormed(r)
    ensures AltCode(Code(e, l, bw, lo), Code(e, r, bw, lo + Groups(l))) == Code(e, Alt(l, r), bw, lo)
  {
  }

  lemma Cut<T>(a: seq<T>, b: seq<T>)
    ensures (a + b)[..|a|] == a && (a + b)[|a|..] == b
  {
  }

  lemma Wrap<T>(front: seq<T>, a: T, c: seq<T>, z: T)
    ensures front + [a] + c + [z] == front + ([a] + c + [z])
  {
  }

  lemma Patch<T>(front: seq<T>, a: T, a': T, c: seq<T>, z: T)
    ensures |front + ([a] + c + [z])| == |front| + 1 + |c| + 1
    ensures (front + ([a] + c + [z]))[|front| := a'] == front + ([a'] + c + [z])
  {
  }

  lemma Slices<T>(a: seq<T>, b: seq<T>, c: seq<T>)
    ensures (a + b + c)[..|a|] == a
    ensures (a + b + c)[|a|..|a| + |b|] == b
    ensures (a + b + c)[|a| + |b|..] == c
  {
  }

  // The instructions in front of an atom have been filled in.
  lemma FrontFilled(c: seq<Op>, front: seq<Op>, a: seq<Op>, split: Op, check: bool)
    requires |c| == |front| + 1 + B2I(check) + |a| && c[..|front|] == front && c[|front| + 1 + B2I(check)..] == a
    requires c[|front|] == split && (check ==> c[|front| + 1] == OSetCharPos(0))
    ensures c == front + [split] + If(check, OSetCharPos(0)) + a
  {
  }

  lemma StarWhole(front: seq<Op>, a: seq<Op>, split: Op, check: bool, once: bool, jump: Op)
    ensures front + ([split] + If(check, OSetCharPos(0)) + a + If(check, OCheckAdvance(0)) + If(!once, jump))
         == front + [split] + If(check, OSetCharPos(0)) + a + If(check, OCheckAdvance(0)) + If(!once, jump)
  {
  }

  // An error in one term is an error of the whole alternative.
  lemma {:induction false} PrefixFails(a: Alternative, i: nat, lo: nat)
    requires i < |a.terms|
    requires var n := NodeOfTerms(a, i + 1); !(WellFormed(n) && lo + Groups(n) <= CAPTURE_COUNT_MAX)
    ensures var n := NodeOfTerms(a, |a.terms|); !(WellFormed(n) && lo + Groups(n) <= CAPTURE_COUNT_MAX)
    decreases |a.terms| - i
  {
    if i + 1 < |a.terms| {
      PrefixFails(a, i + 1, lo);
    }
  }

  lemma {:induction false} AlternativesFail(d: Disj, i: nat, lo: nat)
    requires i <= |d.rest|
    requires var n := NodeOfAlternatives(d, i); !(WellFormed(n) && lo + Groups(n) <= CAPTURE_COUNT_MAX)
    ensures var n := NodeOf(d); !(WellFormed(n) && lo + Groups(n) <= CAPTURE_COUNT_MAX)
    decreases |d.rest| - i
  {
    if i < |d.rest| {
      AlternativesFail(d, i + 1, lo);
    }
  }
}
