// The instruction set of the matcher. Jumps are relative to the following instruction and count
// instructions. Registers are numbered by the allocation pass; the emitter writes 0 everywhere.
module Bytecode {
  import opened RegexSyntax

  datatype CharTest =
    | TChar(c: nat, icase: bool)
    | TDot
    | TAny
    | TSpace
    | TNotSpace
    // 16-bit bounds, 0xffff in last place is infinity
    | TRange(ranges: seq<(nat, nat)>, icase: bool)
    | TRange32(ranges: seq<(nat, nat)>, icase: bool)

  datatype Op =
    | OChar(t: CharTest)
    | OAssert(a: Assertion)
    | OGoto(off: int)
    | OSplit(nextFirst: bool, off: int)
    | OMatch
    | OLookMatch(neg: bool)
    | OSave(end: bool, group: nat)
    | OSaveReset(first: nat, last: nat)
    | OLoop(reg: nat, off: int)
    | OLoopSplit(nextFirst: bool, checkAdv: bool, reg: nat, limit: nat, off: int)
    | OSetI32(reg: nat, val: nat)
    | OSetCharPos(reg: nat)
    | OCheckAdvance(reg: nat)
    | OBackRef(bw: bool, icase: bool, groups: seq<nat>)
    | OLook(neg: bool, off: int)
    | OPrev

  // ---- Tests on one character ----

  predicate InRanges(ranges: seq<(nat, nat)>, c: nat) {
    exists i :: 0 <= i < |ranges| && ranges[i].0 <= c <= ranges[i].1
  }

  // The 16-bit form: 0xffff as the last upper bound stands for infinity.
  predicate InRanges16(ranges: seq<(nat, nat)>, c: nat) {
    InRanges(ranges, c) || (ranges != [] && c >= 0xffff && ranges[|ranges| - 1].1 == 0xffff)
  }

  predicate Passes(e: Env, t: CharTest, ch: nat) {
    match t
    case TChar(c, icase) => c == Fold(e, icase, ch)
    case TDot => !IsLineTerminator(ch)
    case TAny => true
    case TSpace => e.isSpace(ch)
    case TNotSpace => !e.isSpace(ch)
    case TRange(ranges, icase) => InRanges16(ranges, Fold(e, icase, ch))
    case TRange32(ranges, icase) => InRanges(ranges, Fold(e, icase, ch))
  }

  // ---- The scan of an atom made before a quantifier is emitted ----

  // needAdv: the atom may match without moving. needInit: some capture of the atom may be left
  // unset or be read, so captures must be reset before each iteration.
  datatype ScanResult = ScanResult(needAdv: bool, needInit: bool)

  function Scan(code: seq<Op>): ScanResult {
    if code == [] then ScanResult(true, false)
    else
      match code[0]
      case OChar(_) => ScanResult(false, Scan(code[1..]).needInit)
      case OAssert(_) => Scan(code[1..])
      case OSetI32(_, _) => Scan(code[1..])
      case OSetCharPos(_) => Scan(code[1..])
      case OPrev => Scan(code[1..])
      case OSave(_, _) => Scan(code[1..])
      case OSaveReset(_, _) => Scan(code[1..])
      case OBackRef(_, _, _) => ScanResult(Scan(code[1..]).needAdv, true)
      case _ => ScanResult(true, true)
  }

  lemma {:induction false} ScanConcat(a: seq<Op>, b: seq<Op>)
    ensures !Scan(a + b).needAdv ==> !Scan(a).needAdv || !Scan(b).needAdv
    ensures Scan(a).needInit ==> Scan(a + b).needInit
    ensures !Scan(a).needInit ==> Scan(a + b).needInit == Scan(b).needInit
  {
    if a == [] {
      assert a + b == b;
    } else {
      assert (a + b)[1..] == a[1..] + b;
      ScanConcat(a[1..], b);
    }
  }

  // ---- Sequences ----

  lemma Assoc<T>(a: seq<T>, b: seq<T>, c: seq<T>)
    ensures a + b + c == a + (b + c)
  {
  }
}
