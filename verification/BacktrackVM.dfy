// The matcher proper: one stack with choice points, lookahead frames and an undo log, changed in
// place. Every instruction is proved to do what the snapshot machine does.
module BacktrackVM {
  import opened RegexSyntax
  import opened Bytecode
  import opened StructuredRun
  import opened SnapshotVM
  import opened UndoLog

  // Outcome of one instruction. Abort stands for a failed assertion or a stray access.
  datatype Outcome = GoOn | Success | Failure | Abort

  // Range tables are searched by bisection and must be sorted.
  predicate RangesSorted(rs: seq<(nat, nat)>) {
    && |rs| > 0
    && (forall i :: 0 <= i < |rs| ==> rs[i].0 <= rs[i].1)
    && (forall i, j :: 0 <= i < j < |rs| ==> rs[i].1 < rs[j].0)
  }

  predicate TestOk(t: CharTest) {
    match t
    case TRange(rs, _) => RangesSorted(rs) && |rs| < 65536
    case TRange32(rs, _) => RangesSorted(rs) && |rs| < 65536
    case _ => true
  }

  predicate ProgOk(prog: seq<Op>) {
    forall i :: 0 <= i < |prog| && prog[i].OChar? ==> TestOk(prog[i].t)
  }

  // The bisection over a range table. Indices are 32-bit words; the test against the first range
  // keeps the upper index from wrapping.
  method Bisect(rs: seq<(nat, nat)>, c: nat) returns (found: bool)
    requires RangesSorted(rs) && |rs| < 65536
    requires c >= rs[0].0
    ensures found == InRanges(rs, c)
  {
    var idxMin, idxMax := 0, |rs| - 1;
    while idxMin <= idxMax
      invariant 0 <= idxMin <= |rs| && -1 <= idxMax < |rs|
      invariant idxMin > 0 || idxMax >= 0
      invariant forall i :: 0 <= i < idxMin ==> rs[i].1 < c
      invariant forall i :: idxMax < i < |rs| ==> c < rs[i].0
      decreases idxMax - idxMin
    {
      var idx := (idxMin + idxMax) % TWO32 / 2;
      assert idxMin <= idx <= idxMax;
      if c < rs[idx].0 {
        assert idx > 0;
        idxMax := (idx - 1) % TWO32;
      } else if c > rs[idx].1 {
        assert forall i :: 0 <= i < idx ==> rs[i].1 < rs[idx].0;
        idxMin := idx + 1;
      } else {
        return true;
      }
    }
    return false;
  }

  method SearchRange16(rs: seq<(nat, nat)>, c: nat) returns (found: bool)
    requires RangesSorted(rs) && |rs| < 65536
    ensures found == InRanges16(rs, c)
  {
    if c < rs[0].0 {
      assert forall i :: 0 < i < |rs| ==> rs[0].1 < rs[i].0;
      assert rs[|rs| - 1].0 >= rs[0].0;
      assert rs[|rs| - 1].1 == 0xffff && c >= 0xffff ==> InRanges16(rs, c);
      return false;
    }
    var high := rs[|rs| - 1].1;
    if c >= 0xffff && high == 0xffff {
      return true;
    }
    if c > high {
      assert forall i :: 0 <= i < |rs| - 1 ==> rs[i].1 < rs[|rs| - 1].0;
      return false;
    }
    found := Bisect(rs, c);
  }

  method SearchRange32(rs: seq<(nat, nat)>, c: nat) returns (found: bool)
    requires RangesSorted(rs) && |rs| < 65536
    ensures found == InRanges(rs, c)
  {
    if c < rs[0].0 {
      assert forall i :: 0 < i < |rs| ==> rs[0].1 < rs[i].0;
      return false;
    }
    if c > rs[|rs| - 1].1 {
      assert forall i :: 0 <= i < |rs| - 1 ==> rs[i].1 < rs[|rs| - 1].0;
      return false;
    }
    found := Bisect(rs, c);
  }

  // More undo pairs on top.
  function AddLog(d: Drained, log: seq<Elem>): Drained {
    if d.NoLook? then d else Drained(d.base, d.log + log)
  }

  // One frame further down.
  lemma DrainStep(here: seq<Elem>, bp: nat, words: nat, log: seq<Elem>)
    requires StackOk(here, bp, words) && bp > 0
    ensures AddLog(Drain(here, bp, words), log) ==
      if here[bp - 1].kind == KLook then Drained(bp - 3, here[bp..] + log)
      else AddLog(Drain(here[..bp - 3], here[bp - 1].val, words), here[bp..] + log)
  {
    var d := Drain(here[..bp - 3], here[bp - 1].val, words);
    if d.Drained? {
      assert d.log + here[bp..] + log == d.log + (here[bp..] + log);
    }
  }

  // The latest pair of a segment.
  lemma UndoOne(mem: seq<Elem>, bp: nat, sp: nat, caps: seq<int>)
    requires bp < sp <= |mem| && SegOk(mem[bp..sp], |caps|)
    ensures sp >= bp + 2 && mem[sp - 2].Word? && mem[sp - 1].Word? && 0 <= mem[sp - 2].v < |caps|
    ensures SegOk(mem[bp..sp - 2], |caps|)
    ensures Unwind(caps, mem[bp..sp]) == Unwind(caps[mem[sp - 2].v := mem[sp - 1].v], mem[bp..sp - 2])
  {
    var seg, k := mem[bp..sp], sp - bp;
    UnwindLast(caps, seg);
    SliceEnds(mem, bp, sp);
    assert seg[..k - 2] == mem[bp..sp - 2];
  }

  lemma UnwindLast(caps: seq<int>, seg: seq<Elem>)
    requires seg != [] && SegOk(seg, |caps|)
    ensures |seg| >= 2 && seg[|seg| - 2].Word? && seg[|seg| - 1].Word? && 0 <= seg[|seg| - 2].v < |caps|
    ensures SegOk(seg[..|seg| - 2], |caps|)
    ensures Unwind(caps, seg) == Unwind(caps[seg[|seg| - 2].v := seg[|seg| - 1].v], seg[..|seg| - 2])
  {
  }

  lemma SliceEnds(mem: seq<Elem>, bp: nat, sp: nat)
    requires bp + 2 <= sp <= |mem|
    ensures |mem[bp..sp]| == sp - bp
    ensures mem[bp..sp][sp - bp - 2] == mem[sp - 2] && mem[bp..sp][sp - bp - 1] == mem[sp - 1]
    ensures mem[bp..sp][..sp - bp - 2] == mem[bp..sp - 2]
  {
  }

  // The stack, the memory it lies in and the stack it was cut from agree around a frame.
  lemma HereIsMem(mem: seq<Elem>, here: seq<Elem>, stack: seq<Elem>, bp: nat)
    requires |here| <= |mem| && |here| <= |stack| && here == mem[..|here|] == stack[..|here|]
    requires 3 <= bp <= |here|
    ensures here[bp - 3] == mem[bp - 3] == stack[bp - 3]
    ensures here[bp - 2] == mem[bp - 2] == stack[bp - 2]
    ensures here[bp - 1] == mem[bp - 1] == stack[bp - 1]
    ensures here[bp..] == mem[bp..|here|]
    ensures here[..bp - 3] == mem[..bp - 3] == stack[..bp - 3]
  {
  }

  class Exec {
    const m: Machine
    // two words per group, then the registers
    const capture: array<int>
    // the stack; it is reallocated when it is too small
    var buf: seq<Elem>
    var sp: nat
    var bp: nat
    var pc: int
    var cptr: nat

    ghost predicate Valid()
      reads this, capture
    {
      && sp <= |buf|
      && StackOk(buf[..sp], bp, capture.Length)
      && 2 * m.nc <= capture.Length
      && ProgOk(m.prog)
    }

    ghost function Frames(): seq<Frame>
      reads this, capture
      requires Valid()
    {
      FramesOf(capture[..], buf[..sp], bp)
    }

    // The snapshot configuration this object stands for.
    ghost function Abs(): Config
      reads this, capture
      requires Valid()
    {
      Going(pc, cptr, capture[..], Frames())
    }

    // ... and after an instruction with this outcome.
    ghost function After(r: Outcome): Config
      reads this, capture
      requires r == GoOn ==> Valid()
    {
      match r
      case GoOn => Abs()
      case Success => Matched(capture[..])
      case Failure => Failed
      case Abort => Stuck
    }

    // The instruction at pc is op and may be executed here.
    ghost predicate At(op: Op)
      reads this
    {
      0 <= pc < |m.prog| && m.prog[pc] == op && cptr <= |m.e.input|
    }

    constructor (machine: Machine, words: array<int>, start: nat)
      requires 2 * machine.nc <= words.Length && ProgOk(machine.prog)
      ensures m == machine && capture == words
      ensures Valid() && Abs() == Going(0, start, words[..], [])
    {
      m, capture := machine, words;
      buf, sp, bp := seq(32, _ => Word(0)), 0, 0;
      pc, cptr := 0, start;
    }

    method CheckStackSpace(n: nat)
      requires sp <= |buf|
      modifies this`buf
      ensures sp + n <= |buf| && buf[..sp] == old(buf[..sp])
    {
      if |buf| - sp < n {
        var size := |buf| * 3 / 2;
        if size < sp + n {
          size := sp + n;
        }
        buf := buf + seq(size - |buf|, _ => Word(0));
      }
    }

    method SaveCapture(idx: nat, value: int)
      requires Valid() && idx < capture.Length
      modifies this`buf, this`sp, capture
      ensures Valid() && capture[..] == old(capture[..])[idx := value] && Frames() == old(Frames())
    {
      ghost var caps, stack := capture[..], buf[..sp];
      CheckStackSpace(2);
      buf := buf[sp := Word(idx)][sp + 1 := Word(capture[idx])];
      sp := sp + 2;
      capture[idx] := value;
      assert buf[..sp] == stack + [Word(idx), Word(caps[idx])];
      assert capture[..] == caps[idx := value];
      FramesSave(caps, stack, bp, idx, value);
    }

    // Save the old value only if the index was not saved since the last frame.
    method SaveCaptureCheck(idx: nat, value: int)
      requires Valid() && idx < capture.Length
      modifies this`buf, this`sp, capture
      ensures Valid() && capture[..] == old(capture[..])[idx := value] && Frames() == old(Frames())
    {
      ghost var caps, stack := capture[..], buf[..sp];
      var sp1, saved := sp, false;
      assert stack[bp..] == buf[bp..sp];
      while sp1 > bp && !saved
        invariant buf == old(buf) && sp == old(sp) && bp == old(bp) && capture[..] == caps
        invariant bp <= sp1 <= sp && (sp - sp1) % 2 == 0
        invariant SegOk(buf[bp..sp1], capture.Length)
        invariant saved ==> sp1 < sp && buf[sp1] == Word(idx)
      {
        UndoOne(buf, bp, sp1, caps);
        saved := buf[sp1 - 2].v == idx;
        sp1 := sp1 - 2;
      }
      if saved {
        capture[idx] := value;
        assert capture[..] == caps[idx := value];
        assert stack[sp1] == Word(idx);
        FramesSkip(caps, stack, bp, idx, value, sp1);
      } else {
        SaveCapture(idx, value);
      }
    }

    method PushFrame(target: int, kind: Kind)
      requires Valid()
      modifies this`buf, this`sp, this`bp
      ensures Valid() && Frames() == old(Frames()) + [Frame(kind, target, cptr, capture[..])]
    {
      ghost var caps, stack := capture[..], buf[..sp];
      CheckStackSpace(3);
      buf := buf[sp := Word(target)][sp + 1 := Word(cptr)][sp + 2 := Bp(bp, kind)];
      ghost var bp0 := bp;
      sp := sp + 3;
      bp := sp;
      assert buf[..sp] == stack + [Word(target), Word(cptr), Bp(bp0, kind)];
      FramesPush(caps, stack, bp0, target, cptr, kind);
    }

    // Undo the writes made since the last frame.
    method UndoSegment()
      requires Valid()
      modifies this`sp, capture
      ensures sp == bp && bp <= old(sp)
      ensures capture[..] == Unwind(old(capture[..]), old(buf[..sp])[bp..])
    {
      ghost var all := Unwind(capture[..], buf[..sp][bp..]);
      assert buf[..sp][bp..] == buf[bp..sp];
      while sp > bp
        invariant bp <= sp <= old(sp)
        invariant SegOk(buf[bp..sp], capture.Length)
        invariant Unwind(capture[..], buf[bp..sp]) == all
      {
        ghost var seg, caps := buf[bp..sp], capture[..];
        UndoOne(buf, bp, sp, caps);
        capture[buf[sp - 2].v] := buf[sp - 1].v;
        assert capture[..] == caps[buf[sp - 2].v := buf[sp - 1].v];
        sp := sp - 2;
      }
      assert buf[bp..sp] == [];
    }

    // Pop the top frame after its segment has been undone.
    method PopFrame() returns (kind: Kind)
      requires Valid() && bp > 0
      modifies this`sp, this`bp, this`pc, this`cptr, capture
      ensures Valid() && bp < old(bp)
      ensures old(Frames()) == Frames() + [Frame(kind, pc, cptr, capture[..])]
    {
      ghost var stack := buf[..sp];
      UndoSegment();
      assert bp <= |stack| && stack[..bp - 3] == buf[..bp - 3];
      assert stack[bp - 3] == buf[bp - 3] && stack[bp - 2] == buf[bp - 2] && stack[bp - 1] == buf[bp - 1];
      pc := buf[sp - 3].v;
      cptr := buf[sp - 2].v;
      kind := buf[sp - 1].kind;
      bp := buf[sp - 1].val;
      sp := sp - 3;
    }

    // The code at the label no_match.
    method Fail() returns (r: Outcome)
      requires Valid()
      modifies this`sp, this`bp, this`pc, this`cptr, capture
      ensures r == GoOn || r == Failure
      ensures r == GoOn ==> Valid()
      ensures After(r) == Backtrack(old(Frames()))
    {
      while true
        invariant Valid() && Backtrack(Frames()) == Backtrack(old(Frames()))
        decreases bp
      {
        if bp == 0 {
          return Failure;
        }
        ghost var fs := Frames();
        var kind := PopFrame();
        assert fs[..|fs| - 1] == Frames();
        if kind != KLook {
          return GoOn;
        }
      }
    }

    method DoNegLookMatch() returns (r: Outcome)
      requires Valid() && At(OLookMatch(true))
      modifies this`sp, this`bp, this`pc, this`cptr, capture
      ensures r == GoOn ==> Valid()
      ensures After(r) == Step(m, old(Abs()))
    {
      while true
        invariant Valid() && PopTo(Frames(), KNeg) == PopTo(old(Frames()), KNeg)
        decreases bp
      {
        if bp == 0 {
          return Abort;
        }
        ghost var fs := Frames();
        var kind := PopFrame();
        assert fs[..|fs| - 1] == Frames();
        if kind == KNeg {
          break;
        }
      }
      r := Fail();
    }
  
    // A lookahead has succeeded: drop its choice points but keep its captures, and keep the undo
    // pairs above them for the frames further down.
    method DoLookMatch() returns (r: Outcome)
      requires Valid() && At(OLookMatch(false))
      modifies this`buf, this`sp, this`bp, this`pc, this`cptr
      ensures r == GoOn ==> Valid()
      ensures After(r) == Step(m, old(Abs()))
    {
      var found := LeaveLook();
      r := if found then GoOn else Abort;
    }

    method LeaveLook() returns (found: bool)
      requires Valid()
      modifies this`buf, this`sp, this`bp, this`pc, this`cptr
      ensures var p := PopTo(old(Frames()), KLook);
        && found == p.Some?
        && (found ==> Valid() && pc == p.value.0.pc && cptr == p.value.0.pos && Frames() == p.value.1)
    {
      ghost var caps, stack, bp0 := capture[..], buf[..sp], bp;
      ghost var base, log;
      found, base, log := PopLook();
      if found {
        LeaveFrames(caps, stack, bp0, base, log, buf[..sp], bp);
      } else {
        DrainPops(caps, stack, bp0);
      }
    }

    // Back to the lookahead frame, with the undo pairs made since; at the stack base they are dropped.
    method PopLook() returns (found: bool, ghost base: nat, ghost log: seq<Elem>)
      requires sp <= |buf| && StackOk(buf[..sp], bp, capture.Length)
      modifies this`buf, this`sp, this`bp, this`pc, this`cptr
      ensures sp <= |buf| == |old(buf)|
      ensures var stack := old(buf[..sp]);
        var d := Drain(stack, old(bp), capture.Length);
        if !found then d.NoLook?
        else
          && d == Drained(base, log) && base + 2 < |stack|
          && stack[base].Word? && stack[base + 1].Word? && stack[base + 2].Bp?
          && stack[base].v == pc && stack[base + 1].v == cptr && stack[base + 2].val == bp
          && buf[..sp] == if base == 0 then [] else stack[..base] + log
    {
      var top := sp;
      found := FindLook();
      if !found {
        base, log := 0, [];
        return;
      }
      base, log := sp, ChainLog(buf, sp, top);
      if sp != 0 {
        CompactLog(top);
      }
    }

    // Walk down to the lookahead frame, leaving in each frame the end of the segment above it.
    method FindLook() returns (found: bool)
      requires sp <= |buf| && StackOk(buf[..sp], bp, capture.Length)
      modifies this`buf, this`sp, this`bp, this`pc, this`cptr
      ensures sp <= |buf| == |old(buf)|
      ensures if found then Found(old(buf[..sp]), old(bp)) else Drain(old(buf[..sp]), old(bp), capture.Length).NoLook?
    {
      ghost var stack, bp0, log := buf[..sp], bp, [];
      assert AddLog(Drain(stack, bp, capture.Length), log) == Drain(stack, bp, capture.Length);
      while true
        invariant |buf| == |old(buf)|
        invariant Walking(stack, bp0, log)
        decreases sp
      {
        if bp == 0 {
          return false;
        }
        var kind;
        kind, log := WalkDown(stack, bp0, log);
        if kind == KLook {
          return true;
        }
      }
    }

    // The walk is at sp: the stack below is untouched, and the segments above are chained together.
    ghost predicate Walking(stack: seq<Elem>, bp0: nat, log: seq<Elem>)
      reads this
    {
      && sp <= |stack| <= |buf| && buf[..sp] == stack[..sp]
      && StackOk(stack, bp0, capture.Length) && StackOk(stack[..sp], bp, capture.Length)
      && ChainOk(buf, sp, |stack|) && ChainLog(buf, sp, |stack|) == log
      && Drain(stack, bp0, capture.Length) == AddLog(Drain(stack[..sp], bp, capture.Length), log)
    }

    // The walk has popped the lookahead frame.
    ghost predicate Found(stack: seq<Elem>, bp0: nat)
      requires StackOk(stack, bp0, capture.Length)
      reads this
    {
      && sp <= |stack| - 3 && |stack| <= |buf| && buf[..sp] == stack[..sp]
      && ChainOk(buf, sp, |stack|)
      && Drain(stack, bp0, capture.Length) == Drained(sp, ChainLog(buf, sp, |stack|))
      && stack[sp].Word? && stack[sp + 1].Word? && stack[sp + 1].v >= 0 && stack[sp + 2].Bp?
      && pc == stack[sp].v && cptr == stack[sp + 1].v && bp == stack[sp + 2].val
    }

    method WalkDown(ghost stack: seq<Elem>, ghost bp0: nat, ghost log: seq<Elem>)
      returns (kind: Kind, ghost log': seq<Elem>)
      requires Walking(stack, bp0, log) && bp > 0
      modifies this`buf, this`sp, this`bp, this`pc, this`cptr
      ensures |buf| == |old(buf)| && sp < old(sp)
      ensures if kind == KLook then Found(stack, bp0) else Walking(stack, bp0, log')
    {
      ghost var here := stack[..sp];
      DrainStep(here, bp, capture.Length, log);
      HereIsMem(buf, here, stack, bp);
      log' := here[bp..] + log;
      kind := LinkFrame(|stack|);
    }

    // One step of the walk: pop a frame and leave the end of the segment above it in its place.
    method LinkFrame(ghost top: nat) returns (kind: Kind)
      requires sp <= |buf| && 3 <= bp <= sp
      requires buf[bp - 3].Word? && buf[bp - 2].Word? && buf[bp - 2].v >= 0 && buf[bp - 1].Bp?
      requires ChainOk(buf, sp, top)
      modifies this`buf, this`sp, this`bp, this`pc, this`cptr
      ensures |buf| == |old(buf)| && sp == old(bp) - 3 && buf[..sp] == old(buf)[..sp]
      ensures pc == old(buf[bp - 3].v) && cptr == old(buf[bp - 2].v) && bp == old(buf[bp - 1].val)
      ensures kind == old(buf[bp - 1].kind)
      ensures ChainOk(buf, sp, top) && ChainLog(buf, sp, top) == old(buf[bp..sp]) + old(ChainLog(buf, sp, top))
    {
      ChainLink(buf, bp - 3, sp, top);
      var sp1 := sp;
      sp := bp;
      pc := buf[sp - 3].v;
      cptr := buf[sp - 2].v;
      kind := buf[sp - 1].kind;
      bp := buf[sp - 1].val;
      buf := buf[sp - 1 := Word(sp1)];
      sp := sp - 3;
    }

    // Copy the segments of the chain down over the frames between them.
    method CompactLog(top: nat)
      requires ChainOk(buf, sp, top)
      modifies this`buf, this`sp
      ensures sp <= |buf| == |old(buf)|
      ensures buf[..sp] == old(buf[..sp]) + ChainLog(old(buf), old(sp), top)
    {
      var sp1 := sp;
      ghost var base, copied := buf[..sp], [];
      assert base + copied == base && copied + ChainLog(buf, sp, top) == ChainLog(buf, sp, top);
      while sp1 < top
        invariant sp <= sp1 <= top && |buf| == |old(buf)|
        invariant ChainOk(buf, sp1, top)
        invariant buf[..sp] == base + copied
        invariant copied + ChainLog(buf, sp1, top) == ChainLog(old(buf), old(sp), top)
      {
        ghost var seg: seq<Elem>;
        sp1, seg := MoveSegment(sp1, top);
        Assoc(base, copied, seg);
        Assoc(copied, seg, ChainLog(buf, sp1, top));
        copied := copied + seg;
      }
      assert copied + [] == copied;
    }

    method MoveSegment(sp1: nat, ghost top: nat) returns (next: nat, ghost seg: seq<Elem>)
      requires sp <= sp1 < top && ChainOk(buf, sp1, top)
      modifies this`buf, this`sp
      ensures sp <= next && sp1 < next <= top && |buf| == |old(buf)| && ChainOk(buf, next, top)
      ensures buf[..sp] == old(buf[..sp]) + seg
      ensures old(ChainLog(buf, sp1, top)) == seg + ChainLog(buf, next, top)
    {
      ghost var mem := buf;
      next, seg := buf[sp1 + 2].v, buf[sp1 + 3..buf[sp1 + 2].v];
      CopyDown(sp1 + 3, next);
      ChainFrame(mem, buf, next, top);
    }

    // Move one segment down to the top of the stack.
    method CopyDown(from: nat, next: nat)
      requires sp < from <= next <= |buf|
      modifies this`buf, this`sp
      ensures |buf| == |old(buf)| && sp == old(sp) + (next - from)
      ensures forall i :: next <= i < |buf| ==> buf[i] == old(buf[i])
      ensures buf[..sp] == old(buf[..sp]) + old(buf[from..next])
    {
      var sp1 := from;
      ghost var mem, d := buf, sp;
      while sp1 < next
        invariant from <= sp1 <= next && sp == d + (sp1 - from) && |buf| == |mem|
        invariant forall i :: sp1 <= i < |mem| ==> buf[i] == mem[i]
        invariant buf[..sp] == mem[..d] + mem[from..sp1]
      {
        ghost var before := buf;
        buf := buf[sp := buf[sp1]];
        sp, sp1 := sp + 1, sp1 + 1;
        assert buf[..sp] == before[..sp - 1] + [mem[sp1 - 1]];
        assert mem[from..sp1] == mem[from..sp1 - 1] + [mem[sp1 - 1]];
      }
    }
  
    method TestChar(t: CharTest, c: nat) returns (ok: bool)
      requires TestOk(t)
      ensures ok == Passes(m.e, t, c)
    {
      match t
      case TChar(v, icase) => ok := v == Fold(m.e, icase, c);
      case TDot => ok := !IsLineTerminator(c);
      case TAny => ok := true;
      case TSpace => ok := m.e.isSpace(c);
      case TNotSpace => ok := !m.e.isSpace(c);
      case TRange(rs, icase) => ok := SearchRange16(rs, Fold(m.e, icase, c));
      case TRange32(rs, icase) => ok := SearchRange32(rs, Fold(m.e, icase, c));
    }

    method DoChar(t: CharTest) returns (r: Outcome)
      requires Valid() && At(OChar(t))
      modifies this`sp, this`bp, this`pc, this`cptr, capture
      ensures r == GoOn ==> Valid()
      ensures After(r) == Step(m, old(Abs()))
    {
      pc := pc + 1;
      if cptr >= |m.e.input| {
        r := Fail();
        return;
      }
      var c := m.e.input[cptr];
      cptr := cptr + 1;
      var ok := TestChar(t, c);
      if ok {
        return GoOn;
      }
      r := Fail();
    }

    // Anchors and word boundaries look at the characters around the position.
    method TestAssertion(a: Assertion) returns (ok: bool)
      requires cptr <= |m.e.input|
      ensures ok == Holds(m.e, a, cptr)
    {
      match a
      case LineStart(multi) =>
        if cptr == 0 {
          return true;
        }
        if !multi {
          return false;
        }
        ok := IsLineTerminator(m.e.input[cptr - 1]);
      case LineEnd(multi) =>
        if cptr == |m.e.input| {
          return true;
        }
        if !multi {
          return false;
        }
        ok := IsLineTerminator(m.e.input[cptr]);
      case WordBoundary(neg, icase) =>
        var v1, v2 := false, false;
        if cptr != 0 {
          v1 := IsWordChar(m.e.input[cptr - 1], icase);
        }
        if cptr < |m.e.input| {
          v2 := IsWordChar(m.e.input[cptr], icase);
        }
        ok := if neg then v1 == v2 else v1 != v2;
    }

    method DoSimple(op: Op) returns (r: Outcome)
      requires Valid() && At(op)
      requires op.OAssert? || op.OGoto? || op.OSplit? || op.OLook? || op.OPrev?
      modifies this, capture
      ensures r == GoOn ==> Valid()
      ensures After(r) == Step(m, old(Abs()))
    {
      pc := pc + 1;
      r := GoOn;
      match op
      case OAssert(a) =>
        var holds := TestAssertion(a);
        if !holds {
          r := Fail();
        }
      case OGoto(off) =>
        pc := pc + off;
      case OSplit(nextFirst, off) =>
        DoFork(nextFirst, off);
      case OLook(neg, off) =>
        PushFrame(pc + off, if neg then KNeg else KLook);
      case OPrev =>
        if cptr == 0 {
          r := Fail();
        } else {
          cptr := cptr - 1;
        }
    }

    method DoFork(nextFirst: bool, off: int)
      requires Valid()
      modifies this`buf, this`sp, this`bp, this`pc
      ensures Valid() && Abs() == Fork(nextFirst, off, old(pc), cptr, capture[..], old(Frames()))
    {
      if nextFirst {
        PushFrame(pc + off, KSplit);
      } else {
        PushFrame(pc, KSplit);
        pc := pc + off;
      }
    }

    method DoSave(end: bool, g: nat) returns (r: Outcome)
      requires Valid() && At(OSave(end, g))
      modifies this, capture
      ensures r == GoOn ==> Valid()
      ensures After(r) == Step(m, old(Abs()))
    {
      pc := pc + 1;
      if g >= m.nc {
        return Abort;
      }
      SaveCapture(2 * g + (if end then 1 else 0), cptr);
      return GoOn;
    }

    method DoSaveReset(first: nat, last: nat) returns (r: Outcome)
      requires Valid() && At(OSaveReset(first, last))
      modifies this, capture
      ensures r == GoOn ==> Valid()
      ensures After(r) == Step(m, old(Abs()))
    {
      pc := pc + 1;
      if last >= m.nc {
        return Abort;
      }
      ghost var caps := capture[..];
      var val := first;
      assert Clear(caps, first, first) == caps;
      while val <= last
        invariant first <= val && (val <= last + 1 || val == first)
        invariant Valid() && Frames() == old(Frames()) && pc == old(pc) + 1 && cptr == old(cptr)
        invariant capture[..] == Clear(caps, first, val)
        decreases last + 1 - val
      {
        SaveCapture(2 * val, NULL);
        SaveCapture(2 * val + 1, NULL);
        assert Clear(caps, first, val)[2 * val := NULL][2 * val + 1 := NULL] == Clear(caps, first, val + 1);
        val := val + 1;
      }
      assert Clear(caps, first, val) == Clear(caps, first, last + 1);
      return GoOn;
    }

    method DoRegister(op: Op) returns (r: Outcome)
      requires Valid() && At(op)
      requires op.OSetI32? || op.OSetCharPos? || op.OCheckAdvance? || op.OLoop?
      modifies this, capture
      ensures r == GoOn ==> Valid()
      ensures After(r) == Step(m, old(Abs()))
    {
      pc := pc + 1;
      var idx := 2 * m.nc + op.reg;
      if idx >= capture.Length {
        return Abort;
      }
      r := GoOn;
      match op
      case OSetI32(_, val) =>
        SaveCaptureCheck(idx, val);
      case OSetCharPos(_) =>
        SaveCaptureCheck(idx, cptr);
      case OCheckAdvance(_) =>
        if capture[idx] == cptr {
          r := Fail();
        }
      case OLoop(_, off) =>
        var val2 := (capture[idx] - 1) % TWO32;
        SaveCaptureCheck(idx, val2);
        if val2 != 0 {
          pc := pc + off;
        }
    }

    method DoLoopSplit(nextFirst: bool, checkAdv: bool, reg: nat, limit: nat, off: int) returns (r: Outcome)
      requires Valid() && At(OLoopSplit(nextFirst, checkAdv, reg, limit, off))
      modifies this, capture
      ensures r == GoOn ==> Valid()
      ensures After(r) == Step(m, old(Abs()))
    {
      pc := pc + 1;
      var idx := 2 * m.nc + reg;
      if idx >= capture.Length || (checkAdv && idx + 1 >= capture.Length) {
        return Abort;
      }
      ghost var caps, fs, pos := capture[..], Frames(), cptr;
      var val2 := (capture[idx] - 1) % TWO32;
      ghost var caps1 := caps[idx := val2];
      assert Step(m, old(Abs())) ==
        if val2 > limit then Going(pc + off, pos, caps1, fs)
        else if checkAdv && caps1[idx + 1] == pos && val2 != limit then Backtrack(fs)
        else if val2 != 0 then Fork(nextFirst, off, pc, pos, caps1, fs)
        else Going(pc, pos, caps1, fs);
      SaveCaptureCheck(idx, val2);
      assert checkAdv ==> capture[idx + 1] == caps1[idx + 1];
      if val2 > limit {
        pc := pc + off;
        return GoOn;
      }
      if checkAdv && capture[idx + 1] == cptr && val2 != limit {
        r := Fail();
        return;
      }
      if val2 != 0 {
        DoFork(nextFirst, off);
      }
      return GoOn;
    }

    // Compare with the text of a group, forwards and backwards.
    method CompareForward(icase: bool, s: int, t: int, start: nat) returns (to: Option<nat>)
      ensures to == SameFrom(m.e, icase, s, t, start)
    {
      var i: int, p: nat := s, start;
      while i < t
        invariant SameFrom(m.e, icase, i, t, p) == SameFrom(m.e, icase, s, t, start)
      {
        if p >= |m.e.input| || !(0 <= i < |m.e.input|) {
          return None;
        }
        if Fold(m.e, icase, m.e.input[i]) != Fold(m.e, icase, m.e.input[p]) {
          return None;
        }
        i, p := i + 1, p + 1;
      }
      return Some(p);
    }

    method CompareBackward(icase: bool, s: int, t: int, start: nat) returns (to: Option<nat>)
      ensures to == SameDown(m.e, icase, s, t, start)
    {
      var i: int, p: nat := t, start;
      while i > s
        invariant SameDown(m.e, icase, s, i, p) == SameDown(m.e, icase, s, t, start)
      {
        if p == 0 || !(0 < i <= |m.e.input|) || p > |m.e.input| {
          return None;
        }
        if Fold(m.e, icase, m.e.input[i - 1]) != Fold(m.e, icase, m.e.input[p - 1]) {
          return None;
        }
        i, p := i - 1, p - 1;
      }
      return Some(p);
    }

    // The position after a back reference: the first group of the list that is set decides.
    method FollowBackRef(bw: bool, icase: bool, groups: seq<nat>) returns (to: Option<nat>)
      requires 2 * m.nc <= capture.Length
      ensures to == BackRefV(m.e, bw, icase, groups, VState(cptr, capture[..][..2 * m.nc]))
    {
      ghost var x := VState(cptr, capture[..][..2 * m.nc]);
      var i := 0;
      assert groups[0..] == groups;
      while i < |groups|
        invariant i <= |groups|
        invariant BackRefV(m.e, bw, icase, groups[i..], x) == BackRefV(m.e, bw, icase, groups, x)
      {
        var g := groups[i];
        assert groups[i..][1..] == groups[i + 1..];
        if g >= m.nc {
          return None;
        }
        var s, t := capture[2 * g], capture[2 * g + 1];
        assert s == x.w[2 * g] && t == x.w[2 * g + 1];
        if s != NULL && t != NULL {
          if bw {
            to := CompareBackward(icase, s, t, cptr);
          } else {
            to := CompareForward(icase, s, t, cptr);
          }
          return;
        }
        i := i + 1;
      }
      return Some(cptr);
    }

    method DoBackRef(bw: bool, icase: bool, groups: seq<nat>) returns (r: Outcome)
      requires Valid() && At(OBackRef(bw, icase, groups))
      modifies this`sp, this`bp, this`pc, this`cptr, capture
      ensures r == GoOn ==> Valid()
      ensures After(r) == Step(m, old(Abs()))
    {
      pc := pc + 1;
      var to := FollowBackRef(bw, icase, groups);
      if to.None? {
        r := Fail();
      } else {
        cptr := to.value;
        r := GoOn;
      }
    }

    // One instruction of the interpreter loop.
    method Execute() returns (r: Outcome)
      requires Valid()
      modifies this, capture
      ensures r == GoOn ==> Valid()
      ensures After(r) == Step(m, old(Abs()))
    {
      if !(0 <= pc < |m.prog|) || cptr > |m.e.input| {
        return Abort;
      }
      var op := m.prog[pc];
      match op
      case OChar(t) => r := DoChar(t);
      case OAssert(_) => r := DoSimple(op);
      case OGoto(_) => r := DoSimple(op);
      case OSplit(_, _) => r := DoSimple(op);
      case OMatch => r := Success;
      case OLookMatch(neg) =>
        if neg {
          r := DoNegLookMatch();
        } else {
          r := DoLookMatch();
        }
      case OSave(end, g) => r := DoSave(end, g);
      case OSaveReset(first, last) => r := DoSaveReset(first, last);
      case OLoop(_, _) => r := DoRegister(op);
      case OLoopSplit(nextFirst, checkAdv, reg, limit, off) => r := DoLoopSplit(nextFirst, checkAdv, reg, limit, off);
      case OSetI32(_, _) => r := DoRegister(op);
      case OSetCharPos(_) => r := DoRegister(op);
      case OCheckAdvance(_) => r := DoRegister(op);
      case OBackRef(bw, icase, groups) => r := DoBackRef(bw, icase, groups);
      case OLook(_, _) => r := DoSimple(op);
      case OPrev => r := DoSimple(op);
    }

    // The interpreter loop, for a program that the snapshot machine finishes within n instructions.
    method Interpret(ghost n: nat) returns (r: Outcome)
      requires Valid() && !Steps(m, Abs(), n).Going?
      modifies this, capture
      ensures r != GoOn && After(r) == Steps(m, old(Abs()), n)
    {
      ghost var left := n;
      ghost var end := Steps(m, Abs(), n);
      while true
        invariant Valid() && Steps(m, Abs(), left) == end
        decreases left
      {
        ghost var c := Abs();
        r := Execute();
        left := left - 1;
        if r != GoOn {
          StepsStay(m, After(r), left);
          return;
        }
      }
    }
  }
}
