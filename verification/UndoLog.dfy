// The matcher's stack as it lies in memory: frames of three words, and between them pairs (index,
// old value) that undo the writes made since the frame below was pushed.
module UndoLog {
  import opened RegexSyntax
  import opened SnapshotVM

  // A stack element is a word, or a packed saved frame pointer with the kind of the frame.
  datatype Elem = Word(v: int) | Bp(val: nat, kind: Kind)

  // ---- One segment of undo pairs ----

  predicate SegOk(seg: seq<Elem>, words: nat)
    decreases |seg|
  {
    seg == [] ||
    (&& |seg| >= 2
     && seg[|seg| - 2].Word? && 0 <= seg[|seg| - 2].v < words
     && seg[|seg| - 1].Word?
     && SegOk(seg[..|seg| - 2], words))
  }

  // Undo the pairs, latest first.
  function Unwind(caps: seq<int>, seg: seq<Elem>): (r: seq<int>)
    requires SegOk(seg, |caps|)
    ensures |r| == |caps|
    decreases |seg|
  {
    if seg == [] then caps
    else Unwind(caps[seg[|seg| - 2].v := seg[|seg| - 1].v], seg[..|seg| - 2])
  }

  lemma UnwindPush(caps: seq<int>, seg: seq<Elem>, i: nat, v: int)
    requires SegOk(seg, |caps|) && i < |caps|
    ensures SegOk(seg + [Word(i), Word(caps[i])], |caps|)
    ensures Unwind(caps[i := v], seg + [Word(i), Word(caps[i])]) == Unwind(caps, seg)
  {
    var s := seg + [Word(i), Word(caps[i])];
    assert s[..|s| - 2] == seg;
    assert caps[i := v][i := caps[i]] == caps;
  }

  // Once an index is in the segment, a further write to it needs no new pair.
  lemma {:induction false} UnwindSkip(caps: seq<int>, seg: seq<Elem>, i: nat, v: int, k: nat)
    requires SegOk(seg, |caps|) && i < |caps|
    requires k < |seg| && (|seg| - k) % 2 == 0 && seg[k] == Word(i)
    ensures Unwind(caps[i := v], seg) == Unwind(caps, seg)
    decreases |seg|
  {
    var j, w := seg[|seg| - 2].v, seg[|seg| - 1].v;
    if j == i {
      assert caps[i := v][j := w] == caps[j := w];
    } else {
      assert caps[i := v][j := w] == caps[j := w][i := v];
      UnwindSkip(caps[j := w], seg[..|seg| - 2], i, v, k);
    }
  }

  // Segments laid end to end are undone as one.
  lemma {:induction false} UnwindConcat(caps: seq<int>, a: seq<Elem>, b: seq<Elem>)
    requires SegOk(a, |caps|) && SegOk(b, |caps|)
    ensures SegOk(a + b, |caps|)
    ensures Unwind(caps, a + b) == Unwind(Unwind(caps, b), a)
    decreases |b|
  {
    SegConcat(a, b, |caps|);
    if b == [] {
      assert a + b == a;
    } else {
      var j, w := b[|b| - 2].v, b[|b| - 1].v;
      assert (a + b)[..|a + b| - 2] == a + b[..|b| - 2];
      UnwindConcat(caps[j := w], a, b[..|b| - 2]);
    }
  }

  lemma {:induction false} SegConcat(a: seq<Elem>, b: seq<Elem>, words: nat)
    requires SegOk(a, words) && SegOk(b, words)
    ensures SegOk(a + b, words)
    decreases |b|
  {
    if b == [] {
      assert a + b == a;
    } else {
      assert (a + b)[..|a + b| - 2] == a + b[..|b| - 2];
      SegConcat(a, b[..|b| - 2], words);
    }
  }

  // ---- The whole stack ----

  predicate StackOk(stack: seq<Elem>, bp: nat, words: nat)
    decreases |stack|
  {
    && bp <= |stack|
    && SegOk(stack[bp..], words)
    && (bp > 0 ==>
        && bp >= 3
        && stack[bp - 3].Word? && stack[bp - 2].Word? && stack[bp - 2].v >= 0 && stack[bp - 1].Bp?
        && StackOk(stack[..bp - 3], stack[bp - 1].val, words))
  }

  // The snapshots the stack stands for: undo each segment in turn.
  function FramesOf(caps: seq<int>, stack: seq<Elem>, bp: nat): seq<Frame>
    requires StackOk(stack, bp, |caps|)
    decreases |stack|
  {
    if bp == 0 then []
    else
      var old_caps := Unwind(caps, stack[bp..]);
      FramesOf(old_caps, stack[..bp - 3], stack[bp - 1].val)
      + [Frame(stack[bp - 1].kind, stack[bp - 3].v, stack[bp - 2].v, old_caps)]
  }

  // Only the frames below bp and the undone captures matter.
  lemma FramesSame(caps: seq<int>, stack: seq<Elem>, caps': seq<int>, stack': seq<Elem>, bp: nat)
    requires StackOk(stack, bp, |caps|) && |caps'| == |caps|
    requires bp <= |stack'| && SegOk(stack'[bp..], |caps|)
    requires forall i :: 0 <= i < bp ==> stack'[i] == stack[i]
    requires Unwind(caps', stack'[bp..]) == Unwind(caps, stack[bp..])
    ensures StackOk(stack', bp, |caps|)
    ensures FramesOf(caps', stack', bp) == FramesOf(caps, stack, bp)
  {
    if bp > 0 {
      var below, below' := stack[..bp - 3], stack'[..bp - 3];
      assert below' == below;
      assert StackOk(below, stack[bp - 1].val, |caps|);
    }
  }

  // A write with its undo pair.
  lemma FramesSave(caps: seq<int>, stack: seq<Elem>, bp: nat, i: nat, v: int)
    requires StackOk(stack, bp, |caps|) && i < |caps|
    ensures StackOk(stack + [Word(i), Word(caps[i])], bp, |caps|)
    ensures FramesOf(caps[i := v], stack + [Word(i), Word(caps[i])], bp) == FramesOf(caps, stack, bp)
  {
    var stack' := stack + [Word(i), Word(caps[i])];
    assert stack'[bp..] == stack[bp..] + [Word(i), Word(caps[i])];
    UnwindPush(caps, stack[bp..], i, v);
    FramesSame(caps, stack, caps[i := v], stack', bp);
  }

  // A write whose pair is there already.
  lemma FramesSkip(caps: seq<int>, stack: seq<Elem>, bp: nat, i: nat, v: int, k: nat)
    requires StackOk(stack, bp, |caps|) && i < |caps|
    requires bp <= k < |stack| && (|stack| - k) % 2 == 0 && stack[k] == Word(i)
    ensures StackOk(stack, bp, |caps[i := v]|)
    ensures FramesOf(caps[i := v], stack, bp) == FramesOf(caps, stack, bp)
  {
    UnwindSkip(caps, stack[bp..], i, v, k - bp);
    FramesSame(caps, stack, caps[i := v], stack, bp);
  }

  lemma FramesPush(caps: seq<int>, stack: seq<Elem>, bp: nat, pc: int, pos: nat, kind: Kind)
    requires StackOk(stack, bp, |caps|)
    ensures var stack' := stack + [Word(pc), Word(pos), Bp(bp, kind)];
      && StackOk(stack', |stack'|, |caps|)
      && FramesOf(caps, stack', |stack'|) == FramesOf(caps, stack, bp) + [Frame(kind, pc, pos, caps)]
  {
    var stack' := stack + [Word(pc), Word(pos), Bp(bp, kind)];
    assert stack'[..|stack'| - 3] == stack;
    assert stack'[|stack'|..] == [];
  }

  // ---- Leaving a lookahead ----

  // The position below the latest lookahead frame, and the undo pairs above it without the frames.
  datatype Drained = NoLook | Drained(base: nat, log: seq<Elem>)

  function Drain(stack: seq<Elem>, bp: nat, words: nat): Drained
    requires StackOk(stack, bp, words)
    decreases |stack|
  {
    if bp == 0 then NoLook
    else if stack[bp - 1].kind == KLook then Drained(bp - 3, stack[bp..])
    else
      var d := Drain(stack[..bp - 3], stack[bp - 1].val, words);
      if d.NoLook? then NoLook else Drained(d.base, d.log + stack[bp..])
  }

  // The popped frame is the lookahead at base with captures u, and the rest is what lies below it.
  predicate LookAt(stack: seq<Elem>, base: nat, u: seq<int>, p: Option<(Frame, seq<Frame>)>) {
    && base + 3 <= |stack|
    && stack[base].Word? && stack[base + 1].Word? && stack[base + 1].v >= 0 && stack[base + 2].Bp?
    && StackOk(stack[..base], stack[base + 2].val, |u|)
    && p == Some((Frame(KLook, stack[base].v, stack[base + 1].v, u), FramesOf(u, stack[..base], stack[base + 2].val)))
  }

  lemma LookBelow(stack: seq<Elem>, n: nat, base: nat, u: seq<int>, p: Option<(Frame, seq<Frame>)>)
    requires n <= |stack| && LookAt(stack[..n], base, u, p)
    ensures LookAt(stack, base, u, p)
  {
    assert stack[..n][..base] == stack[..base];
  }

  predicate DrainedRight(caps: seq<int>, stack: seq<Elem>, d: Drained, p: Option<(Frame, seq<Frame>)>) {
    if d.NoLook? then p.None?
    else SegOk(d.log, |caps|) && LookAt(stack, d.base, Unwind(caps, d.log), p)
  }

  // What Drain finds is what PopTo pops, and keeping the log below the lookahead keeps its frames.
  lemma {:induction false} DrainPops(caps: seq<int>, stack: seq<Elem>, bp: nat)
    requires StackOk(stack, bp, |caps|)
    ensures DrainedRight(caps, stack, Drain(stack, bp, |caps|), PopTo(FramesOf(caps, stack, bp), KLook))
    decreases |stack|
  {
    if bp > 0 {
      var c, below, bp' := Unwind(caps, stack[bp..]), stack[..bp - 3], stack[bp - 1].val;
      var fs' := FramesOf(c, below, bp');
      PopTop(fs', Frame(stack[bp - 1].kind, stack[bp - 3].v, stack[bp - 2].v, c));
      if stack[bp - 1].kind != KLook {
        DrainPops(c, below, bp');
        var d := Drain(below, bp', |caps|);
        if d.Drained? {
          LookBelow(stack, bp - 3, d.base, Unwind(c, d.log), PopTo(fs', KLook));
          UnwindConcat(caps, d.log, stack[bp..]);
        }
      }
    }
  }

  lemma PopTop(fs: seq<Frame>, f: Frame)
    ensures PopTo(fs + [f], KLook) == if f.kind == KLook then Some((f, fs)) else PopTo(fs, KLook)
  {
    assert (fs + [f])[..|fs + [f]| - 1] == fs;
  }

  // The frames below survive the merge of the log into their top segment.
  lemma FramesMerge(caps: seq<int>, stack: seq<Elem>, bp: nat, log: seq<Elem>)
    requires SegOk(log, |caps|) && StackOk(stack, bp, |caps|)
    ensures StackOk(stack + log, bp, |caps|)
    ensures FramesOf(caps, stack + log, bp) == FramesOf(Unwind(caps, log), stack, bp)
  {
    assert (stack + log)[bp..] == stack[bp..] + log;
    UnwindConcat(caps, stack[bp..], log);
    FramesSame(Unwind(caps, log), stack, caps, stack + log, bp);
  }

  // With nothing below the lookahead there is nothing to restore and the log may be dropped.
  lemma FramesAtBase(caps: seq<int>, c: seq<int>, bp: nat)
    requires StackOk([], bp, |c|)
    ensures bp == 0 && FramesOf(c, [], bp) == [] && StackOk([], 0, |caps|) && FramesOf(caps, [], 0) == []
  {
  }

  // The lookahead frame that is popped, and the stack that is left: the undo pairs made inside the
  // lookahead are kept above the frames below it.
  lemma LeaveFrames(caps: seq<int>, stack: seq<Elem>, bp: nat, base: nat, log: seq<Elem>, left: seq<Elem>, bp': nat)
    requires StackOk(stack, bp, |caps|) && Drain(stack, bp, |caps|) == Drained(base, log) && base + 2 < |stack|
    requires stack[base + 2].Bp? && stack[base + 2].val == bp'
    requires left == if base == 0 then [] else stack[..base] + log
    ensures StackOk(left, bp', |caps|)
    ensures stack[base].Word? && stack[base + 1].Word? && stack[base + 1].v >= 0
    ensures SegOk(log, |caps|)
    ensures PopTo(FramesOf(caps, stack, bp), KLook)
         == Some((Frame(KLook, stack[base].v, stack[base + 1].v, Unwind(caps, log)), FramesOf(caps, left, bp')))
  {
    DrainPops(caps, stack, bp);
    if base == 0 {
      FramesAtBase(caps, Unwind(caps, log), bp');
    } else {
      FramesMerge(caps, stack[..base], bp', log);
    }
  }

  // ---- The chain of segments that is built before they are copied down ----

  // From a on: three words, the third of which holds the end of the segment after them; and so on to top.
  predicate ChainOk(mem: seq<Elem>, a: nat, top: nat)
    decreases top - a
  {
    && a <= top <= |mem|
    && (a < top ==>
        && a + 3 <= top && mem[a + 2].Word? && a + 3 <= mem[a + 2].v <= top
        && ChainOk(mem, mem[a + 2].v, top))
  }

  function ChainLog(mem: seq<Elem>, a: nat, top: nat): seq<Elem>
    requires ChainOk(mem, a, top)
    decreases top - a
  {
    if a == top then [] else mem[a + 3..mem[a + 2].v] + ChainLog(mem, mem[a + 2].v, top)
  }

  // A chain only depends on the memory it lies in.
  lemma {:induction false} ChainFrame(mem: seq<Elem>, mem': seq<Elem>, a: nat, top: nat)
    requires ChainOk(mem, a, top) && top <= |mem'|
    requires forall i :: a <= i < top ==> mem'[i] == mem[i]
    ensures ChainOk(mem', a, top) && ChainLog(mem', a, top) == ChainLog(mem, a, top)
    decreases top - a
  {
    if a < top {
      var n := mem[a + 2].v;
      assert mem'[a + 2] == mem[a + 2];
      ChainFrame(mem, mem', n, top);
      assert mem'[a + 3..n] == mem[a + 3..n];
    }
  }

  // One more link at the bottom.
  lemma ChainLink(mem: seq<Elem>, a: nat, n: nat, top: nat)
    requires ChainOk(mem, n, top) && a + 3 <= n
    requires a + 2 < |mem|
    ensures var mem' := mem[a + 2 := Word(n)];
      ChainOk(mem', a, top) && ChainLog(mem', a, top) == mem[a + 3..n] + ChainLog(mem, n, top)
  {
    var mem' := mem[a + 2 := Word(n)];
    ChainFrame(mem, mem', n, top);
    assert mem'[a + 3..n] == mem[a + 3..n];
  }
}
