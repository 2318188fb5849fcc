/** What holds of the allocator of tools/jgraph/jmalloc.c over whole runs of a
    program that calls it and stores into the blocks it was given. */
module JmallocRuns {
  import opened JmallocHeap
  import opened JmallocOps
  import opened JmallocRealloc
  import opened JmallocSearch

  // ----- runs -----

  datatype Op =
    | CallMalloc(n: int)
    | CallCalloc(nelem: int, elsize: int)
    | CallFree(p: int)
    | CallRealloc(p: int, n: int)
    | Store(p: int, offset: int, v: Byte)

  // calloc clears what it got, also when malloc returned NULL, which crashes.
  ghost function Calloc(os: Os, h: Heap, nelem: int, elsize: int): (Heap, Outcome)
    requires WF(h)
  {
    var n := nelem * elsize;
    var (h1, r) := Malloc(os, h, n);
    if !r.Ptr? then (h1, Abort) else (h1.(mem := Zero(h1.mem, r.p, n)), r)
  }

  // The program passes pointers to blocks it holds, and stores inside those.
  ghost predicate Legal(h: Heap, op: Op) {
    match op
    case CallFree(p) => Live(h, p)
    case CallRealloc(p, n) => Live(h, p)
    case Store(p, offset, v) => Live(h, p) && 0 <= offset < h.blocks[BlockOf(h.blocks, p)].size
    case _ => true
  }

  ghost function Step(os: Os, h: Heap, op: Op): (Heap, Outcome)
    requires WF(h) && Legal(h, op)
  {
    match op
    case CallMalloc(n) => Malloc(os, h, n)
    case CallCalloc(nelem, elsize) => Calloc(os, h, nelem, elsize)
    case CallFree(p) => Free(h, p)
    case CallRealloc(p, n) => Realloc(os, h, p, n)
    case Store(p, offset, v) => (h.(mem := h.mem[p + offset := v]), Done)
  }

  // The block whose bytes an operation may change.
  function Target(op: Op): int {
    match op
    case CallFree(p) => p
    case CallRealloc(p, n) => p
    case Store(p, offset, v) => p
    case _ => 0
  }

  lemma StoreStep(h: Heap, p: int, offset: int, v: Byte)
    requires WF(h) && Legal(h, Store(p, offset, v))
    ensures WF(h.(mem := h.mem[p + offset := v])) && Spares(h, h.(mem := h.mem[p + offset := v]), p)
  {
    hide Shape, RingOk, Stamps, Tiled, Counted, Spares;
    StoreKeeps(h, BlockOf(h.blocks, p), h.mem[p + offset := v]);
  }

  lemma CallocDelivers(os: Os, h: Heap, nelem: int, elsize: int)
    requires WF(h)
    ensures var (h', r) := Calloc(os, h, nelem, elsize); var n := nelem * elsize;
      && WF(h') && Spares(h, h', 0)
      && (r.Ptr? ==> n > 0 && Delivers(h, h', r.p, RoundUp(n)) && forall a :: r.p <= a < r.p + n ==> Peek(h'.mem, a) == 0)
      && (r == Abort <==> n <= 0 || NoMemory(os, h, n))
  {
    var n := nelem * elsize;
    MallocDelivers(os, h, n);
    if n > 0 { MallocNull(os, h, n); }
    assert n <= 0 ==> Malloc(os, h, n).1 == Abort;
    hide Malloc, WF, Spares, Delivers, RoundUp, Shape, NoMemory;
    var (h1, r) := Malloc(os, h, n);
    if r.Ptr? {
      ClearDelivered(h, h1, r.p, n);
    }
  }

  lemma ClearDelivered(h: Heap, h1: Heap, p: int, n: int)
    requires WF(h1) && Spares(h, h1, 0) && n > 0 && Delivers(h, h1, p, RoundUp(n))
    ensures var h2 := h1.(mem := Zero(h1.mem, p, n));
      && WF(h2) && Spares(h, h2, 0) && Delivers(h, h2, p, RoundUp(n))
      && forall a :: p <= a < p + n ==> Peek(h2.mem, a) == 0
  {
    var h2 := h1.(mem := Zero(h1.mem, p, n));
    RoundsUp(n);
    DeliversBlock(h, h1, p, RoundUp(n));
    ZeroFrame(h1.mem, p, n);
    hide WF, Spares, Delivers, RoundUp, Shape, SameBytes, Peek, Zero, BlockOf;
    StoreKeeps(h1, BlockOf(h1.blocks, p), h2.mem);
    DeliversMem(h, h1, h2, p, RoundUp(n));
    SparesBoth(h, h1, h2, p);
  }

  lemma SparesBoth(h: Heap, h1: Heap, h2: Heap, p: int)
    requires Spares(h, h1, 0) && Spares(h1, h2, p)
    requires forall b :: b in h.blocks && !b.free ==> b.Space() != p
    ensures Spares(h, h2, 0)
  {
    forall d | d in h.blocks && !d.free && d.Space() != 0
      ensures d in h2.blocks && SameBytes(h.mem, h2.mem, d)
    {
      assert d in h1.blocks && SameBytes(h.mem, h1.mem, d) && SameBytes(h1.mem, h2.mem, d);
    }
  }

  // Every step keeps the invariant, and changes neither header nor bytes of any used block
  // but the one it is about.
  lemma StepKeeps(os: Os, h: Heap, op: Op)
    requires WF(h) && Legal(h, op)
    ensures WF(Step(os, h, op).0) && Spares(h, Step(os, h, op).0, Target(op))
  {
    hide WF, Spares, Malloc, Calloc, Free, Realloc, Delivers, BlkOk;
    match op
    case CallMalloc(n) => MallocDelivers(os, h, n);
    case CallCalloc(nelem, elsize) => CallocDelivers(os, h, nelem, elsize);
    case CallFree(p) => FreeSpares(h, p);
    case CallRealloc(p, n) =>
      ReallocReallocates(os, h, p, n);
      SparesSelf(h, p);
    case Store(p, offset, v) => StoreStep(h, p, offset, v);
  }

  // A run: every call is legal, and an abort is the end.
  ghost predicate LegalRun(os: Os, h: Heap, ops: seq<Op>)
    requires WF(h)
    decreases ops
  {
    ops == [] ||
    (Legal(h, ops[0]) &&
     var (h1, r) := Step(os, h, ops[0]);
     StepKeeps(os, h, ops[0]);
     if r == Abort then ops[1..] == [] else LegalRun(os, h1, ops[1..]))
  }

  ghost function Run(os: Os, h: Heap, ops: seq<Op>): (h': Heap)
    requires WF(h) && LegalRun(os, h, ops)
    ensures WF(h')
    decreases ops
  {
    if ops == [] then h
    else
      var (h1, r) := Step(os, h, ops[0]);
      StepKeeps(os, h, ops[0]);
      if r == Abort then h1 else Run(os, h1, ops[1..])
  }

  lemma InitialKeeps()
    ensures WF(INITIAL)
  {
    assert forall a :: !InBlocks([], a) && !InSegs([], a) && !FreeAt([], a);
  }

  // The number of in-place growths in a run.
  ghost predicate Grows(h: Heap, op: Op)
    requires Legal(h, op)
  {
    op.CallRealloc? && op.n > 0 &&
    var i := BlockOf(h.blocks, op.p); var size := RoundUp(op.n);
    && Stamped(h.mem, h.blocks[i].cs2, h.blocks[i].addr)
    && h.blocks[i].size <= size && CanGrow(h.blocks, i, size) && !GrowFails(h.blocks, i, size)
  }

  ghost function Growths(os: Os, h: Heap, ops: seq<Op>): nat
    requires WF(h) && LegalRun(os, h, ops)
    decreases ops
  {
    if ops == [] then 0
    else
      var (h1, r) := Step(os, h, ops[0]);
      StepKeeps(os, h, ops[0]);
      (if Grows(h, ops[0]) then 1 else 0) + (if r == Abort then 0 else Growths(os, h1, ops[1..]))
  }

  lemma ObtainHistory(os: Os, h: Heap, size: int, want: int)
    requires 0 < size && size + JMSZ <= want
    ensures Obtain(os, h, size, want).0.grown == h.grown
    decreases want
  {
  }

  lemma MallocHistory(os: Os, h: Heap, n: int)
    requires WF(h)
    ensures Malloc(os, h, n).0.grown == h.grown
  {
    if n > 0 {
      RoundsUp(n);
      hide RoundUp, WF;
      ObtainHistory(os, h, RoundUp(n), Want(RoundUp(n)));
    }
  }

  lemma StepHistory(os: Os, h: Heap, op: Op)
    requires WF(h) && Legal(h, op)
    ensures Step(os, h, op).0.grown == h.grown + (if Grows(h, op) then 1 else 0)
  {
    hide WF, Malloc, Realloc, Stamped, Stamp, CanGrow, GrowFails, Join, After, Without;
    match op
    case CallMalloc(n) => MallocHistory(os, h, n);
    case CallCalloc(nelem, elsize) => MallocHistory(os, h, nelem * elsize);
    case CallFree(p) => FreeHistory(h, p);
    case Store(p, offset, v) =>
    case CallRealloc(p, n) => ReallocHistory(os, h, p, n);
  }

  lemma ReallocHistory(os: Os, h: Heap, p: int, n: int)
    requires WF(h) && Live(h, p)
    ensures Realloc(os, h, p, n).0.grown == h.grown + (if Grows(h, CallRealloc(p, n)) then 1 else 0)
  {
    if n > 0 {
      GrowsMeans(h, p, n);
      hide *;
      ReallocCases(os, h, p, n);
      var i, size := BlockOf(h.blocks, p), RoundUp(n);
      var b := h.blocks[i];
      if Stamped(h.mem, b.cs2, b.addr) {
        if size < b.size {
          SplitHistory(h, i, size);
        } else if CanGrow(h.blocks, i, size) {
          GrowHistory(os, h, i, size);
        } else {
          MoveHistory(os, h, i, size);
        }
      }
    } else {
      hide WF;
      ReallocNothing(os, h, p, n);
    }
  }

  lemma GrowsMeans(h: Heap, p: int, n: int)
    requires Live(h, p) && n > 0
    ensures var i := BlockOf(h.blocks, p); var size := RoundUp(n);
      Grows(h, CallRealloc(p, n)) <==>
        Stamped(h.mem, h.blocks[i].cs2, h.blocks[i].addr) && h.blocks[i].size <= size
        && CanGrow(h.blocks, i, size) && !GrowFails(h.blocks, i, size)
  {
    hide Stamped, CanGrow, GrowFails, RoundUp, BlockOf;
  }

  lemma SplitHistory(h: Heap, i: nat, size: int)
    requires i < |h.blocks| && h.start in h.ring
    ensures Split(h, i, size, h.start).grown == h.grown
  {
    hide Stamp, After;
  }

  lemma GrowHistory(os: Os, h: Heap, i: nat, size: int)
    requires WF(h) && i < |h.blocks| && !h.blocks[i].free && CanGrow(h.blocks, i, size)
    requires 0 < size && size % PTSZ == 0 && h.blocks[i].size <= size
    ensures GrowInPlace(os, h, i, size).0.grown == h.grown + (if GrowFails(h.blocks, i, size) then 0 else 1)
  {
    hide *;
    GrowReallocates(os, h, i, size);
    GrowCounted(os, h, i, size);
  }

  lemma GrowCounted(os: Os, h: Heap, i: nat, size: int)
    requires WF(h) && i < |h.blocks| && !h.blocks[i].free && CanGrow(h.blocks, i, size)
    ensures var (h', r) := GrowInPlace(os, h, i, size); h'.grown == h.grown + (if r == Abort then 0 else 1)
  {
    StartAtFree(h, i + 1);
    hide WF, Malloc, Missing, Stamp, Join;
    MallocHistory(os, h.(start := h.blocks[i + 1].addr), Missing(h.blocks[i], size));
  }

  lemma MoveHistory(os: Os, h: Heap, i: nat, size: int)
    requires WF(h) && i < |h.blocks| && !h.blocks[i].free && 0 < size && h.blocks[i].size <= size
    requires Stamped(h.mem, h.blocks[i].cs2, h.blocks[i].addr)
    ensures Move(os, h, i, size).0.grown == h.grown
  {
    HeaderOk(h, i);
    assert h.blocks[i].size >= 0;
    hide *;
    var b := h.blocks[i];
    MallocHistory(os, h, size);
    MoveCases(os, h, i, size);
    var (h1, q) := Malloc(os, h, size);
    if q.Ptr? { FreeHistory(h1.(mem := Copy(h1.mem, q.p, b.Space(), b.size)), b.Space()); }
  }

  lemma FreeHistory(h: Heap, p: int)
    requires WF(h) && Live(h, p)
    ensures Free(h, p).0.grown == h.grown
  {
    hide WF, Stamped, BlockOf, Join, After, Without;
  }

  lemma {:induction false} RunHistory(os: Os, h: Heap, ops: seq<Op>)
    requires WF(h) && LegalRun(os, h, ops)
    ensures Run(os, h, ops).grown == h.grown + Growths(os, h, ops)
    decreases ops
  {
    if ops != [] {
      StepKeeps(os, h, ops[0]);
      StepHistory(os, h, ops[0]);
      hide WF, Step, Grows;
      var (h1, r) := Step(os, h, ops[0]);
      if r != Abort {
        RunHistory(os, h1, ops[1..]);
      }
    }
  }

  // Conservation: whatever the program did, the counters and one header per counted block
  // add up to the bytes obtained from sbrk; and each counter alone is right exactly
  // when no block was ever grown in place.
  lemma Conservation(os: Os, ops: seq<Op>)
    requires WF(INITIAL) && LegalRun(os, INITIAL, ops)
    ensures var h := Run(os, INITIAL, ops);
      && h.usedMem + h.freeMem + JMSZ * (h.usedBlocks + h.freeBlocks) == SegTotal(h.segs)
      && (h.usedMem == Weight(h.blocks, false) <==> Growths(os, INITIAL, ops) == 0)
      && (h.freeMem == Weight(h.blocks, true) <==> Growths(os, INITIAL, ops) == 0)
      && (h.usedBlocks == Num(h.blocks, false) <==> Growths(os, INITIAL, ops) == 0)
      && (h.freeBlocks == Num(h.blocks, true) <==> Growths(os, INITIAL, ops) == 0)
  {
    RunHistory(os, INITIAL, ops);
    var h := Run(os, INITIAL, ops);
    NumAll(h.blocks);
    hide Shape, RingOk, Stamps, Run, Growths, LegalRun;
  }

  lemma {:induction false} NumAll(bs: seq<Blk>)
    ensures Num(bs, true) + Num(bs, false) == |bs|
  {
    if bs != [] { NumAll(bs[1..]); }
  }

  // Layout: after every run the blocks lie in address order without overlap, aligned, each
  // checksum address inside its block; they fill exactly what sbrk delivered; and the ring
  // holds the sentinel and the free blocks, each once, with start among them.
  lemma Layout(os: Os, ops: seq<Op>)
    requires WF(INITIAL) && LegalRun(os, INITIAL, ops)
    ensures var h := Run(os, INITIAL, ops); var bs := h.blocks;
      && (forall i, j :: 0 <= i < j < |bs| ==> bs[i].End() <= bs[j].addr)
      && (forall i :: 0 <= i < |bs| ==> bs[i].Space() % PTSZ == 0 && bs[i].Space() <= bs[i].cs2 <= bs[i].Trailer())
      && (forall a :: InBlocks(bs, a) <==> InSegs(h.segs, a))
      && NoDup(h.ring) && h.start in h.ring && (forall a :: a in h.ring <==> a == HEAD || FreeAt(bs, a))
  {
    hide Run, LegalRun, WF, FreeAt, NoDup, InBlocks, InSegs;
    LayoutOf(Run(os, INITIAL, ops));
  }

  lemma LayoutOf(h: Heap)
    requires WF(h)
    ensures var bs := h.blocks;
      && (forall i, j :: 0 <= i < j < |bs| ==> bs[i].End() <= bs[j].addr)
      && (forall i :: 0 <= i < |bs| ==> bs[i].Space() % PTSZ == 0 && bs[i].Space() <= bs[i].cs2 <= bs[i].Trailer())
      && (forall a :: InBlocks(bs, a) <==> InSegs(h.segs, a))
      && NoDup(h.ring) && h.start in h.ring && (forall a :: a in h.ring <==> a == HEAD || FreeAt(bs, a))
  {
    hide Stamps, Counted, FreeAt, InBlocks, InSegs;
    forall i | 0 <= i < |h.blocks|
      ensures h.blocks[i].Space() % PTSZ == 0 && h.blocks[i].Space() <= h.blocks[i].cs2 <= h.blocks[i].Trailer()
    {
      HeaderOk(h, i);
    }
  }
}
