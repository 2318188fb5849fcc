/** realloc and calloc of tools/jgraph/jmalloc.c, and the program's own stores
    into the memory it was given, as functions on heaps. */
module JmallocRealloc {
  import opened JmallocHeap
  import opened JmallocParts
  import opened JmallocOps

  // ----- what free leaves alone -----

  lemma FreeSpares(h: Heap, p: int)
    requires WF(h) && Live(h, p)
    ensures var (h', r) := Free(h, p);
      WF(h') && Spares(h, h', p) && h'.mem == h.mem && r != Null && !r.Ptr?
  {
    hide *;
    FreeKeeps(h, p);
    FreeCases(h, p);
    var i := BlockOf(h.blocks, p);
    if Stamped(h.mem, h.blocks[i].cs2, h.blocks[i].addr) {
      ReleaseSpares(h, i);
    } else {
      SparesSelf(h, p);
    }
  }

  lemma JoinIn(bs: seq<Blk>, i: nat, b: Blk)
    requires i + 1 < |bs| && b in bs && b != bs[i] && b != bs[i + 1]
    ensures b in Join(bs, i)
  {
    var k :| 0 <= k < |bs| && bs[k] == b;
    assert Join(bs, i)[if k < i then k else k - 1] == b;
  }

  // free leaves every other used block where it is.
  lemma FreedIn(bs: seq<Blk>, i: nat, b: Blk)
    requires i < |bs| && b in bs && !b.free && b != bs[i]
    ensures b in Freed(bs, i)
  {
    var left := MergesLeft(bs, i);
    var cs := if left then Join(bs, i - 1) else bs[i := bs[i].(free := true)];
    var k := if left then i - 1 else i;
    if left {
      JoinIn(bs, i - 1, b);
    } else {
      var j :| 0 <= j < |bs| && bs[j] == b;
      assert cs[j] == b;
    }
    if FreeAndNext(cs, k) { JoinIn(cs, k, b); }
  }

  lemma ReleaseMem(h: Heap, i: nat)
    requires WF(h) && i < |h.blocks| && !h.blocks[i].free && Stamped(h.mem, h.blocks[i].cs2, h.blocks[i].addr)
    ensures Release(h, i).mem == h.mem
  {
    hide WF, Stamped, After, Without, Join, FreeAndNext;
  }

  lemma ReleaseSpares(h: Heap, i: nat)
    requires WF(h) && i < |h.blocks| && !h.blocks[i].free && Stamped(h.mem, h.blocks[i].cs2, h.blocks[i].addr)
    ensures Spares(h, Release(h, i), h.blocks[i].Space()) && Release(h, i).mem == h.mem
  {
    hide WF, Stamped, Freed, Release;
    ReleaseBlocks(h, i);
    ReleaseMem(h, i);
    forall b | b in h.blocks && !b.free && b.Space() != h.blocks[i].Space()
      ensures b in Release(h, i).blocks
    {
      FreedIn(h.blocks, i, b);
    }
  }

  lemma SparesSelf(h: Heap, p: int)
    ensures Spares(h, h, p)
  {
  }

  lemma SparesStart(h: Heap, h': Heap, h'': Heap, p: int)
    requires Spares(h, h'', p) && h'.blocks == h''.blocks && h'.mem == h''.mem
    ensures Spares(h, h', p)
  {
  }

  // ----- stores into a used block -----

  // mem' differs from mem at most in the space of b.
  ghost predicate OnlyInside(mem: map<int, Byte>, mem': map<int, Byte>, b: Blk) {
    forall a :: !(b.Space() <= a < b.Trailer()) ==> Peek(mem', a) == Peek(mem, a)
  }

  lemma StoreKeeps(h: Heap, i: nat, mem': map<int, Byte>)
    requires WF(h) && i < |h.blocks| && !h.blocks[i].free && OnlyInside(h.mem, mem', h.blocks[i])
    ensures WF(h.(mem := mem')) && Spares(h, h.(mem := mem'), h.blocks[i].Space())
  {
    StoreStamps(h.blocks, h.brk, h.mem, i, mem');
    ShapeAt(h.blocks, h.brk, i);
    hide RingOk, Tiled, Counted, Stamps;
    forall b | b in h.blocks && b.Space() != h.blocks[i].Space()
      ensures SameBytes(h.mem, mem', b)
    {
      var k :| 0 <= k < |h.blocks| && h.blocks[k] == b;
      assert b.End() <= h.blocks[i].addr || h.blocks[i].End() <= b.addr;
    }
  }

  lemma StoreStamps(bs: seq<Blk>, brk: int, mem: map<int, Byte>, i: nat, mem': map<int, Byte>)
    requires Shape(bs, brk) && Stamps(bs, mem) && i < |bs| && !bs[i].free && OnlyInside(mem, mem', bs[i])
    ensures Stamps(bs, mem')
  {
    ShapeAt(bs, brk, i);
    forall k | 0 <= k < |bs| && (bs[k].free || bs[k].cs2 == bs[k].Trailer())
      ensures Stamped(mem', bs[k].cs2, bs[k].addr)
    {
      assert Stamped(mem, bs[k].cs2, bs[k].addr);
      if k != i {
        StampsElsewhere(bs, brk, mem, mem', i, k);
      }
    }
  }

  // mem' holds at dst what mem holds at src, for n bytes.
  ghost predicate Moved(mem: map<int, Byte>, mem': map<int, Byte>, dst: int, src: int, n: int) {
    forall a :: dst <= a < dst + n ==> Peek(mem', a) == Peek(mem, src + a - dst)
  }

  lemma {:induction false} CopyFrame(mem: map<int, Byte>, dst: int, src: int, n: nat)
    requires dst + n <= src || src + n <= dst
    ensures Moved(mem, Copy(mem, dst, src, n), dst, src, n)
    ensures forall a :: !(dst <= a < dst + n) ==> Peek(Copy(mem, dst, src, n), a) == Peek(mem, a)
  {
    if n > 0 {
      var m := Copy(mem, dst, src, n - 1);
      CopyFrame(mem, dst, src, n - 1);
      forall a | dst <= a < dst + n
        ensures Peek(Copy(mem, dst, src, n), a) == Peek(mem, src + a - dst)
      {
        if a == dst + n - 1 {
          assert src + a - dst == src + n - 1;
        } else {
          assert Peek(m, a) == Peek(mem, src + a - dst);
        }
      }
    }
  }

  lemma {:induction false} ZeroFrame(mem: map<int, Byte>, dst: int, n: nat)
    ensures forall a :: dst <= a < dst + n ==> Peek(Zero(mem, dst, n), a) == 0
    ensures forall a :: !(dst <= a < dst + n) ==> Peek(Zero(mem, dst, n), a) == Peek(mem, a)
  {
    if n > 0 {
      ZeroFrame(mem, dst, n - 1);
      var m := Zero(mem, dst, n - 1);
      assert forall a :: Peek(Zero(mem, dst, n), a) == if a == dst + n - 1 then 0 else Peek(m, a);
    }
  }

  // ----- realloc -----

  // The bytes that in-place growth asks malloc for.
  function Missing(b: Blk, size: int): int {
    if size - b.size - JMSZ < 0 then 4 else size - b.size - JMSZ
  }

  predicate CanGrow(bs: seq<Blk>, i: nat, size: int)
    requires i < |bs|
  {
    FreeAndNext(bs, i) && bs[i].size + JMSZ + bs[i + 1].size >= size
  }

  ghost function GrowInPlace(os: Os, h: Heap, i: nat, size: int): (Heap, Outcome)
    requires WF(h) && i < |h.blocks| && !h.blocks[i].free && CanGrow(h.blocks, i, size)
  {
    var next := h.blocks[i + 1];
    StartAtFree(h, i + 1);
    var (h1, q) := Malloc(os, h.(start := next.addr), Missing(h.blocks[i], size));
    if q == Ptr(next.Space()) then (Grow(h1, i), Ptr(h.blocks[i].Space())) else (h1, Abort)
  }

  lemma StartAtFree(h: Heap, i: nat)
    requires WF(h) && i < |h.blocks| && h.blocks[i].free
    ensures WF(h.(start := h.blocks[i].addr))
  {
    assert FreeAt(h.blocks, h.blocks[i].addr);
  }

  // malloc, copy, free: the copy is made even when malloc returned NULL, which crashes.
  ghost function Move(os: Os, h: Heap, i: nat, size: int): (Heap, Outcome)
    requires WF(h) && i < |h.blocks| && !h.blocks[i].free && 0 < size && h.blocks[i].size <= size
    requires Stamped(h.mem, h.blocks[i].cs2, h.blocks[i].addr)
  {
    var b := h.blocks[i];
    var (h1, q) := Malloc(os, h, size);
    if !q.Ptr? then (h1, Abort)
    else
      MoveCopy(os, h, i, size);
      var h2 := h1.(mem := Copy(h1.mem, q.p, b.Space(), b.size));
      var (h3, r) := Free(h2, b.Space());
      (h3, if r == Abort then Abort else q)
  }

  // After the copy the heap is still in order, and the old block is as it was.
  lemma MoveCopy(os: Os, h: Heap, i: nat, size: int)
    requires WF(h) && i < |h.blocks| && !h.blocks[i].free && 0 < size && h.blocks[i].size <= size
    requires Stamped(h.mem, h.blocks[i].cs2, h.blocks[i].addr)
    requires Malloc(os, h, size).1.Ptr?
    ensures var b := h.blocks[i]; var (h1, q) := Malloc(os, h, size);
      var h2 := h1.(mem := Copy(h1.mem, q.p, b.Space(), b.size));
      && WF(h2) && Spares(h, h2, q.p) && Delivers(h, h2, q.p, RoundUp(size))
      && Live(h2, b.Space()) && h2.blocks[BlockOf(h2.blocks, b.Space())] == b
      && Stamped(h2.mem, b.cs2, b.addr)
      && Moved(h.mem, h2.mem, q.p, b.Space(), b.size)
  {
    var b := h.blocks[i];
    var (h1, q) := Malloc(os, h, size);
    MallocDelivers(os, h, size);
    hide Malloc, RingOk, Tiled, Counted, Stamps, Shape, Spares, SameBytes, Stamped, Delivers, BlockOf, Moved;
    MoveBlocks(h, h1, i, q.p, RoundUp(size));
    var j := BlockOf(h1.blocks, q.p);
    SparesAny(h, h1, q.p);
    CopyFrame(h1.mem, q.p, b.Space(), b.size);
    var h2 := h1.(mem := Copy(h1.mem, q.p, b.Space(), b.size));
    StoreKeeps(h1, j, h2.mem);
    SparesTrans(h, h1, h2, q.p);
    StampUnmoved(h1.mem, h2.mem, b);
    MovedSame(h.mem, h1.mem, h2.mem, q.p, b);
    DeliversMem(h, h1, h2, q.p, RoundUp(size));
  }

  lemma MovedSame(mem: map<int, Byte>, mem1: map<int, Byte>, mem2: map<int, Byte>, dst: int, b: Blk)
    requires SameBytes(mem, mem1, b) && Moved(mem1, mem2, dst, b.Space(), b.size)
    ensures Moved(mem, mem2, dst, b.Space(), b.size)
  {
    forall a | dst <= a < dst + b.size
      ensures Peek(mem2, a) == Peek(mem, b.Space() + a - dst)
    {
      assert Peek(mem2, a) == Peek(mem1, b.Space() + a - dst);
    }
  }

  lemma DeliversMem(h: Heap, h1: Heap, h2: Heap, p: int, size: int)
    requires Delivers(h, h1, p, size) && h2 == h1.(mem := h2.mem)
    ensures Delivers(h, h2, p, size)
  {
  }

  // The old block and the new one are apart.
  lemma MoveBlocks(h: Heap, h1: Heap, i: nat, p: int, size: int)
    requires WF(h) && WF(h1) && Spares(h, h1, 0) && Delivers(h, h1, p, size)
    requires i < |h.blocks| && !h.blocks[i].free && h.blocks[i].size <= size
    requires Stamped(h.mem, h.blocks[i].cs2, h.blocks[i].addr)
    ensures var b := h.blocks[i];
      && Live(h1, b.Space()) && h1.blocks[BlockOf(h1.blocks, b.Space())] == b
      && Stamped(h1.mem, b.cs2, b.addr) && SameBytes(h.mem, h1.mem, b)
      && BlkOk(b)
      && var j := BlockOf(h1.blocks, p);
        && j < |h1.blocks| && !h1.blocks[j].free && h1.blocks[j].Space() == p && h1.blocks[j].size >= size
        && (h1.blocks[j].End() <= b.addr || b.End() <= h1.blocks[j].addr)
  {
    var b := h.blocks[i];
    ShapeAt(h.blocks, h.brk, i);
    SpaceNotNull(h, b);
    assert b in h1.blocks && SameBytes(h.mem, h1.mem, b);
    var j := BlockOf(h1.blocks, p);
    var k :| 0 <= k < |h1.blocks| && h1.blocks[k] == b;
    hide RingOk, Tiled, Counted, Stamps, Stamped, SameBytes, Spares, Shape, BlockOf, Live;
    DeliversBlock(h, h1, p, size);
    LiveAt(h1, k);
    OldStamp(h, h1, i, k);
    Apart(h1.blocks, h1.brk, j, k);
  }

  lemma LiveAt(h: Heap, k: nat)
    requires Shape(h.blocks, h.brk) && k < |h.blocks| && !h.blocks[k].free
    ensures Live(h, h.blocks[k].Space()) && BlockOf(h.blocks, h.blocks[k].Space()) == k
  {
    FindAt(h.blocks, h.brk, k);
  }

  lemma DeliversBlock(h: Heap, h1: Heap, p: int, size: int)
    requires Delivers(h, h1, p, size)
    ensures var j := BlockOf(h1.blocks, p);
      && j < |h1.blocks| && !h1.blocks[j].free && h1.blocks[j].Space() == p && h1.blocks[j].size >= size
    ensures forall b :: b in h.blocks && !b.free ==> b.Space() != p
  {
  }

  lemma Apart(bs: seq<Blk>, brk: int, j: nat, k: nat)
    requires Shape(bs, brk) && j < |bs| && k < |bs| && j != k
    ensures bs[j].End() <= bs[k].addr || bs[k].End() <= bs[j].addr
  {
  }

  lemma SpaceNotNull(h: Heap, b: Blk)
    requires WF(h) && b in h.blocks
    ensures b.Space() != 0
  {
    var k :| 0 <= k < |h.blocks| && h.blocks[k] == b;
    ShapeAt(h.blocks, h.brk, k);
  }

  lemma SparesAny(h: Heap, h': Heap, p: int)
    requires WF(h) && Spares(h, h', 0)
    ensures Spares(h, h', p)
  {
    forall b | b in h.blocks
      ensures b.Space() != 0
    {
      SpaceNotNull(h, b);
    }
  }

  // A stamp that was intact stays intact as long as its block is spared.
  lemma OldStamp(h: Heap, h1: Heap, i: nat, k: nat)
    requires WF(h) && WF(h1) && i < |h.blocks| && !h.blocks[i].free && k < |h1.blocks| && h1.blocks[k] == h.blocks[i]
    requires SameBytes(h.mem, h1.mem, h.blocks[i]) && Stamped(h.mem, h.blocks[i].cs2, h.blocks[i].addr)
    ensures Stamped(h1.mem, h.blocks[i].cs2, h.blocks[i].addr)
  {
    hide WF, Stamped, SameBytes, BlkOk;
    HeaderOk(h, i);
    if h.blocks[i].cs2 == h.blocks[i].Trailer() {
      HeldStamp(h1, k);
    } else {
      InnerStamp(h.mem, h1.mem, h.blocks[i]);
    }
  }

  lemma HeaderOk(h: Heap, i: nat)
    requires WF(h) && i < |h.blocks|
    ensures BlkOk(h.blocks[i])
  {
    ShapeAt(h.blocks, h.brk, i);
  }

  lemma HeldStamp(h: Heap, k: nat)
    requires WF(h) && k < |h.blocks| && h.blocks[k].cs2 == h.blocks[k].Trailer()
    ensures Stamped(h.mem, h.blocks[k].cs2, h.blocks[k].addr)
  {
  }

  // A checksum inside the space is among the bytes that are the same.
  lemma InnerStamp(mem: map<int, Byte>, mem': map<int, Byte>, b: Blk)
    requires BlkOk(b) && b.cs2 != b.Trailer() && SameBytes(mem, mem', b) && Stamped(mem, b.cs2, b.addr)
    ensures Stamped(mem', b.cs2, b.addr)
  {
    InnerRoom(b);
    hide BlkOk, StampByte;
  }

  lemma InnerRoom(b: Blk)
    requires BlkOk(b) && b.cs2 != b.Trailer()
    ensures b.Space() <= b.cs2 && b.cs2 + 4 <= b.Trailer()
  {
  }

  lemma StampUnmoved(mem: map<int, Byte>, mem': map<int, Byte>, b: Blk)
    requires b.Space() <= b.cs2 <= b.Trailer() && Stamped(mem, b.cs2, b.addr)
    requires forall a :: b.addr <= a < b.End() ==> Peek(mem', a) == Peek(mem, a)
    ensures Stamped(mem', b.cs2, b.addr)
  {
  }

  ghost function Realloc(os: Os, h: Heap, p: int, n: int): (Heap, Outcome)
    requires WF(h) && Live(h, p)
  {
    var i := BlockOf(h.blocks, p);
    var b := h.blocks[i];
    if n <= 0 || !Stamped(h.mem, b.cs2, b.addr) then (h, Abort)
    else
      var size := RoundUp(n);
      if size < b.size then
        if b.size - size < JMSZ + 4 then (h, Ptr(p))
        else (Split(h, i, size, h.start).(start := b.Space() + size + PTSZ), Ptr(p))
      else if CanGrow(h.blocks, i, size) then GrowInPlace(os, h, i, size)
      else Move(os, h, i, size)
  }

  // What realloc of the block b to size bytes promises: the heap is in order, no other block
  // is touched, and if q is returned it is a used block of at least size bytes that begins
  // with what b held, as far as both reach.
  ghost predicate Reallocates(h: Heap, h': Heap, r: Outcome, b: Blk, size: int) {
    && WF(h') && Spares(h, h', b.Space())
    && (r == Abort || (r.Ptr? && size > 0))
    && (r.Ptr? ==>
          && Live(h', r.p) && h'.blocks[BlockOf(h'.blocks, r.p)].size >= size
          && r.p % PTSZ == 0
          && Moved(h.mem, h'.mem, r.p, b.Space(), if b.size < size then b.size else size))
  }

  lemma StartKeeps(h: Heap, a: int)
    requires WF(h) && a in h.ring
    ensures WF(h.(start := a))
  {
  }

  lemma SameMoved(mem: map<int, Byte>, mem': map<int, Byte>, p: int, n: int)
    requires forall a :: a < p + n ==> Peek(mem', a) == Peek(mem, a)
    ensures Moved(mem, mem', p, p, n)
  {
  }

  lemma AlignedAt(bs: seq<Blk>, brk: int, i: nat, size: int)
    requires Shape(bs, brk) && i < |bs| && 0 < size && size % PTSZ == 0
    ensures bs[i].Space() % PTSZ == 0 && RoundUp(size) == size
  {
    ShapeAt(bs, brk, i);
  }

  lemma ShrinkReallocates(h: Heap, i: nat, size: int)
    requires WF(h) && i < |h.blocks| && !h.blocks[i].free
    requires 0 < size && size % PTSZ == 0 && size + JMSZ + 4 <= h.blocks[i].size
    ensures var b := h.blocks[i];
      Reallocates(h, Split(h, i, size, h.start).(start := b.Space() + size + PTSZ), Ptr(b.Space()), b, size)
  {
    var b := h.blocks[i];
    var h1 := Split(h, i, size, h.start);
    hide RingOk, Tiled, Counted, Stamps, SameBytes, Spares, Shape, Split, BlockOf, Live, Moved, RoundUp, BlkOk, Sorted;
    AlignedAt(h.blocks, h.brk, i, size);
    SplitKeeps(h, i, size, h.start);
    SplitSpares(h, i, size, h.start);
    var h2 := h1.(start := b.Space() + size + PTSZ);
    SameMoved(h.mem, h2.mem, b.Space(), size);
    StartKeeps(h1, h2.start);
    LiveAt(h2, i);
    SparesStart(h, h2, h1, b.Space());
  }

  // ----- growth in place -----

  lemma FromStart(ring: seq<int>, a: int)
    requires a in ring
    ensures From(ring, a)[0] == a
  {
  }

  // malloc serves a request from the block at start if that is large enough.
  lemma MallocAtStart(os: Os, h: Heap, n: int, k: nat)
    requires WF(h) && n > 0 && k < |h.blocks| && h.blocks[k].free && h.start == h.blocks[k].addr
    requires RoundUp(n) <= h.blocks[k].size
    ensures h.blocks[k].addr in h.ring && Malloc(os, h, n) == Take(h, k, RoundUp(n))
  {
    FindAt(h.blocks, h.brk, k);
    FromStart(h.ring, h.start);
    hide RingOk, Stamps, Tiled, Counted, Take, RoundUp, Shape, From;
  }

  // And it does not use that block if it is too small.
  lemma MallocPastStart(os: Os, h: Heap, n: int, k: nat)
    requires WF(h) && n > 0 && k < |h.blocks| && h.blocks[k].free && h.start == h.blocks[k].addr
    requires RoundUp(n) > h.blocks[k].size
    ensures Malloc(os, h, n).1 != Ptr(h.blocks[k].Space())
  {
    hide WF, Take, RoundUp, Search, Find, FirstFit, BlkOk, Peek, Obtain;
    var size := RoundUp(n);
    RoundsUp(n);
    BlockBelow(h, k);
    SearchFindsFree(h, size);
    match Search(h, size)
    case Some(a) => TakePrefix(h, Find(h.blocks, a), size);
    case None =>
      ObtainKeeps(os, h, size, Want(size));
      var (h1, p) := Obtain(os, h, size, Want(size));
      if p.Some? {
        ExtendsUsed(h, h1, p.value, size);
        TakePrefix(h1, |h.blocks|, size);
      }
  }

  lemma BlockBelow(h: Heap, k: nat)
    requires WF(h) && k < |h.blocks|
    ensures h.blocks[k].addr < h.brk && Find(h.blocks, h.blocks[k].addr) == k && h.start in h.ring
  {
    FindAt(h.blocks, h.brk, k);
    ShapeAt(h.blocks, h.brk, k);
  }

  lemma RoundsUp(n: int)
    requires n > 0
    ensures n <= RoundUp(n) < n + PTSZ && RoundUp(n) % PTSZ == 0
  {
  }

  // Taking block i hands out its space and leaves the blocks in front of it alone.
  lemma TakePrefix(h: Heap, i: nat, size: int)
    requires WF(h) && i < |h.blocks| && h.blocks[i].free && h.blocks[i].size >= size > 0 && size % PTSZ == 0
    ensures h.blocks[i].addr in h.ring && Take(h, i, size).1 == Ptr(h.blocks[i].Space())
    ensures var bs := Take(h, i, size).0.blocks;
      i < |bs| && forall j :: 0 <= j < i ==> bs[j] == h.blocks[j]
  {
    TakeSpares(h, i, size);
  }

  // Growth in place fails if nothing is missing but the header, or if less than that is
  // missing and the neighbour has no space at all.
  predicate GrowFails(bs: seq<Blk>, i: nat, size: int)
    requires i + 1 < |bs|
  {
    size == bs[i].size + JMSZ || (size < bs[i].size + JMSZ && bs[i + 1].size == 0)
  }

  lemma GrowthNeed(h: Heap, i: nat, size: int)
    requires Shape(h.blocks, h.brk) && i < |h.blocks| && !h.blocks[i].free && CanGrow(h.blocks, i, size)
    requires 0 < size && size % PTSZ == 0
    ensures var m := Missing(h.blocks[i], size); var next := h.blocks[i + 1];
      && (m > 0 ==> RoundUp(m) % PTSZ == 0 && RoundUp(m) > 0 && h.blocks[i].size + JMSZ + RoundUp(m) >= size)
      && (GrowFails(h.blocks, i, size) <==> m <= 0 || RoundUp(m) > next.size)
  {
    ShapeAt(h.blocks, h.brk, i);
    ShapeAt(h.blocks, h.brk, i + 1);
  }

  lemma GrowSpares(h: Heap, h1: Heap, i: nat)
    requires WF(h) && WF(h1) && i + 1 < |h.blocks| && i + 1 < |h1.blocks|
    requires Spares(h, h1, 0) && h1.blocks[i] == h.blocks[i] && !h.blocks[i].free
    requires h.blocks[i + 1].free && !h1.blocks[i + 1].free && h1.blocks[i + 1].addr == h.blocks[i + 1].addr
    requires Joins(h1.blocks, i)
    ensures Spares(h, Grow(h1, i), h.blocks[i].Space())
    ensures SameBytes(h.mem, Grow(h1, i).mem, h.blocks[i])
  {
    var h2 := Grow(h1, i);
    var g := h2.blocks[i];
    ShapeAt(h1.blocks, h1.brk, i);
    ShapeAt(h1.blocks, h1.brk, i + 1);
    SpaceNotNull(h, h.blocks[i]);
    assert SameBytes(h.mem, h1.mem, h.blocks[i]);
    StampFrame(h1.mem, g.cs2, g.addr);
    hide RingOk, Stamps, Tiled, Counted, Stamp, BlkOk, Stamped, Peek;
    forall c | c in h.blocks && !c.free && c.Space() != h.blocks[i].Space()
      ensures c in h2.blocks && SameBytes(h.mem, h2.mem, c)
    {
      SpaceNotNull(h, c);
      assert c in h1.blocks && SameBytes(h.mem, h1.mem, c);
      ShapeAtIn(h.blocks, h.brk, i + 1, c);
      GrowOthers(h1, i, c);
    }
  }

  // Growth in place keeps every block but the two that it joins.
  lemma GrowOthers(h1: Heap, i: nat, c: Blk)
    requires Shape(h1.blocks, h1.brk) && Joins(h1.blocks, i)
    requires c in h1.blocks && c.addr != h1.blocks[i].addr && c.addr != h1.blocks[i + 1].addr
    ensures c in Grow(h1, i).blocks && SameBytes(h1.mem, Grow(h1, i).mem, c)
  {
    var k :| 0 <= k < |h1.blocks| && h1.blocks[k] == c;
    hide Stamp, Sorted, Shape, SameBytes;
    var h2 := Grow(h1, i);
    assert h2.blocks[if k < i then k else k - 1] == c;
    ShapeAt(h1.blocks, h1.brk, i);
    ShapeAt(h1.blocks, h1.brk, i + 1);
    Apart(h1.blocks, h1.brk, k, i + 1);
    ShapeAt(h1.blocks, h1.brk, k);
    StampApart(h1.mem, h2.blocks[i].cs2, h2.blocks[i].addr, c);
  }

  lemma StampApart(mem: map<int, Byte>, at: int, l: int, c: Blk)
    requires at + 4 <= c.addr || c.End() <= at
    ensures SameBytes(mem, Stamp(mem, at, l), c)
  {
    StampFrame(mem, at, l);
    hide Stamp;
  }

  // A used block k of h' that begins with the old bytes is a proper result.
  lemma Proper(h: Heap, h': Heap, k: nat, b: Blk, size: int)
    requires WF(h') && Spares(h, h', b.Space()) && k < |h'.blocks| && !h'.blocks[k].free
    requires 0 < size && size % PTSZ == 0 && size <= h'.blocks[k].size
    requires Moved(h.mem, h'.mem, h'.blocks[k].Space(), b.Space(), if b.size < size then b.size else size)
    ensures Reallocates(h, h', Ptr(h'.blocks[k].Space()), b, size)
  {
    LiveAt(h', k);
    AlignedAt(h'.blocks, h'.brk, k, size);
    hide Shape, RingOk, Stamps, Tiled, Counted, Spares, Moved, BlockOf, RoundUp;
  }

  lemma Aborted(h: Heap, h': Heap, b: Blk, n: int)
    requires WF(h') && Spares(h, h', b.Space())
    ensures Reallocates(h, h', Abort, b, n)
  {
    hide WF, Spares;
  }

  lemma GrowReallocates(os: Os, h: Heap, i: nat, size: int)
    requires WF(h) && i < |h.blocks| && !h.blocks[i].free && CanGrow(h.blocks, i, size)
    requires 0 < size && size % PTSZ == 0 && h.blocks[i].size <= size
    ensures var (h', r) := GrowInPlace(os, h, i, size);
      && r == (if GrowFails(h.blocks, i, size) then Abort else Ptr(h.blocks[i].Space()))
      && Reallocates(h, h', r, h.blocks[i], size)
  {
    var b, next := h.blocks[i], h.blocks[i + 1];
    var h0 := h.(start := next.addr);
    var m := Missing(b, size);
    StartAtFree(h, i + 1);
    GrowthNeed(h, i, size);
    hide RoundUp, Shape, RingOk, Stamps, Tiled, Counted, Spares, Missing, GrowFails, Reallocates, Grow, Take;
    if GrowFails(h.blocks, i, size) {
      GrowAborts(os, h, i, size);
    } else {
      MallocAtStart(os, h0, m, i + 1);
      GrowTaken(h, h0, i, RoundUp(m), size);
    }
  }

  lemma GrowAborts(os: Os, h: Heap, i: nat, size: int)
    requires WF(h) && i < |h.blocks| && !h.blocks[i].free && CanGrow(h.blocks, i, size)
    requires 0 < size && size % PTSZ == 0 && GrowFails(h.blocks, i, size)
    ensures var (h', r) := GrowInPlace(os, h, i, size); r == Abort && Reallocates(h, h', r, h.blocks[i], size)
  {
    var b, next := h.blocks[i], h.blocks[i + 1];
    var h0 := h.(start := next.addr);
    var m := Missing(b, size);
    StartAtFree(h, i + 1);
    GrowthNeed(h, i, size);
    MallocDelivers(os, h0, m);
    if m > 0 {
      MallocPastStart(os, h0, m, i + 1);
    }
    hide RoundUp, Shape, RingOk, Stamps, Tiled, Counted, Spares, Missing, GrowFails, Reallocates;
    var h1 := Malloc(os, h0, m).0;
    assert Malloc(os, h0, m).1 != Ptr(next.Space());
    hide Malloc;
    SparesFrom(h, h0, h1, b.Space());
    Aborted(h, h1, b, size);
  }

  lemma SparesFrom(h: Heap, h0: Heap, h1: Heap, p: int)
    requires WF(h) && h0 == h.(start := h0.start) && Spares(h0, h1, 0)
    ensures Spares(h, h1, 0) && Spares(h, h1, p)
  {
    assert forall b :: b in h.blocks && !b.free && b.Space() != 0 ==> b in h1.blocks && SameBytes(h.mem, h1.mem, b);
    SparesAny(h, h1, p);
  }

  lemma GrowTaken(h: Heap, h0: Heap, i: nat, need: int, size: int)
    requires WF(h) && WF(h0) && i + 1 < |h.blocks| && !h.blocks[i].free && h.blocks[i + 1].free && Joins(h.blocks, i)
    requires h0 == h.(start := h.blocks[i + 1].addr)
    requires 0 < need <= h.blocks[i + 1].size && need % PTSZ == 0
    requires 0 < size && size % PTSZ == 0 && h.blocks[i].size <= size <= h.blocks[i].size + JMSZ + need
    ensures h0.blocks[i + 1].addr in h0.ring
    ensures var (h1, q) := Take(h0, i + 1, need);
      && q == Ptr(h.blocks[i + 1].Space()) && i + 1 < |h1.blocks|
      && Reallocates(h, Grow(h1, i), Ptr(h.blocks[i].Space()), h.blocks[i], size)
  {
    hide *;
    TakeDelivers(h0, i + 1, need);
    TakenPair(h0, i, need);
    TakePrefix(h0, i + 1, need);
    TakeSpares(h0, i + 1, need);
    var h1 := Take(h0, i + 1, need).0;
    SparesFrom(h, h0, h1, 0);
    GrowKeeps(h1, i);
    GrowSpares(h, h1, i);
    GrownBlock(h1, i);
    SameMovedPart(h.mem, Grow(h1, i).mem, h.blocks[i], h.blocks[i].size);
    Proper(h, Grow(h1, i), i, h.blocks[i], size);
  }

  lemma GrownBlock(h: Heap, i: nat)
    requires i + 1 < |h.blocks|
    ensures var bs := Grow(h, i).blocks;
      && i < |bs| && bs[i].Space() == h.blocks[i].Space() && bs[i].free == h.blocks[i].free
      && bs[i].size == h.blocks[i].size + h.blocks[i + 1].size + JMSZ
  {
    hide Stamp;
  }

  lemma SameMovedPart(mem: map<int, Byte>, mem': map<int, Byte>, b: Blk, n: int)
    requires SameBytes(mem, mem', b) && n <= b.size
    ensures Moved(mem, mem', b.Space(), b.Space(), n)
  {
  }

  // ----- moving -----

  lemma MoveCases(os: Os, h: Heap, i: nat, size: int)
    requires WF(h) && i < |h.blocks| && !h.blocks[i].free && 0 < size && h.blocks[i].size <= size
    requires Stamped(h.mem, h.blocks[i].cs2, h.blocks[i].addr)
    ensures var b := h.blocks[i]; var (h1, q) := Malloc(os, h, size); var r := Move(os, h, i, size);
      if !q.Ptr? then r == (h1, Abort)
      else
        var h2 := h1.(mem := Copy(h1.mem, q.p, b.Space(), b.size));
        && WF(h2) && Live(h2, b.Space())
        && var f := Free(h2, b.Space()); r == (f.0, if f.1 == Abort then Abort else q)
  {
    hide WF, Stamped, Malloc, Copy, Free, Live, Spares, Delivers, Moved;
    if Malloc(os, h, size).1.Ptr? { MoveCopy(os, h, i, size); }
  }

  lemma MoveReallocates(os: Os, h: Heap, i: nat, size: int)
    requires WF(h) && i < |h.blocks| && !h.blocks[i].free && h.blocks[i].size <= size && 0 < size && size % PTSZ == 0
    requires Stamped(h.mem, h.blocks[i].cs2, h.blocks[i].addr)
    ensures var (h', r) := Move(os, h, i, size);
      && Reallocates(h, h', r, h.blocks[i], size)
      && (r == Abort <==> !Malloc(os, h, size).1.Ptr?)
  {
    HeaderOk(h, i);
    AlignedAt(h.blocks, h.brk, i, size);
    hide *;
    var b := h.blocks[i];
    MallocDelivers(os, h, size);
    MoveCases(os, h, i, size);
    var (h1, q) := Malloc(os, h, size);
    if !q.Ptr? {
      SparesAny(h, h1, b.Space());
      Aborted(h, h1, b, size);
    } else {
      MoveCopy(os, h, i, size);
      MoveFreed(h, h1.(mem := Copy(h1.mem, q.p, b.Space(), b.size)), b, q.p, size);
    }
  }

  lemma MoveFreed(h: Heap, h2: Heap, b: Blk, q: int, size: int)
    requires WF(h) && WF(h2) && Spares(h, h2, q) && Delivers(h, h2, q, size)
    requires Live(h2, b.Space()) && h2.blocks[BlockOf(h2.blocks, b.Space())] == b && b in h.blocks && !b.free
    requires Stamped(h2.mem, b.cs2, b.addr)
    requires 0 < size && size % PTSZ == 0 && b.size <= size && Moved(h.mem, h2.mem, q, b.Space(), b.size)
    ensures var (h3, r) := Free(h2, b.Space()); r == Done && Reallocates(h, h3, Ptr(q), b, size)
  {
    FreeSpares(h2, b.Space());
    FreeStamped(h2, b.Space());
    DeliversBlock(h, h2, q, size);
    var h3 := Free(h2, b.Space()).0;
    var c := h2.blocks[BlockOf(h2.blocks, q)];
    hide BlkOk, RoundUp, WF, Moved, Stamped, Free, Delivers, SameBytes, Reallocates, BlockOf;
    assert b.Space() != q;
    assert c in h3.blocks;
    var k :| 0 <= k < |h3.blocks| && h3.blocks[k] == c;
    MoveSpares(h, h2, h3, b.Space(), q);
    Proper(h, h3, k, b, size);
  }

  lemma FreeStamped(h: Heap, p: int)
    requires WF(h) && Live(h, p)
    ensures var b := h.blocks[BlockOf(h.blocks, p)];
      Free(h, p).1 == if Stamped(h.mem, b.cs2, b.addr) then Done else Abort
  {
    hide WF, Stamped, BlockOf;
  }

  lemma MoveSpares(h: Heap, h2: Heap, h3: Heap, p: int, q: int)
    requires Spares(h, h2, q) && Spares(h2, h3, p)
    requires forall d :: d in h.blocks && !d.free ==> d.Space() != q
    ensures Spares(h, h3, p)
  {
    forall d | d in h.blocks && !d.free && d.Space() != p
      ensures d in h3.blocks && SameBytes(h.mem, h3.mem, d)
    {
      assert d in h2.blocks && SameBytes(h.mem, h2.mem, d) && SameBytes(h2.mem, h3.mem, d);
    }
  }

  lemma KeptReallocates(h: Heap, i: nat, size: int)
    requires WF(h) && i < |h.blocks| && !h.blocks[i].free && 0 < size < h.blocks[i].size && size % PTSZ == 0
    ensures Reallocates(h, h, Ptr(h.blocks[i].Space()), h.blocks[i], size)
  {
    hide WF, Spares, Reallocates, Moved;
    SparesSelf(h, h.blocks[i].Space());
    SameMoved(h.mem, h.mem, h.blocks[i].Space(), size);
    Proper(h, h, i, h.blocks[i], size);
  }

  // Whatever realloc returns is a large enough block that begins with the old bytes, and
  // no other used block has changed.
  lemma ReallocReallocates(os: Os, h: Heap, p: int, n: int)
    requires WF(h) && Live(h, p)
    ensures var (h', r) := Realloc(os, h, p, n);
      if n > 0 then Reallocates(h, h', r, h.blocks[BlockOf(h.blocks, p)], RoundUp(n)) else (h', r) == (h, Abort)
  {
    hide *;
    if n > 0 {
      ReallocPositive(os, h, p, n);
    } else {
      ReallocNothing(os, h, p, n);
    }
  }

  lemma ReallocNothing(os: Os, h: Heap, p: int, n: int)
    requires WF(h) && Live(h, p) && n <= 0
    ensures Realloc(os, h, p, n) == (h, Abort)
  {
    hide WF, Stamped, BlockOf, GrowInPlace, Move, Split;
  }

  lemma ReallocCases(os: Os, h: Heap, p: int, n: int)
    requires WF(h) && Live(h, p) && n > 0
    ensures var i := BlockOf(h.blocks, p); var b := h.blocks[i]; var size := RoundUp(n);
      && 0 < size && size % PTSZ == 0 && i < |h.blocks| && !b.free && b.Space() == p
      && var r := Realloc(os, h, p, n);
        if !Stamped(h.mem, b.cs2, b.addr) then r == (h, Abort)
        else if size < b.size then
          if b.size - size < JMSZ + 4 then r == (h, Ptr(p))
          else h.start in h.ring && r == (Split(h, i, size, h.start).(start := b.Space() + size + PTSZ), Ptr(p))
        else if CanGrow(h.blocks, i, size) then r == GrowInPlace(os, h, i, size)
        else r == Move(os, h, i, size)
  {
    StartIn(h);
    hide WF, Stamped, RoundUp, CanGrow, GrowInPlace, Move, Split;
    RoundsUp(n);
  }

  lemma ReallocPositive(os: Os, h: Heap, p: int, n: int)
    requires WF(h) && Live(h, p) && n > 0
    ensures var r := Realloc(os, h, p, n); Reallocates(h, r.0, r.1, h.blocks[BlockOf(h.blocks, p)], RoundUp(n))
  {
    hide *;
    ReallocCases(os, h, p, n);
    var i, size := BlockOf(h.blocks, p), RoundUp(n);
    var b := h.blocks[i];
    if !Stamped(h.mem, b.cs2, b.addr) {
      SparesSelf(h, p);
      Aborted(h, h, b, size);
    } else if size < b.size {
      if b.size - size < JMSZ + 4 {
        KeptReallocates(h, i, size);
      } else {
        ShrinkReallocates(h, i, size);
      }
    } else if CanGrow(h.blocks, i, size) {
      GrowReallocates(os, h, i, size);
    } else {
      MoveReallocates(os, h, i, size);
    }
  }

  // When malloc takes the free block behind the used block i, the two can be joined.
  lemma TakenPair(h: Heap, i: nat, need: int)
    requires WF(h) && i + 1 < |h.blocks| && !h.blocks[i].free && h.blocks[i + 1].free && Joins(h.blocks, i)
    requires 0 < need <= h.blocks[i + 1].size && need % PTSZ == 0
    ensures h.blocks[i + 1].addr in h.ring
    ensures var bs := Take(h, i + 1, need).0.blocks;
      && i + 1 < |bs| && Joins(bs, i) && !bs[i].free && !bs[i + 1].free
      && bs[i].addr == h.blocks[i].addr && bs[i + 1].addr == h.blocks[i + 1].addr
  {
    TakePrefix(h, i + 1, need);
    TakeSpares(h, i + 1, need);
    hide WF, Take;
  }
}
