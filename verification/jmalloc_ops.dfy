/** malloc, free, realloc and calloc of tools/jgraph/jmalloc.c as functions on
    heaps, with the proof that each of them keeps the invariant. */
module JmallocOps {
  import opened Options
  import opened JmallocHeap
  import opened JmallocParts

  // ----- malloc -----

  function Want(size: int): int {
    if size > CHUNK_SIZE then size + JMSZ else CHUNK_SIZE + JMSZ
  }

  // The result of malloc's search, which begins at start.
  ghost function Search(h: Heap, size: int): Option<int>
    requires h.start in h.ring
  {
    FirstFit(h.blocks, From(h.ring, h.start), size)
  }

  lemma SearchInRing(h: Heap, size: int)
    requires h.start in h.ring && size > 0
    ensures var r := Search(h, size);
      r.Some? ==> r.value in h.ring && Find(h.blocks, r.value) < |h.blocks|
  {
  }

  lemma WantOk(n: int)
    requires n > 0
    ensures var size := RoundUp(n);
      0 < size && size % PTSZ == 0 && size + JMSZ <= Want(size) && Request(size, Want(size))
  {
  }

  // What malloc needs to know of a new block.
  lemma ObtainsFor(os: Os, h: Heap, n: int)
    requires WF(h) && n > 0
    ensures var size := RoundUp(n);
      && 0 < size && size + JMSZ <= Want(size)
      && var (h1, p) := Obtain(os, h, size, Want(size));
        p.Some? ==> |h.blocks| < |h1.blocks| && h1.blocks[|h.blocks|].addr in h1.ring
  {
    WantOk(n);
    hide WF, RoundUp, Want, Request, Obtain;
    ObtainKeeps(os, h, RoundUp(n), Want(RoundUp(n)));
  }

  ghost function Malloc(os: Os, h: Heap, n: int): (r: (Heap, Outcome))
    requires WF(h)
    ensures |h.blocks| <= |r.0.blocks|
  {
    if n <= 0 then (h, Abort)
    else
      var size := RoundUp(n);
      SearchInRing(h, size);
      match Search(h, size)
      case Some(a) => Take(h, Find(h.blocks, a), size)
      case None =>
        ObtainsFor(os, h, n);
        var (h1, p) := Obtain(os, h, size, Want(size));
        if p.None? then (h1, Null) else Take(h1, |h.blocks|, size)
  }

  // The sizes that malloc asks sbrk for: a chunk, halved some times, or exactly what is needed.
  predicate Request(size: int, want: int) {
    want == size + JMSZ || (size + JMSZ <= want && want in {16384, 8192, 4096, 2048, 1024, 512, 256, 128})
  }

  // h1 is h with one more free block, at p above the old break, of at least size bytes.
  ghost predicate Extends(h: Heap, h1: Heap, p: int, size: int) {
    && |h1.blocks| == |h.blocks| + 1 && h1.blocks[..|h.blocks|] == h.blocks
    && h1.blocks[|h.blocks|].addr == p && h1.blocks[|h.blocks|].free && h1.blocks[|h.blocks|].size >= size
    && p in h1.ring && h.brk <= p
    && (forall a :: a < h.brk ==> Peek(h1.mem, a) == Peek(h.mem, a))
  }

  lemma ObtainKeeps(os: Os, h: Heap, size: int, want: int)
    requires WF(h) && 0 < size && size % PTSZ == 0 && Request(size, want)
    ensures var (h1, p) := Obtain(os, h, size, want);
      && WF(h1)
      && (p.None? ==> h1 == h.(calls := h1.calls))
      && (p.Some? ==> Extends(h, h1, p.value, size))
    decreases want
  {
    hide WF, Request, AddSeg, Extends, Halve;
    var h0 := h.(calls := h.calls + 1);
    match os(h.calls, want)
    case Some(gap) => SegObtained(h, h.brk + PTSZ * gap, gap, size, want);
    case None =>
      CallsKeep(h);
      if want > size + JMSZ {
        NextRequest(size, want);
        var (h1, p) := Obtain(os, h0, size, Halve(size, want));
        ObtainKeeps(os, h0, size, Halve(size, want));
        if p.Some? { ExtendsCalls(h, h1, p.value, size); }
      }
  }

  lemma SegObtained(h: Heap, p: int, gap: nat, size: int, want: int)
    requires WF(h) && 0 < size && size % PTSZ == 0 && Request(size, want) && p == h.brk + PTSZ * gap
    ensures var h1 := AddSeg(h.(calls := h.calls + 1), p, want); WF(h1) && Extends(h, h1, p, size)
  {
    hide WF, Request, AddSeg, Extends;
    var h0 := h.(calls := h.calls + 1);
    CallsKeep(h);
    NextRequest(size, want);
    AddSegKeeps(h0, p, want);
    AddSegExtends(h0, p, want, size);
    ExtendsCalls(h, AddSeg(h0, p, want), p, size);
  }

  lemma CallsKeep(h: Heap)
    requires WF(h)
    ensures WF(h.(calls := h.calls + 1)) && h.brk % PTSZ == 0
  {
  }

  lemma AddSegExtends(h: Heap, p: int, n: int, size: int)
    requires h.brk <= p && size + JMSZ <= n && 0 < size
    ensures Extends(h, AddSeg(h, p, n), p, size)
  {
    hide Stamp;
    StampFrame(h.mem, p - PTSZ + n, p);
  }

  // The number of sbrk calls plays no part in the relation.
  lemma ExtendsCalls(h: Heap, h1: Heap, p: int, size: int)
    requires Extends(h.(calls := h.calls + 1), h1, p, size)
    ensures Extends(h, h1, p, size)
  {
  }

  lemma NextRequest(size: int, want: int)
    requires 0 < size && size % PTSZ == 0 && Request(size, want)
    ensures want % PTSZ == 0 && size + JMSZ <= want
    ensures want > size + JMSZ ==> Request(size, Halve(size, want))
  {
  }

  lemma TakeKeeps(h: Heap, i: nat, size: int)
    requires WF(h) && i < |h.blocks| && h.blocks[i].free && h.blocks[i].size >= size > 0 && size % PTSZ == 0
    ensures h.blocks[i].addr in h.ring && WF(Take(h, i, size).0)
  {
    assert FreeAt(h.blocks, h.blocks[i].addr);
    hide RingOk, Stamps, Tiled, Counted, SetUsed, Split;
    var b := h.blocks[i];
    if b.size - size < JMSZ {
      SetUsedKeeps(h, i);
    } else {
      SplitKeeps(h, i, size, b.addr);
      SetUsedKeeps(Split(h, i, size, b.addr), i);
    }
  }

  // What the search finds is the address of a free block.
  lemma SearchFindsFree(h: Heap, size: int)
    requires WF(h) && size > 0
    ensures var r := Search(h, size);
      r.Some? ==> var i := Find(h.blocks, r.value);
        i < |h.blocks| && h.blocks[i].free && h.blocks[i].size >= size
  {
    var r := Search(h, size);
    if r.Some? {
      var i := Find(h.blocks, r.value);
      assert r.value in h.ring;
      assert r.value != HEAD by { ShapeAt(h.blocks, h.brk, i); }
      assert FreeAt(h.blocks, r.value);
      PutFreeAt(h.blocks, h.brk, i, h.blocks[i], r.value);
      assert h.blocks[i := h.blocks[i]] == h.blocks;
    }
  }

  lemma MallocKeeps(os: Os, h: Heap, n: int)
    requires WF(h)
    ensures WF(Malloc(os, h, n).0)
  {
    if n > 0 {
      var size := RoundUp(n);
      WantOk(n);
      SearchFindsFree(h, size);
      hide WF, RoundUp, Want, Request, Take;
      match Search(h, size)
      case Some(a) => TakeKeeps(h, Find(h.blocks, a), size);
      case None =>
        ObtainKeeps(os, h, size, Want(size));
        var (h1, p) := Obtain(os, h, size, Want(size));
        if p.Some? {
          TakeKeeps(h1, |h.blocks|, size);
        }
    }
  }

  // ----- free -----

  // What free does once the checksum has been found intact.
  ghost function Release(h: Heap, i: nat): Heap
    requires WF(h) && i < |h.blocks| && !h.blocks[i].free && Stamped(h.mem, h.blocks[i].cs2, h.blocks[i].addr)
  {
    var left := 0 < i && h.blocks[i - 1].free && h.blocks[i - 1].End() == h.blocks[i].addr;
    var h1 := if left then FreeLeft(h, i) else FreeInto(h, i);
    var k: nat := if left then i - 1 else i;
    ReleaseFirst(h, i);
    var h2 := if FreeAndNext(h1.blocks, k) then MergeNext(h1, k) else h1;
    h2.(start := h1.blocks[k].addr)
  }

  lemma ReleaseFirst(h: Heap, i: nat)
    requires WF(h) && i < |h.blocks| && !h.blocks[i].free && Stamped(h.mem, h.blocks[i].cs2, h.blocks[i].addr)
    ensures var left := 0 < i && h.blocks[i - 1].free && h.blocks[i - 1].End() == h.blocks[i].addr;
      var h1 := if left then FreeLeft(h, i) else FreeInto(h, i);
      var k: nat := if left then i - 1 else i;
      && WF(h1) && k < |h1.blocks| && h1.blocks[k].free && h1.blocks[k].addr in h1.ring
      && (FreeAndNext(h1.blocks, k) ==> h1.blocks[k + 1].addr in h1.ring && WF(MergeNext(h1, k)))
  {
    var left := 0 < i && h.blocks[i - 1].free && h.blocks[i - 1].End() == h.blocks[i].addr;
    var h1 := if left then FreeLeft(h, i) else FreeInto(h, i);
    var k: nat := if left then i - 1 else i;
    if left {
      FreeLeftKeeps(h, i);
    } else {
      FreeIntoKeeps(h, i);
    }
    hide Shape, Stamps, Tiled, Counted;
    assert FreeAt(h1.blocks, h1.blocks[k].addr);
    if FreeAndNext(h1.blocks, k) {
      MergeNextKeeps(h1, k);
    }
  }

  predicate MergesLeft(bs: seq<Blk>, i: nat)
    requires i < |bs|
  {
    0 < i && bs[i - 1].free && bs[i - 1].End() == bs[i].addr
  }

  // The blocks after free: first the left neighbour is merged, then the right one.
  function Freed(bs: seq<Blk>, i: nat): seq<Blk>
    requires i < |bs|
  {
    var left := MergesLeft(bs, i);
    var cs := if left then Join(bs, i - 1) else bs[i := bs[i].(free := true)];
    var k := if left then i - 1 else i;
    if FreeAndNext(cs, k) then Join(cs, k) else cs
  }

  lemma ReleaseBlocks(h: Heap, i: nat)
    requires WF(h) && i < |h.blocks| && !h.blocks[i].free && Stamped(h.mem, h.blocks[i].cs2, h.blocks[i].addr)
    ensures Release(h, i).blocks == Freed(h.blocks, i)
  {
    ReleaseFirst(h, i);
    hide WF, Stamped, After, Without, FreeAndNext, Join;
  }

  ghost function Free(h: Heap, p: int): (Heap, Outcome)
    requires WF(h) && Live(h, p)
  {
    var i := BlockOf(h.blocks, p);
    if !Stamped(h.mem, h.blocks[i].cs2, h.blocks[i].addr) then (h, Abort) else (Release(h, i), Done)
  }

  lemma FreeCases(h: Heap, p: int)
    requires WF(h) && Live(h, p)
    ensures var i := BlockOf(h.blocks, p);
      && i < |h.blocks| && !h.blocks[i].free && h.blocks[i].Space() == p
      && var f := Free(h, p);
        if Stamped(h.mem, h.blocks[i].cs2, h.blocks[i].addr)
        then f == (Release(h, i), Done) && f.0.blocks == Freed(h.blocks, i)
        else f == (h, Abort)
  {
    var i := BlockOf(h.blocks, p);
    hide WF, Stamped, Release, Freed;
    if Stamped(h.mem, h.blocks[i].cs2, h.blocks[i].addr) { ReleaseBlocks(h, i); }
  }

  lemma FreeKeeps(h: Heap, p: int)
    requires WF(h) && Live(h, p)
    ensures WF(Free(h, p).0)
  {
    var i := BlockOf(h.blocks, p);
    if Stamped(h.mem, h.blocks[i].cs2, h.blocks[i].addr) {
      ReleaseFirst(h, i);
      hide Shape, RingOk, Stamps, Tiled, Counted, FreeInto, FreeLeft;
    }
  }

  // ----- what an operation leaves alone -----

  ghost predicate SameBytes(mem: map<int, Byte>, mem': map<int, Byte>, b: Blk) {
    forall a :: b.Space() <= a < b.Trailer() ==> Peek(mem', a) == Peek(mem, a)
  }

  // Every used block, except the one whose space begins at p, is still there with its bytes.
  ghost predicate Spares(h: Heap, h': Heap, p: int) {
    forall b :: b in h.blocks && !b.free && b.Space() != p ==> b in h'.blocks && SameBytes(h.mem, h'.mem, b)
  }

  // Blocks i..j become mid and only their bytes change: all other blocks are spared.
  lemma SwapSpares(bs: seq<Blk>, brk: int, i: nat, j: nat, mid: seq<Blk>, mem: map<int, Byte>, mem': map<int, Byte>, b: Blk)
    requires Shape(bs, brk) && i < j <= |bs| && b in bs && b !in bs[i..j]
    requires forall a :: !(bs[i].addr <= a < bs[j - 1].End()) ==> Peek(mem', a) == Peek(mem, a)
    ensures b in Swap(bs, i, j, mid) && SameBytes(mem, mem', b)
  {
    assert bs == bs[..i] + bs[i..j] + bs[j..];
    if b in bs[..i] {
      var k :| 0 <= k < i && bs[k] == b;
      assert b.End() <= bs[i].addr;
      ShapeAt(bs, brk, k);
    } else {
      var k :| j <= k < |bs| && bs[k] == b;
      assert bs[j - 1].End() <= b.addr;
      ShapeAt(bs, brk, k);
    }
  }

  lemma SplitSpares(h: Heap, i: nat, size: int, anchor: int)
    requires WF(h) && i < |h.blocks| && anchor in h.ring
    requires 0 < size && size % PTSZ == 0 && size + JMSZ <= h.blocks[i].size
    ensures Spares(h, Split(h, i, size, anchor), h.blocks[i].Space())
    ensures forall a :: a < h.blocks[i].Space() + size ==> Peek(Split(h, i, size, anchor).mem, a) == Peek(h.mem, a)
  {
    var h' := Split(h, i, size, anchor);
    var kept, rest := h'.blocks[i], h'.blocks[i + 1];
    TwoStamps(h.mem, rest.cs2, rest.addr, kept.cs2, kept.addr);
    ShapeAt(h.blocks, h.brk, i);
    hide RingOk, Stamps, Tiled, Counted, Stamp, After, SameBytes, Sorted;
    forall b | b in h.blocks && !b.free && b.Space() != h.blocks[i].Space()
      ensures b in h'.blocks && SameBytes(h.mem, h'.mem, b)
    {
      assert h.blocks[i..i + 1] == [h.blocks[i]];
      SwapSpares(h.blocks, h.brk, i, i + 1, [kept, rest], h.mem, h'.mem, b);
    }
  }

  lemma SparesTrans(h: Heap, h1: Heap, h2: Heap, p: int)
    requires Spares(h, h1, p) && Spares(h1, h2, p)
    ensures Spares(h, h2, p)
  {
    forall b | b in h.blocks && !b.free && b.Space() != p
      ensures b in h2.blocks && SameBytes(h.mem, h2.mem, b)
    {
      assert SameBytes(h.mem, h1.mem, b) && SameBytes(h1.mem, h2.mem, b);
    }
  }

  lemma SetUsedSpares(h: Heap, i: nat)
    requires i < |h.blocks| && h.blocks[i].free && h.blocks[i].addr in h.ring
    ensures Spares(h, SetUsed(h, i), 0)
  {
    hide Without, Succ;
    var h' := SetUsed(h, i);
    forall c | c in h.blocks && !c.free
      ensures c in h'.blocks
    {
      var k :| 0 <= k < |h.blocks| && h.blocks[k] == c;
      assert h'.blocks[k] == c;
    }
  }

  lemma TakeSpares(h: Heap, i: nat, size: int)
    requires WF(h) && i < |h.blocks| && h.blocks[i].free && h.blocks[i].size >= size > 0 && size % PTSZ == 0
    ensures h.blocks[i].addr in h.ring && Spares(h, Take(h, i, size).0, 0)
    ensures Take(h, i, size).1 == Ptr(h.blocks[i].Space())
    ensures var h' := Take(h, i, size).0;
      |h.blocks| <= |h'.blocks| && !h'.blocks[i].free && h'.blocks[i].addr == h.blocks[i].addr && h'.blocks[i].size >= size
  {
    TakeKeeps(h, i, size);
    hide Shape, RingOk, Stamps, Tiled, Counted, Stamp, After, Without, Succ, Spares;
    var b := h.blocks[i];
    if b.size - size >= JMSZ {
      SplitFree(h, i, size, b.addr);
      var h1 := Split(h, i, size, b.addr);
      SetUsedSpares(h1, i);
      SparesTrans(h, h1, SetUsed(h1, i), 0);
    } else {
      SetUsedSpares(h, i);
    }
  }

  // Splitting a free block touches no used one.
  lemma SplitFree(h: Heap, i: nat, size: int, anchor: int)
    requires WF(h) && i < |h.blocks| && anchor in h.ring && h.blocks[i].free
    requires 0 < size && size % PTSZ == 0 && size + JMSZ <= h.blocks[i].size
    ensures Spares(h, Split(h, i, size, anchor), 0)
    ensures anchor in Split(h, i, size, anchor).ring
  {
    SplitSpares(h, i, size, anchor);
    SplitKeeps(h, i, size, anchor);
    hide SameBytes, Split, RingOk, Stamps, Tiled, Counted;
    forall b | b in h.blocks && !b.free
      ensures b.Space() != h.blocks[i].Space()
    {
      ShapeAtIn(h.blocks, h.brk, i, b);
    }
  }

  lemma ShapeAtIn(bs: seq<Blk>, brk: int, i: nat, c: Blk)
    requires Shape(bs, brk) && i < |bs| && c in bs && c != bs[i]
    ensures c.addr != bs[i].addr
  {
  }

  lemma FindAt(bs: seq<Blk>, brk: int, k: nat)
    requires Shape(bs, brk) && k < |bs|
    ensures Find(bs, bs[k].addr) == k
  {
    ShapeAt(bs, brk, k);
  }

  lemma ExtendsSpares(h: Heap, h1: Heap, p: int, size: int)
    requires WF(h) && Extends(h, h1, p, size)
    ensures Spares(h, h1, 0)
  {
    forall b | b in h.blocks && !b.free
      ensures b in h1.blocks && SameBytes(h.mem, h1.mem, b)
    {
      var k :| 0 <= k < |h.blocks| && h.blocks[k] == b;
      ShapeAt(h.blocks, h.brk, k);
      assert h1.blocks[..|h.blocks|][k] == b;
    }
  }

  lemma ExtendsUsed(h: Heap, h1: Heap, p: int, size: int)
    requires Extends(h, h1, p, size)
    ensures |h1.blocks| == |h.blocks| + 1 && h1.blocks[|h.blocks|].free && h1.blocks[|h.blocks|].size >= size
    ensures forall b :: b in h.blocks ==> b in h1.blocks
    ensures h1.blocks[|h.blocks|].addr in h1.ring
  {
    forall b | b in h.blocks
      ensures b in h1.blocks
    {
      var k :| 0 <= k < |h.blocks| && h.blocks[k] == b;
      assert h1.blocks[..|h.blocks|][k] == b;
    }
  }

  // p is the space of a used block of h' of at least size bytes that h did not have in use.
  ghost predicate Delivers(h: Heap, h': Heap, p: int, size: int) {
    && Live(h', p) && h'.blocks[BlockOf(h'.blocks, p)].size >= size
    && p % PTSZ == 0
    && (forall b :: b in h.blocks && !b.free ==> b.Space() != p)
  }

  lemma TakeDelivers(h: Heap, i: nat, size: int)
    requires WF(h) && i < |h.blocks| && h.blocks[i].free && h.blocks[i].size >= size > 0 && size % PTSZ == 0
    ensures h.blocks[i].addr in h.ring && WF(Take(h, i, size).0) && Spares(h, Take(h, i, size).0, 0)
    ensures var (h', r) := Take(h, i, size); r == Ptr(h.blocks[i].Space()) && Delivers(h, h', r.p, size)
  {
    TakeKeeps(h, i, size);
    TakeSpares(h, i, size);
    hide RingOk, Stamps, Tiled, Counted, Take, Spares, Shape, Delivers;
    DeliversAt(h, Take(h, i, size).0, i, size);
  }

  lemma DeliversAt(h: Heap, h': Heap, i: nat, size: int)
    requires Shape(h.blocks, h.brk) && Shape(h'.blocks, h'.brk) && i < |h.blocks| && i < |h'.blocks|
    requires h.blocks[i].free && !h'.blocks[i].free && h'.blocks[i].addr == h.blocks[i].addr && h'.blocks[i].size >= size
    ensures Delivers(h, h', h.blocks[i].Space(), size)
  {
    ShapeAt(h.blocks, h.brk, i);
    FindAt(h'.blocks, h'.brk, i);
    hide Sorted, Find;
    forall b | b in h.blocks && !b.free
      ensures b.Space() != h.blocks[i].Space()
    {
      ShapeAtIn(h.blocks, h.brk, i, b);
    }
  }

  lemma StartIn(h: Heap)
    requires WF(h)
    ensures h.start in h.ring
  {
  }

  // The number of sbrk calls plays no part here either.
  lemma SparesCalls(h: Heap, n: nat)
    ensures Spares(h, h.(calls := n), 0)
  {
  }

  lemma MallocDelivers(os: Os, h: Heap, n: int)
    requires WF(h)
    ensures var (h', r) := Malloc(os, h, n);
      && WF(h') && Spares(h, h', 0)
      && (r.Ptr? ==> n > 0 && Delivers(h, h', r.p, RoundUp(n)))
  {
    hide WF, RoundUp, Want, Request, Take, Extends, Search, SameBytes;
    if n <= 0 {
      SparesCalls(h, h.calls);
    } else {
      var size := RoundUp(n);
      WantOk(n);
      StartIn(h);
      SearchFindsFree(h, size);
      match Search(h, size)
      case Some(a) => TakeDelivers(h, Find(h.blocks, a), size);
      case None =>
        ObtainKeeps(os, h, size, Want(size));
        var (h1, p) := Obtain(os, h, size, Want(size));
        if p.Some? {
          ExtendsSpares(h, h1, p.value, size);
          ExtendsUsed(h, h1, p.value, size);
          TakeDelivers(h1, |h.blocks|, size);
          SparesTrans(h, h1, Take(h1, |h.blocks|, size).0, 0);
        } else {
          SparesCalls(h, h1.calls);
        }
    }
  }
}
