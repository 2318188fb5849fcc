/** Where the second checksums of tools/jgraph/jmalloc.c are, over whole runs: they leave
    the ends of their blocks only when free merges. */
module JmallocTrailers {
  import opened Options
  import opened JmallocHeap
  import opened JmallocOps
  import opened JmallocRealloc
  import opened JmallocRuns
  import opened JmallocSearch

  // Every block has its checksum behind its space.
  predicate Ended(bs: seq<Blk>) {
    forall i :: 0 <= i < |bs| ==> bs[i].cs2 == bs[i].Trailer()
  }

  lemma TakeEnded(h: Heap, i: nat, size: int)
    requires i < |h.blocks| && h.blocks[i].addr in h.ring && Ended(h.blocks)
    ensures Ended(Take(h, i, size).0.blocks)
  {
    hide After, Without, Succ, Stamp;
    var bs := Take(h, i, size).0.blocks;
    forall k | 0 <= k < |bs|
      ensures bs[k].cs2 == bs[k].Trailer()
    {
      assert k < |h.blocks| ==> h.blocks[k].cs2 == h.blocks[k].Trailer();
      assert k > 0 ==> h.blocks[k - 1].cs2 == h.blocks[k - 1].Trailer();
    }
  }

  lemma {:induction false} ObtainEnded(os: Os, h: Heap, size: int, want: int)
    requires 0 < size && size + JMSZ <= want
    ensures var (h1, p) := Obtain(os, h, size, want); p.Some? ==>
      |h1.blocks| == |h.blocks| + 1 && h1.blocks[..|h.blocks|] == h.blocks
      && h1.blocks[|h.blocks|].cs2 == h1.blocks[|h.blocks|].Trailer()
    decreases want
  {
    hide Stamp;
    if os(h.calls, want).None? && want > size + JMSZ {
      ObtainEnded(os, h.(calls := h.calls + 1), size, Halve(size, want));
    }
  }

  // A new block at the end has its checksum in place.
  lemma OneMoreEnded(bs: seq<Blk>, cs: seq<Blk>)
    requires Ended(bs) && |cs| == |bs| + 1 && cs[..|bs|] == bs && cs[|bs|].cs2 == cs[|bs|].Trailer()
    ensures Ended(cs)
  {
    forall k | 0 <= k < |cs|
      ensures cs[k].cs2 == cs[k].Trailer()
    {
      if k < |bs| { assert cs[..|bs|][k] == bs[k]; }
    }
  }

  lemma MallocEnded(os: Os, h: Heap, n: int)
    requires WF(h) && Ended(h.blocks)
    ensures Ended(Malloc(os, h, n).0.blocks)
  {
    if n > 0 {
      var size := RoundUp(n);
      RoundsUp(n);
      SearchFindsFree(h, size);
      SearchInRing(h, size);
      hide WF, Take, Extends, RoundUp, Ended, Search;
      match Search(h, size)
      case Some(a) => TakeEnded(h, Find(h.blocks, a), size);
      case None =>
        ObtainKeeps(os, h, size, Want(size));
        ObtainEnded(os, h, size, Want(size));
        var (h1, p) := Obtain(os, h, size, Want(size));
        if p.Some? {
          ExtendsUsed(h, h1, p.value, size);
          OneMoreEnded(h.blocks, h1.blocks);
          TakeEnded(h1, |h.blocks|, size);
        }
    }
  }

  // Taking free block i leaves it with its checksum inside exactly when it is taken whole, and had
  // its checksum there already.
  lemma TakeTrailer(h: Heap, i: nat, size: int)
    requires WF(h) && i < |h.blocks| && h.blocks[i].free && h.blocks[i].size >= size > 0 && size % PTSZ == 0
    ensures h.blocks[i].addr in h.ring
    ensures var (h', r) := Take(h, i, size);
      && r == Ptr(h.blocks[i].Space()) && Live(h', r.p)
      && var b := h'.blocks[BlockOf(h'.blocks, r.p)];
        b.cs2 != b.Trailer() <==> h.blocks[i].size - size < JMSZ && h.blocks[i].cs2 != h.blocks[i].Trailer()
  {
    TakeKeeps(h, i, size);
    TakeSpares(h, i, size);
    LiveAt(Take(h, i, size).0, i);
  }

  // malloc finds a free block with its checksum inside, and not enough room to split it.
  ghost predicate FindsInner(h: Heap, size: int)
    requires h.start in h.ring
  {
    Search(h, size).Some? &&
    var i := Find(h.blocks, Search(h, size).value);
    i < |h.blocks| && h.blocks[i].size - size < JMSZ && h.blocks[i].cs2 != h.blocks[i].Trailer()
  }

  // malloc hands out a block with its checksum inside the space exactly when it finds such a block;
  // a block from new memory never is one.
  lemma TrailerAfterMalloc(os: Os, h: Heap, n: int)
    requires WF(h) && n > 0 && Malloc(os, h, n).1.Ptr?
    ensures h.start in h.ring
    ensures var (h', r) := Malloc(os, h, n);
      && Live(h', r.p)
      && var b := h'.blocks[BlockOf(h'.blocks, r.p)];
        b.cs2 != b.Trailer() <==> FindsInner(h, RoundUp(n))
  {
    var size := RoundUp(n);
    RoundsUp(n);
    StartIn(h);
    SearchFindsFree(h, size);
    hide WF, Take, Extends, RoundUp, Search, Live, BlockOf;
    match Search(h, size)
    case Some(a) => TakeTrailer(h, Find(h.blocks, a), size);
    case None =>
      ObtainKeeps(os, h, size, Want(size));
      ObtainEnded(os, h, size, Want(size));
      var (h1, p) := Obtain(os, h, size, Want(size));
      if p.Some? {
        ExtendsUsed(h, h1, p.value, size);
        TakeTrailer(h1, |h.blocks|, size);
      }
  }

  // Whether free merges the block with a neighbour.
  ghost predicate Merges(h: Heap, p: int)
    requires Live(h, p)
  {
    var i := BlockOf(h.blocks, p);
    Stamped(h.mem, h.blocks[i].cs2, h.blocks[i].addr) && (MergesLeft(h.blocks, i) || FreeAndNext(h.blocks, i))
  }

  // A merged block has its checksum inside.
  lemma JoinNotEnded(bs: seq<Blk>, k: nat)
    requires k + 1 < |bs| && bs[k].cs2 <= bs[k].Trailer() && bs[k + 1].size >= 0
    ensures k < |Join(bs, k)| && Join(bs, k)[k].cs2 < Join(bs, k)[k].Trailer() && !Ended(Join(bs, k))
  {
    assert Join(bs, k)[k].cs2 < Join(bs, k)[k].Trailer();
  }

  lemma FreedEnded(bs: seq<Blk>, i: nat)
    requires i < |bs| && Ended(bs)
    ensures Ended(bs[i := bs[i].(free := true)])
  {
  }

  // free keeps all checksums at the ends exactly when it merges nothing.
  lemma FreeEnded(h: Heap, p: int)
    requires WF(h) && Live(h, p) && Ended(h.blocks)
    ensures Ended(Free(h, p).0.blocks) <==> !Merges(h, p)
  {
    MergesMeans(h, p);
    hide *;
    FreeCases(h, p);
    Sizes(h);
    FreedNotEnded(h.blocks, BlockOf(h.blocks, p));
  }

  lemma MergesMeans(h: Heap, p: int)
    requires Live(h, p)
    ensures var i := BlockOf(h.blocks, p);
      Merges(h, p) <==>
        Stamped(h.mem, h.blocks[i].cs2, h.blocks[i].addr) && (MergesLeft(h.blocks, i) || FreeAndNext(h.blocks, i))
  {
  }

  lemma FreedNotEnded(bs: seq<Blk>, i: nat)
    requires i < |bs| && Ended(bs) && forall k :: 0 <= k < |bs| ==> bs[k].size >= 0
    ensures Ended(Freed(bs, i)) <==> !(MergesLeft(bs, i) || FreeAndNext(bs, i))
  {
    if MergesLeft(bs, i) {
      JoinNotEnded(bs, i - 1);
      var cs := Join(bs, i - 1);
      if FreeAndNext(cs, i - 1) {
        assert cs[i] == bs[i + 1];
        JoinNotEnded(cs, i - 1);
      }
    } else {
      FreedEnded(bs, i);
      var cs := bs[i := bs[i].(free := true)];
      if FreeAndNext(cs, i) { JoinNotEnded(cs, i); }
    }
  }

  lemma Sizes(h: Heap)
    requires WF(h)
    ensures forall k :: 0 <= k < |h.blocks| ==> h.blocks[k].size >= 0
  {
    forall k | 0 <= k < |h.blocks|
      ensures h.blocks[k].size >= 0
    {
      HeaderOk(h, k);
    }
  }

  // So a heap whose checksums are all at the ends frees without fail.
  lemma EndedFrees(h: Heap, p: int)
    requires WF(h) && Live(h, p) && Ended(h.blocks)
    ensures Free(h, p).1 == Done
  {
    var i := BlockOf(h.blocks, p);
    HeldStamp(h, i);
    hide WF, Stamped;
    FreeStamped(h, p);
  }

  // ----- the neighbours of a block that moves -----

  // The blocks after free block k has been taken for size bytes.
  function Taken(bs: seq<Blk>, k: nat, size: int): seq<Blk>
    requires k < |bs|
  {
    if bs[k].size - size < JMSZ then bs[k := bs[k].(free := false)]
    else
      var b := bs[k];
      var rest := Blk(b.Space() + size + PTSZ, b.size - size - JMSZ, true, b.Trailer());
      bs[..k] + [b.(size := size, cs2 := b.Space() + size, free := false), rest] + bs[k + 1..]
  }

  lemma TakeIs(h: Heap, k: nat, size: int)
    requires k < |h.blocks| && h.blocks[k].addr in h.ring
    ensures Take(h, k, size).0.blocks == Taken(h.blocks, k, size)
  {
    hide After, Without, Succ, Stamp;
    assert Take(h, k, size).0.blocks == Taken(h.blocks, k, size);
  }

  // Where block i is then.
  function Place(bs: seq<Blk>, k: nat, size: int, i: nat): nat
    requires k < |bs|
  {
    if k < i && bs[k].size - size >= JMSZ then i + 1 else i
  }

  // Block i could be merged to the left if the left neighbour was not taken whole,
  lemma TakenLeft(bs: seq<Blk>, k: nat, size: int, i: nat)
    requires k < |bs| && i < |bs| && k != i && bs[k].free
    ensures var cs, j := Taken(bs, k, size), Place(bs, k, size, i);
      && j < |cs| && cs[j] == bs[i]
      && (MergesLeft(cs, j) <==> MergesLeft(bs, i) && !(k + 1 == i && bs[k].size - size < JMSZ))
  {
    var cs := Taken(bs, k, size);
    if bs[k].size - size < JMSZ {
    } else if k < i {
      assert cs[i + 1] == bs[i];
      if k + 1 < i { assert cs[i] == bs[i - 1]; }
    } else {
      assert cs[i] == bs[i];
      if 0 < i { assert cs[i - 1] == bs[i - 1]; }
    }
  }

  // and to the right if the right neighbour was not taken.
  lemma TakenRight(bs: seq<Blk>, k: nat, size: int, i: nat)
    requires k < |bs| && i < |bs| && k != i
    ensures var cs, j := Taken(bs, k, size), Place(bs, k, size, i);
      && j < |cs| && cs[j] == bs[i]
      && (FreeAndNext(cs, j) <==> FreeAndNext(bs, i) && k != i + 1)
  {
    var cs := Taken(bs, k, size);
    if bs[k].size - size < JMSZ {
    } else if k < i {
      assert cs[i + 1] == bs[i];
      if i + 1 < |bs| { assert cs[i + 2] == bs[i + 1]; }
    } else {
      assert cs[i] == bs[i];
      if i + 1 < k { assert cs[i + 1] == bs[i + 1]; }
    }
  }

  // malloc takes the left neighbour of block i whole.
  ghost predicate TakesLeft(h: Heap, i: nat, size: int)
    requires h.start in h.ring && i < |h.blocks|
  {
    0 < i && h.blocks[i - 1].size - size < JMSZ && Search(h, size) == Some(h.blocks[i - 1].addr)
  }

  // Whether the free at the end of a move merges: there is memory to move to, and a free neighbour
  // that is not taken for it.
  ghost predicate MoveMerges(os: Os, h: Heap, i: nat, size: int)
    requires 0 < size && h.start in h.ring && i < |h.blocks|
  {
    !NoMemory(os, h, size) && (FreeAndNext(h.blocks, i) || (MergesLeft(h.blocks, i) && !TakesLeft(h, i, size)))
  }

  // What the search finds is not block i, and is its left neighbour by address exactly if by place.
  lemma FoundElsewhere(h: Heap, i: nat, size: int)
    requires WF(h) && size > 0 && i < |h.blocks| && !h.blocks[i].free && Search(h, size).Some?
    ensures var k := Find(h.blocks, Search(h, size).value);
      && k < |h.blocks| && k != i && h.blocks[k].free && h.blocks[k].size >= size
      && h.blocks[k].addr == Search(h, size).value && h.blocks[k].addr in h.ring
      && (0 < i ==> (Search(h, size) == Some(h.blocks[i - 1].addr) <==> k == i - 1))
  {
    SearchFindsFree(h, size);
    SearchInRing(h, size);
    var k := Find(h.blocks, Search(h, size).value);
    hide Search, RingOk, Stamps, Tiled, Counted;
    if 0 < i && k != i - 1 {
      FindAt(h.blocks, h.brk, i - 1);
    }
  }

  // After malloc, block i is somewhere, with free neighbours as the heap before tells.
  lemma MallocSides(os: Os, h: Heap, i: nat, size: int) returns (j: nat)
    requires WF(h) && i < |h.blocks| && !h.blocks[i].free && !CanGrow(h.blocks, i, size)
    requires 0 < size && size % PTSZ == 0 && 0 <= h.blocks[i].size && !NoMemory(os, h, size)
    ensures h.start in h.ring
    ensures var bs := Malloc(os, h, size).0.blocks;
      && j < |bs| && bs[j] == h.blocks[i]
      && (MergesLeft(bs, j) || FreeAndNext(bs, j) <==>
            FreeAndNext(h.blocks, i) || (MergesLeft(h.blocks, i) && !TakesLeft(h, i, size)))
  {
    StartIn(h);
    Rounded(size);
    MallocNull(os, h, size);
    if Search(h, size).Some? {
      FoundElsewhere(h, i, size);
      var k := Find(h.blocks, Search(h, size).value);
      MallocTakes(os, h, size);
      hide WF, Malloc, Search, Take, NoMemory;
      TakeIs(h, k, size);
      TakenLeft(h.blocks, k, size, i);
      TakenRight(h.blocks, k, size, i);
      hide Taken;
      j := Place(h.blocks, k, size, i);
    } else {
      j := i;
      NewSides(os, h, i, size);
      hide WF, Malloc, Search, NoMemory;
    }
  }

  lemma Rounded(size: int)
    requires 0 < size && size % PTSZ == 0
    ensures RoundUp(size) == size
  {
  }

  lemma MallocTakes(os: Os, h: Heap, size: int)
    requires WF(h) && 0 < size && RoundUp(size) == size && Search(h, size).Some?
    ensures var k := Find(h.blocks, Search(h, size).value);
      k < |h.blocks| && h.blocks[k].addr in h.ring && Malloc(os, h, size) == Take(h, k, size)
  {
    SearchFindsFree(h, size);
    SearchInRing(h, size);
    hide WF, Take, Search;
  }

  // A new segment leaves the free neighbours of block i as they are: what it adds is used at once.
  lemma NewSides(os: Os, h: Heap, i: nat, size: int)
    requires WF(h) && i < |h.blocks| && 0 < size && RoundUp(size) == size && size % PTSZ == 0
    requires h.start in h.ring && Search(h, size).None? && !NoMemory(os, h, size)
    ensures var bs := Malloc(os, h, size).0.blocks;
      && i < |bs| && bs[i] == h.blocks[i]
      && (MergesLeft(bs, i) <==> MergesLeft(h.blocks, i))
      && (FreeAndNext(bs, i) <==> FreeAndNext(h.blocks, i))
  {
    hide *;
    var h1 := MallocExtends(os, h, size);
    TakeIs(h1, |h.blocks|, size);
    MoreSides(h.blocks, h1.blocks, size, i);
  }

  lemma MallocExtends(os: Os, h: Heap, size: int) returns (h1: Heap)
    requires WF(h) && 0 < size && RoundUp(size) == size && size % PTSZ == 0
    requires h.start in h.ring && Search(h, size).None? && !NoMemory(os, h, size)
    ensures |h1.blocks| == |h.blocks| + 1 && h1.blocks[..|h.blocks|] == h.blocks && h1.blocks[|h.blocks|].free
    ensures h1.blocks[|h.blocks|].addr in h1.ring && Malloc(os, h, size) == Take(h1, |h.blocks|, size)
  {
    RoundsUp(size);
    MallocNull(os, h, size);
    ObtainKeeps(os, h, size, Want(size));
    ObtainEnded(os, h, size, Want(size));
    hide WF, Obtain, Take, Extends, Search, NoMemory, RoundUp, Want;
    var obtained := Obtain(os, h, size, Want(size));
    h1 := obtained.0;
    if obtained.1.Some? { ExtendsUsed(h, h1, obtained.1.value, size); }
  }

  lemma MoreSides(bs: seq<Blk>, cs: seq<Blk>, size: int, i: nat)
    requires i < |bs| && |cs| == |bs| + 1 && cs[..|bs|] == bs && cs[|bs|].free
    ensures var ds := Taken(cs, |bs|, size);
      && i < |ds| && ds[i] == bs[i]
      && (MergesLeft(ds, i) <==> MergesLeft(bs, i)) && (FreeAndNext(ds, i) <==> FreeAndNext(bs, i))
  {
    var n := |bs|;
    TakenLeft(cs, n, size, i);
    TakenRight(cs, n, size, i);
    hide Taken;
    assert cs[i] == cs[..n][i];
    if 0 < i { assert cs[i - 1] == cs[..n][i - 1]; }
    if i + 1 < n { assert cs[i + 1] == cs[..n][i + 1]; }
  }

  // The free at the end of a move merges exactly when the heap before the move says so.
  lemma MoveMergesMeans(os: Os, h: Heap, i: nat, size: int)
    requires WF(h) && i < |h.blocks| && !h.blocks[i].free && !CanGrow(h.blocks, i, size)
    requires 0 < size && size % PTSZ == 0 && h.blocks[i].size <= size
    requires Stamped(h.mem, h.blocks[i].cs2, h.blocks[i].addr) && Malloc(os, h, size).1.Ptr?
    ensures h.start in h.ring
    ensures var b := h.blocks[i]; var (h1, q) := Malloc(os, h, size);
      var h2 := h1.(mem := Copy(h1.mem, q.p, b.Space(), b.size));
      Live(h2, b.Space()) && (Merges(h2, b.Space()) <==> MoveMerges(os, h, i, size))
  {
    HeaderOk(h, i);
    var b := h.blocks[i];
    assert b.size >= 0;
    hide *;
    var (h1, q) := Malloc(os, h, size);
    var h2 := h1.(mem := Copy(h1.mem, q.p, b.Space(), b.size));
    MoveCopy(os, h, i, size);
    MallocNull(os, h, size);
    var j := MallocSides(os, h, i, size);
    BlockAt(h2, j);
    MergesMeans(h2, b.Space());
    MoveMergesIs(os, h, i, size);
  }

  lemma BlockAt(h: Heap, j: nat)
    requires WF(h) && j < |h.blocks| && !h.blocks[j].free
    ensures BlockOf(h.blocks, h.blocks[j].Space()) == j
  {
    LiveAt(h, j);
  }

  lemma MoveMergesIs(os: Os, h: Heap, i: nat, size: int)
    requires 0 < size && h.start in h.ring && i < |h.blocks|
    ensures MoveMerges(os, h, i, size) <==>
      !NoMemory(os, h, size) && (FreeAndNext(h.blocks, i) || (MergesLeft(h.blocks, i) && !TakesLeft(h, i, size)))
  {
  }

  // Whether an operation merges a freed block with a neighbour.
  ghost predicate StepMerges(os: Os, h: Heap, op: Op)
    requires WF(h) && Legal(h, op)
  {
    match op
    case CallFree(p) => Merges(h, p)
    case CallRealloc(p, n) =>
      n > 0 &&
      var i := BlockOf(h.blocks, p); var b := h.blocks[i];
      RoundsUp(n);
      StartIn(h);
      && Stamped(h.mem, b.cs2, b.addr) && b.size <= RoundUp(n) && !CanGrow(h.blocks, i, RoundUp(n))
      && MoveMerges(os, h, i, RoundUp(n))
    case _ => false
  }

  lemma SplitEnded(h: Heap, i: nat, size: int, anchor: int)
    requires i < |h.blocks| && anchor in h.ring && Ended(h.blocks)
    ensures Ended(Split(h, i, size, anchor).blocks)
  {
    hide After, Stamp;
    var bs := Split(h, i, size, anchor).blocks;
    forall k | 0 <= k < |bs|
      ensures bs[k].cs2 == bs[k].Trailer()
    {
      assert k < |h.blocks| ==> h.blocks[k].cs2 == h.blocks[k].Trailer();
      assert k > 0 ==> h.blocks[k - 1].cs2 == h.blocks[k - 1].Trailer();
    }
  }

  lemma GrowEnded(h: Heap, i: nat)
    requires i + 1 < |h.blocks| && Ended(h.blocks)
    ensures Ended(Grow(h, i).blocks)
  {
    hide Stamp;
    var bs := Grow(h, i).blocks;
    forall k | 0 <= k < |bs|
      ensures bs[k].cs2 == bs[k].Trailer()
    {
      assert k < |h.blocks| ==> h.blocks[k].cs2 == h.blocks[k].Trailer();
      assert k + 1 < |h.blocks| ==> h.blocks[k + 1].cs2 == h.blocks[k + 1].Trailer();
    }
  }

  lemma GrowInPlaceEnded(os: Os, h: Heap, i: nat, size: int)
    requires WF(h) && i < |h.blocks| && !h.blocks[i].free && CanGrow(h.blocks, i, size) && Ended(h.blocks)
    ensures Ended(GrowInPlace(os, h, i, size).0.blocks)
  {
    var h0 := h.(start := h.blocks[i + 1].addr);
    var m := Missing(h.blocks[i], size);
    StartAtFree(h, i + 1);
    MallocEnded(os, h0, m);
    hide WF, Missing, Ended, Malloc;
    if Malloc(os, h0, m).1 == Ptr(h.blocks[i + 1].Space()) {
      GrowEnded(Malloc(os, h0, m).0, i);
    }
  }

  lemma MoveEnded(os: Os, h: Heap, i: nat, size: int)
    requires WF(h) && i < |h.blocks| && !h.blocks[i].free && !CanGrow(h.blocks, i, size)
    requires 0 < size && size % PTSZ == 0 && h.blocks[i].size <= size
    requires Stamped(h.mem, h.blocks[i].cs2, h.blocks[i].addr) && Ended(h.blocks)
    ensures h.start in h.ring && (Ended(Move(os, h, i, size).0.blocks) <==> !MoveMerges(os, h, i, size))
  {
    HeaderOk(h, i);
    var b := h.blocks[i];
    assert b.size >= 0;
    hide *;
    StartIn(h);
    MallocEnded(os, h, size);
    MoveCases(os, h, i, size);
    MallocNull(os, h, size);
    MoveMergesIs(os, h, i, size);
    var (h1, q) := Malloc(os, h, size);
    if q.Ptr? {
      MoveMergesMeans(os, h, i, size);
      FreeEnded(h1.(mem := Copy(h1.mem, q.p, b.Space(), b.size)), b.Space());
    }
  }

  lemma ReallocEnded(os: Os, h: Heap, p: int, n: int)
    requires WF(h) && Live(h, p) && Ended(h.blocks)
    ensures Ended(Realloc(os, h, p, n).0.blocks) <==> !StepMerges(os, h, CallRealloc(p, n))
  {
    if n > 0 {
      hide *;
      ReallocCases(os, h, p, n);
      ReallocMerges(os, h, p, n);
      var i, size := BlockOf(h.blocks, p), RoundUp(n);
      var b := h.blocks[i];
      if Stamped(h.mem, b.cs2, b.addr) {
        if size < b.size {
          if size + JMSZ + 4 <= b.size { SplitEnded(h, i, size, h.start); }
        } else if CanGrow(h.blocks, i, size) {
          GrowInPlaceEnded(os, h, i, size);
        } else {
          MoveEnded(os, h, i, size);
        }
      }
    } else {
      hide WF;
      ReallocNothing(os, h, p, n);
    }
  }

  lemma ReallocMerges(os: Os, h: Heap, p: int, n: int)
    requires WF(h) && Live(h, p) && n > 0
    ensures var i := BlockOf(h.blocks, p); var b := h.blocks[i]; var size := RoundUp(n);
      && 0 < size && size % PTSZ == 0 && i < |h.blocks| && !b.free && h.start in h.ring
      && (StepMerges(os, h, CallRealloc(p, n)) <==>
          Stamped(h.mem, b.cs2, b.addr) && b.size <= size && !CanGrow(h.blocks, i, size) && MoveMerges(os, h, i, size))
  {
    StartIn(h);
    RoundsUp(n);
    hide WF, Stamped, RoundUp, CanGrow, MoveMerges;
  }

  // One step takes a checksum off the end of its block exactly when it merges a freed block.
  lemma StepEnded(os: Os, h: Heap, op: Op)
    requires WF(h) && Legal(h, op) && Ended(h.blocks)
    ensures Ended(Step(os, h, op).0.blocks) <==> !StepMerges(os, h, op)
  {
    hide Ended, WF, Malloc, Free, Realloc, Merges;
    match op
    case CallMalloc(n) => MallocEnded(os, h, n);
    case CallCalloc(nelem, elsize) => MallocEnded(os, h, nelem * elsize);
    case CallFree(p) => FreeEnded(h, p);
    case CallRealloc(p, n) => ReallocEnded(os, h, p, n);
    case Store(p, offset, v) =>
  }

  ghost predicate NeverMerges(os: Os, h: Heap, ops: seq<Op>)
    requires WF(h) && LegalRun(os, h, ops)
    decreases ops
  {
    ops == [] ||
    (!StepMerges(os, h, ops[0]) &&
     var (h1, r) := Step(os, h, ops[0]);
     StepKeeps(os, h, ops[0]);
     r == Abort || NeverMerges(os, h1, ops[1..]))
  }

  // As long as a program never has two of its freed blocks merged, all checksums stay at the
  // ends, whatever it stores into its blocks, and each block that it holds can be freed.
  lemma {:induction false} RunEnded(os: Os, h: Heap, ops: seq<Op>)
    requires WF(h) && LegalRun(os, h, ops) && Ended(h.blocks) && NeverMerges(os, h, ops)
    ensures Ended(Run(os, h, ops).blocks)
    ensures forall p :: Live(Run(os, h, ops), p) ==> Free(Run(os, h, ops), p).1 == Done
    decreases ops
  {
    hide WF, Step, StepMerges, Ended, Free, Live;
    if ops != [] {
      StepKeeps(os, h, ops[0]);
      StepEnded(os, h, ops[0]);
      var (h1, r) := Step(os, h, ops[0]);
      if r != Abort {
        RunEnded(os, h1, ops[1..]);
      } else {
        AllFree(h1);
      }
    } else {
      AllFree(h);
    }
  }

  lemma AllFree(h: Heap)
    requires WF(h) && Ended(h.blocks)
    ensures forall p :: Live(h, p) ==> Free(h, p).1 == Done
  {
    hide WF, Ended, Free, Live;
    forall p | Live(h, p)
      ensures Free(h, p).1 == Done
    {
      EndedFrees(h, p);
    }
  }
}
