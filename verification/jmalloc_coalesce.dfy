/** Which operations of tools/jgraph/jmalloc.c keep free neighbours merged. */
module JmallocCoalesce {
  import opened JmallocHeap
  import opened JmallocParts
  import opened JmallocOps
  import opened JmallocRealloc
  import opened JmallocRuns

  // Only the pair at k may be unmerged.
  predicate CoalescedBut(bs: seq<Blk>, k: int) {
    forall i :: 0 <= i < |bs| && i != k ==> !Uncoalesced(bs, i)
  }

  lemma TakeCoalesced(h: Heap, i: nat, size: int)
    requires i < |h.blocks| && h.blocks[i].free && h.blocks[i].addr in h.ring && size > 0
    requires Coalesced(h.blocks)
    ensures Coalesced(Take(h, i, size).0.blocks)
  {
    hide After, Without, Succ, Stamp;
    var b := h.blocks[i];
    var bs := Take(h, i, size).0.blocks;
    forall k | 0 <= k < |bs|
      ensures !Uncoalesced(bs, k)
    {
      assert k < |h.blocks| ==> !Uncoalesced(h.blocks, k);
      assert k > 0 ==> !Uncoalesced(h.blocks, k - 1);
      assert !Uncoalesced(h.blocks, i);
    }
  }

  // The heap in front of a fresh block at i is as good as before once that block is taken.
  lemma TakeLastCoalesced(h: Heap, h1: Heap, size: int, p: int)
    requires WF(h) && WF(h1) && Extends(h, h1, p, size) && size > 0 && Coalesced(h.blocks)
    ensures Coalesced(Take(h1, |h.blocks|, size).0.blocks)
  {
    hide After, Without, Succ, Stamp, WF;
    var bs := Take(h1, |h.blocks|, size).0.blocks;
    forall k | 0 <= k < |bs|
      ensures !Uncoalesced(bs, k)
    {
      assert k < |h.blocks| ==> h1.blocks[k] == h.blocks[k] by {
        assert k < |h.blocks| ==> h1.blocks[..|h.blocks|][k] == h.blocks[k];
      }
      assert k + 1 < |h.blocks| ==> !Uncoalesced(h.blocks, k) && h1.blocks[..|h.blocks|][k + 1] == h.blocks[k + 1];
    }
  }

  // malloc keeps free neighbours merged, also when it extends the heap.
  lemma MallocCoalesced(os: Os, h: Heap, n: int)
    requires WF(h) && Coalesced(h.blocks)
    ensures Coalesced(Malloc(os, h, n).0.blocks)
  {
    if n > 0 {
      var size := RoundUp(n);
      RoundsUp(n);
      SearchFindsFree(h, size);
      hide WF, Take, Extends, RoundUp, Coalesced, Search;
      match Search(h, size)
      case Some(a) => TakeCoalesced(h, Find(h.blocks, a), size);
      case None =>
        ObtainKeeps(os, h, size, Want(size));
        var (h1, p) := Obtain(os, h, size, Want(size));
        if p.Some? {
          TakeLastCoalesced(h, h1, size, p.value);
        }
    }
  }

  lemma JoinCoalesced(bs: seq<Blk>, k: nat)
    requires k + 1 < |bs| && Joins(bs, k) && CoalescedBut(bs, k)
    requires bs[k].free == bs[k + 1].free
    ensures Coalesced(Join(bs, k))
  {
    var cs := Join(bs, k);
    forall i | 0 <= i < |cs|
      ensures !Uncoalesced(cs, i)
    {
      if i < k {
        assert !Uncoalesced(bs, i);
      } else {
        assert !Uncoalesced(bs, i + 1);
      }
    }
  }

  // free merges what it freed with both neighbours.
  lemma FreeCoalesced(h: Heap, p: int)
    requires WF(h) && Live(h, p) && Coalesced(h.blocks)
    ensures Coalesced(Free(h, p).0.blocks)
  {
    hide *;
    FreeCases(h, p);
    FreedCoalesced(h.blocks, BlockOf(h.blocks, p));
  }

  lemma FreedCoalesced(bs: seq<Blk>, i: nat)
    requires i < |bs| && Coalesced(bs) && !bs[i].free
    ensures Coalesced(Freed(bs, i))
  {
    hide Coalesced, CoalescedBut, Join;
    var left := MergesLeft(bs, i);
    FreedBut(bs, i, left);
    var cs := if left then Join(bs, i - 1) else bs[i := bs[i].(free := true)];
    var k: nat := if left then i - 1 else i;
    FreedFree(bs, i, left);
    if FreeAndNext(cs, k) {
      JoinCoalesced(cs, k);
    } else {
      ButNone(cs, k);
    }
  }

  lemma FreedFree(bs: seq<Blk>, i: nat, left: bool)
    requires i < |bs| && left == MergesLeft(bs, i)
    ensures if left then i - 1 < |Join(bs, i - 1)| && Join(bs, i - 1)[i - 1].free else bs[i := bs[i].(free := true)][i].free
  {
  }

  lemma ButNone(bs: seq<Blk>, k: nat)
    requires CoalescedBut(bs, k) && !FreeAndNext(bs, k)
    ensures Coalesced(bs)
  {
  }

  lemma FreedBut(bs: seq<Blk>, i: nat, left: bool)
    requires i < |bs| && Coalesced(bs) && !bs[i].free
    requires left <==> 0 < i && bs[i - 1].free && bs[i - 1].End() == bs[i].addr
    ensures if left then CoalescedBut(Join(bs, i - 1), i - 1) else CoalescedBut(bs[i := bs[i].(free := true)], i)
  {
    var k := if left then i - 1 else i;
    var cs := if left then Join(bs, i - 1) else bs[i := bs[i].(free := true)];
    forall j | 0 <= j < |cs| && j != k
      ensures !Uncoalesced(cs, j)
    {
      assert !Uncoalesced(bs, j);
      if left && j > k { assert !Uncoalesced(bs, j + 1); }
    }
  }

  // Splitting a used block leaves an unmerged pair exactly when a free block follows it at once.
  lemma SplitCoalesced(h: Heap, i: nat, size: int, anchor: int)
    requires i < |h.blocks| && anchor in h.ring && !h.blocks[i].free && Coalesced(h.blocks)
    ensures Coalesced(Split(h, i, size, anchor).blocks) <==> !FreeAndNext(h.blocks, i)
  {
    hide After, Stamp;
    var bs := Split(h, i, size, anchor).blocks;
    if FreeAndNext(h.blocks, i) {
      assert bs[i + 2] == h.blocks[i + 1];
      assert Uncoalesced(bs, i + 1);
    } else {
      forall k | 0 <= k < |bs|
        ensures !Uncoalesced(bs, k)
      {
        if k < i {
          assert !Uncoalesced(h.blocks, k);
        } else if k > i + 1 {
          assert !Uncoalesced(h.blocks, k - 1);
        } else if k == i + 1 && i + 1 < |h.blocks| {
          assert bs[k + 1] == h.blocks[i + 1];
        }
      }
    }
  }

  lemma GrowCoalesced(h: Heap, i: nat)
    requires i + 1 < |h.blocks| && Joins(h.blocks, i) && Coalesced(h.blocks)
    requires !h.blocks[i].free && !h.blocks[i + 1].free
    ensures Coalesced(Grow(h, i).blocks)
  {
    hide Stamp;
    JoinCoalesced(h.blocks, i);
    var cs := Join(h.blocks, i);
    var bs := Grow(h, i).blocks;
    forall k | 0 <= k < |bs|
      ensures !Uncoalesced(bs, k)
    {
      assert !Uncoalesced(cs, k);
    }
  }

  // Whether realloc cuts off the end of a block.
  ghost predicate Shrinks(h: Heap, i: nat, n: int)
    requires i < |h.blocks|
  {
    n > 0 && Stamped(h.mem, h.blocks[i].cs2, h.blocks[i].addr) && RoundUp(n) + JMSZ + 4 <= h.blocks[i].size
  }

  // realloc keeps free neighbours merged, except exactly when it cuts off the end of a
  // block that is followed at once by a free one.
  lemma ReallocCoalesced(os: Os, h: Heap, p: int, n: int)
    requires WF(h) && Live(h, p) && Coalesced(h.blocks)
    ensures var i := BlockOf(h.blocks, p);
      Coalesced(Realloc(os, h, p, n).0.blocks) <==> !(Shrinks(h, i, n) && FreeAndNext(h.blocks, i))
  {
    if n > 0 {
      ShrinksMeans(h, BlockOf(h.blocks, p), n);
      hide *;
      ReallocCases(os, h, p, n);
      var i, size := BlockOf(h.blocks, p), RoundUp(n);
      var b := h.blocks[i];
      if Stamped(h.mem, b.cs2, b.addr) {
        if size < b.size {
          if size + JMSZ + 4 <= b.size { SplitCoalesced(h, i, size, h.start); }
        } else if CanGrow(h.blocks, i, size) {
          GrowInPlaceCoalesced(os, h, i, size);
        } else {
          MoveCoalesced(os, h, i, size);
        }
      }
    } else {
      hide WF;
      ReallocNothing(os, h, p, n);
    }
  }

  lemma ShrinksMeans(h: Heap, i: nat, n: int)
    requires i < |h.blocks| && n > 0
    ensures Shrinks(h, i, n) <==>
      Stamped(h.mem, h.blocks[i].cs2, h.blocks[i].addr) && RoundUp(n) + JMSZ + 4 <= h.blocks[i].size
  {
  }

  lemma GrowInPlaceCoalesced(os: Os, h: Heap, i: nat, size: int)
    requires WF(h) && i < |h.blocks| && !h.blocks[i].free && CanGrow(h.blocks, i, size) && Coalesced(h.blocks)
    requires 0 < size && size % PTSZ == 0 && h.blocks[i].size <= size
    ensures Coalesced(GrowInPlace(os, h, i, size).0.blocks)
  {
    var b, next := h.blocks[i], h.blocks[i + 1];
    var h0 := h.(start := next.addr);
    var m := Missing(b, size);
    StartAtFree(h, i + 1);
    GrowthNeed(h, i, size);
    MallocCoalesced(os, h0, m);
    hide RoundUp, WF, Missing, GrowFails, Coalesced;
    if GrowFails(h.blocks, i, size) {
      if m > 0 { MallocPastStart(os, h0, m, i + 1); }
    } else {
      MallocAtStart(os, h0, m, i + 1);
      TakenPair(h0, i, RoundUp(m));
      GrowCoalesced(Malloc(os, h0, m).0, i);
    }
  }

  lemma MoveCoalesced(os: Os, h: Heap, i: nat, size: int)
    requires WF(h) && i < |h.blocks| && !h.blocks[i].free && 0 < size && h.blocks[i].size <= size
    requires Stamped(h.mem, h.blocks[i].cs2, h.blocks[i].addr) && Coalesced(h.blocks)
    ensures Coalesced(Move(os, h, i, size).0.blocks)
  {
    MallocCoalesced(os, h, size);
    hide WF, Stamped, Malloc, Coalesced, Copy;
    var b := h.blocks[i];
    var (h1, q) := Malloc(os, h, size);
    if q.Ptr? {
      MoveCopy(os, h, i, size);
      FreeCoalesced(h1.(mem := Copy(h1.mem, q.p, b.Space(), b.size)), b.Space());
    }
  }

  // One step of a run breaks the property exactly when it is such a realloc.
  lemma StepCoalesced(os: Os, h: Heap, op: Op)
    requires WF(h) && Legal(h, op) && Coalesced(h.blocks)
    ensures Coalesced(Step(os, h, op).0.blocks) <==>
      !(op.CallRealloc? && var i := BlockOf(h.blocks, op.p); Shrinks(h, i, op.n) && FreeAndNext(h.blocks, i))
  {
    match op
    case CallMalloc(n) => MallocCoalesced(os, h, n);
    case CallCalloc(nelem, elsize) => MallocCoalesced(os, h, nelem * elsize);
    case CallFree(p) => FreeCoalesced(h, p);
    case CallRealloc(p, n) => ReallocCoalesced(os, h, p, n);
    case Store(p, offset, v) =>
  }
}
