/** What one call of the allocator of tools/jgraph/jmalloc.c guarantees: which
    block malloc finds, when it asks sbrk, when calls abort, and which of them
    keep free neighbours merged. */
module JmallocTheorems {
  import opened JmallocHeap
  import opened JmallocParts
  import opened JmallocOps
  import opened JmallocRealloc
  import opened JmallocSearch
  import opened JmallocNumbers

  lemma ObtainCalls(os: Os, h: Heap, size: int, want: int)
    requires 0 < size && size + JMSZ <= want
    ensures Obtain(os, h, size, want).0.calls > h.calls
    decreases want
  {
  }

  // malloc asks for more memory exactly when no free block is large enough.
  lemma SbrkOnlyWhenFull(os: Os, h: Heap, n: int)
    requires WF(h) && n > 0
    ensures Malloc(os, h, n).0.calls == h.calls <==> Room(h.blocks, RoundUp(n))
  {
    RoundsUp(n);
    NextFit(h, RoundUp(n));
    ObtainCalls(os, h, RoundUp(n), Want(RoundUp(n)));
    hide WF, RoundUp, Search, Room;
  }

  // ----- aborts -----

  // When a call of realloc ends in an abort: an unusable size, a broken checksum, growth
  // in place that is too tight, or a move for which there is no memory: no free block is large
  // enough, and sbrk refuses all that malloc asks for.
  lemma ReallocAborts(os: Os, h: Heap, p: int, n: int)
    requires WF(h) && Live(h, p)
    ensures var b := h.blocks[BlockOf(h.blocks, p)];
      Realloc(os, h, p, n).1 == Abort <==>
        n <= 0 || !Stamped(h.mem, b.cs2, b.addr) ||
        (b.size <= RoundUp(n) &&
         if exists c :: HasRoom(h.blocks, b, c, RoundUp(n))
         then exists c :: HasRoom(h.blocks, b, c, RoundUp(n)) && Tight(b, c, RoundUp(n))
         else Exhausted(os, h, RoundUp(n)))
  {
    hide *;
    if n > 0 {
      ReallocCases(os, h, p, n);
      var i, size := BlockOf(h.blocks, p), RoundUp(n);
      var b := h.blocks[i];
      GrowMeans(h, i, size);
      HasRoomMeans(h.blocks, b, size);
      if Stamped(h.mem, b.cs2, b.addr) && b.size <= size {
        if CanGrow(h.blocks, i, size) {
          GrowReallocates(os, h, i, size);
        } else {
          MoveReallocates(os, h, i, size);
          NullMeans(os, h, n);
          NoMemoryRounded(os, h, n);
          MallocNull(os, h, size);
        }
      }
    } else {
      ReallocNothing(os, h, p, n);
    }
  }

  // The checksum of a used block survives everything the program may store into that
  // block exactly when its header has the checksum behind the space.  Where it is inside
  // (see JmallocTrailers), one legal store makes the later free abort.
  lemma FreeSafety(h: Heap, p: int)
    requires WF(h) && Live(h, p)
    ensures var b := h.blocks[BlockOf(h.blocks, p)];
      b.cs2 == b.Trailer() <==>
        forall m :: OnlyInside(h.mem, m, b) && WF(h.(mem := m)) ==> Free(h.(mem := m), p).1 == Done
  {
    var i := BlockOf(h.blocks, p);
    var b := h.blocks[i];
    ShapeAt(h.blocks, h.brk, i);
    if b.cs2 == b.Trailer() {
      forall m | OnlyInside(h.mem, m, b) && WF(h.(mem := m))
        ensures Free(h.(mem := m), p).1 == Done
      {
        assert Stamped(h.mem, b.cs2, b.addr);
        assert Stamped(m, b.cs2, b.addr);
        FreeStamped(h.(mem := m), p);
      }
    } else {
      var v: Byte := if StampByte(b.addr, 0) == 0 then 1 else 0;
      var m := h.mem[b.cs2 := v];
      StoreKeeps(h, i, m);
      assert !Stamped(m, b.cs2, b.addr);
      FreeStamped(h.(mem := m), p);
      assert OnlyInside(h.mem, m, b);
    }
  }
}
