/** Which block malloc of tools/jgraph/jmalloc.c finds, and when it finds no memory at all. */
module JmallocSearch {
  import opened JmallocHeap
  import opened JmallocOps
  import opened JmallocRealloc

  // ----- the search -----

  lemma {:induction false} FirstFitMeaning(bs: seq<Blk>, order: seq<int>, size: int)
    ensures var r := FirstFit(bs, order, size);
      && (r.None? <==> forall k :: 0 <= k < |order| ==> SizeAt(bs, order[k]) < size)
      && (r.Some? ==> exists k :: 0 <= k < |order| && order[k] == r.value && SizeAt(bs, order[k]) >= size
                        && forall j :: 0 <= j < k ==> SizeAt(bs, order[j]) < size)
  {
    if order != [] && SizeAt(bs, order[0]) < size {
      var rest := order[1..];
      FirstFitMeaning(bs, rest, size);
      var r := FirstFit(bs, rest, size);
      if r.Some? {
        var k :| 0 <= k < |rest| && rest[k] == r.value && SizeAt(bs, rest[k]) >= size
          && forall j :: 0 <= j < k ==> SizeAt(bs, rest[j]) < size;
        forall j | 0 <= j < k + 1
          ensures SizeAt(bs, order[j]) < size
        {
          if j > 0 { assert order[j] == rest[j - 1]; }
        }
        assert order[k + 1] == r.value;
      } else {
        forall k | 0 <= k < |order|
          ensures SizeAt(bs, order[k]) < size
        {
          if k > 0 { assert order[k] == rest[k - 1]; }
        }
      }
    }
  }

  // Whether some free block has room for size bytes.
  ghost predicate Room(bs: seq<Blk>, size: int) {
    exists i :: 0 <= i < |bs| && bs[i].free && bs[i].size >= size
  }

  // The search fails only if no free block is large enough, and otherwise finds
  // the nearest one in ring order from start.
  lemma NextFit(h: Heap, size: int)
    requires WF(h) && size > 0
    ensures var r := Search(h, size); var order := From(h.ring, h.start);
      && (r.None? <==> !Room(h.blocks, size))
      && (r.Some? ==> exists k :: 0 <= k < |order| && order[k] == r.value && SizeAt(h.blocks, order[k]) >= size
                        && forall j :: 0 <= j < k ==> SizeAt(h.blocks, order[j]) < size)
  {
    var order := From(h.ring, h.start);
    FirstFitMeaning(h.blocks, order, size);
    SearchFindsFree(h, size);
    if Room(h.blocks, size) {
      var i :| 0 <= i < |h.blocks| && h.blocks[i].free && h.blocks[i].size >= size;
      assert FreeAt(h.blocks, h.blocks[i].addr);
      FindAt(h.blocks, h.brk, i);
      FromHolds(h.ring, h.start, h.blocks[i].addr);
      var k :| 0 <= k < |order| && order[k] == h.blocks[i].addr;
      assert SizeAt(h.blocks, order[k]) >= size;
    }
  }

  lemma FromHolds(ring: seq<int>, start: int, a: int)
    requires start in ring && a in ring
    ensures a in From(ring, start)
  {
    var k := Pos(ring, start);
    assert ring == ring[..k] + ring[k..];
  }

  // ----- no memory -----

  // From its call number calls on, sbrk refuses want bytes, and every smaller request that malloc makes.
  predicate Refused(os: Os, calls: nat, size: int, want: int)
    requires 0 < size && size + JMSZ <= want
    decreases want
  {
    os(calls, want).None? && (want > size + JMSZ ==> Refused(os, calls + 1, size, Halve(size, want)))
  }

  // There is no memory for n bytes: neither in a free block nor from sbrk.
  ghost predicate NoMemory(os: Os, h: Heap, n: int)
    requires n > 0
  {
    RoundsUp(n);
    !Room(h.blocks, RoundUp(n)) && Refused(os, h.calls, RoundUp(n), Want(RoundUp(n)))
  }

  lemma {:induction false} ObtainRefused(os: Os, h: Heap, size: int, want: int)
    requires 0 < size && size + JMSZ <= want
    ensures Obtain(os, h, size, want).1.None? <==> Refused(os, h.calls, size, want)
    decreases want
  {
    if os(h.calls, want).None? && want > size + JMSZ {
      ObtainRefused(os, h.(calls := h.calls + 1), size, Halve(size, want));
    }
  }

  // malloc answers NULL exactly when there is no memory.
  lemma MallocNull(os: Os, h: Heap, n: int)
    requires WF(h) && n > 0
    ensures Malloc(os, h, n).1 == Null <==> NoMemory(os, h, n)
    ensures Malloc(os, h, n).1.Null? || Malloc(os, h, n).1.Ptr?
  {
    RoundsUp(n);
    var size := RoundUp(n);
    NextFit(h, size);
    ObtainRefused(os, h, size, Want(size));
    hide WF, RoundUp, Search, Room, Refused, Obtain;
  }

  // A size that is rounded up already stays.
  lemma RoundTwice(n: int)
    requires n > 0
    ensures RoundUp(n) > 0 && RoundUp(RoundUp(n)) == RoundUp(n)
  {
    RoundsUp(n);
  }

  lemma NoMemoryRounded(os: Os, h: Heap, n: int)
    requires n > 0
    ensures RoundUp(n) > 0 && (NoMemory(os, h, RoundUp(n)) <==> NoMemory(os, h, n))
  {
    RoundTwice(n);
    hide RoundUp, Room, Refused;
  }
}
