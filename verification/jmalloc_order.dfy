/** What the calls of tools/jgraph/jmalloc.c do to the ring of free blocks, to the place where the next
    search begins, and to the memory obtained from sbrk, with positions, addresses and sizes written out. */
module JmallocOrder {
  import opened Options
  import opened JmallocHeap
  import opened JmallocOps
  import opened JmallocRealloc
  import opened JmallocSearch
  import opened JmallocNumbers

  // ----- new memory -----

  // sbrk refuses k requests and grants the next one; a request that cannot be smaller is the last.
  ghost predicate Granted(os: Os, calls: nat, size: int, want: int, k: nat) {
    && os(calls + k, Asked(size, want, k)).Some?
    && forall j: nat :: j < k ==> os(calls + j, Asked(size, want, j)).None? && Asked(size, want, j) > size + 64
  }

  lemma GrantedNext(os: Os, calls: nat, size: int, want: int, k: nat)
    requires 0 < size && size + 64 < want && os(calls, want).None?
    requires Granted(os, calls + 1, size, Halve(size, want), k)
    ensures Granted(os, calls, size, want, k + 1) && Asked(size, want, k + 1) == Asked(size, Halve(size, want), k)
  {
    var next := Halve(size, want);
    FirstAsked(size, want);
    hide Asked, Halve;
    AskedNext(size, want, k);
    forall j: nat | j < k + 1
      ensures os(calls + j, Asked(size, want, j)).None? && Asked(size, want, j) > size + 64
    {
      if j > 0 {
        var i: nat := j - 1;
        AskedNext(size, want, i);
        assert os(calls + 1 + i, Asked(size, next, i)).None?;
      }
    }
  }

  lemma GrantedFirst(os: Os, calls: nat, size: int, want: int)
    requires size + 64 <= want && os(calls, want).Some?
    ensures Granted(os, calls, size, want, 0) && Asked(size, want, 0) == want
  {
    FirstAsked(size, want);
  }

  lemma {:induction false} ObtainMeans(os: Os, h: Heap, size: int, want: int) returns (k: nat)
    requires 0 < size && size + 64 <= want && Obtain(os, h, size, want).1.Some?
    ensures Granted(os, h.calls, size, want, k) && os(h.calls + k, Asked(size, want, k)).Some?
    ensures var n := Asked(size, want, k); var p := h.brk + 8 * os(h.calls + k, n).value;
      Obtain(os, h, size, want) == (AddSeg(h.(calls := h.calls + k + 1), p, n), Some(p))
    decreases want
  {
    hide Granted, Asked, AddSeg, Halve;
    if os(h.calls, want).Some? {
      GrantedFirst(os, h.calls, size, want);
      k := 0;
    } else {
      var h1 := h.(calls := h.calls + 1);
      var j := ObtainMeans(os, h1, size, Halve(size, want));
      GrantedNext(os, h.calls, size, want, j);
      k := j + 1;
    }
  }

  lemma Added(h: Heap, p: int, n: int)
    ensures var h' := AddSeg(h, p, n);
      && h'.ring == h.ring + [p] && h'.segs == h.segs + [Seg(p, p + n)] && h'.brk == p + n && h'.calls == h.calls
      && |h'.blocks| == |h.blocks| + 1 && h'.blocks[|h.blocks|].addr == p && h'.blocks[|h.blocks|].size == n - 64
  {
    hide Stamp;
  }

  // ----- malloc -----

  // A free block at address a with have bytes is taken for size bytes: it leaves the ring, and the next
  // search begins behind it; or what is left of it takes its place, and the search begins there.
  ghost predicate Used(ring: seq<int>, a: int, have: int, size: int, ring': seq<int>, start': int) {
    if have - size < 64 then
      exists k :: 0 <= k < |ring| && ring[k] == a &&
        ring' == ring[..k] + ring[k + 1..] && start' == ring[if k + 1 == |ring| then 0 else k + 1]
    else
      exists k :: 0 <= k < |ring| && ring[k] == a && ring' == ring[k := a + 64 + size] && start' == a + 64 + size
  }

  lemma Substituted(ring: seq<int>, a: int, x: int)
    requires a in ring
    ensures var r := After(ring, a, x); var k := Pos(ring, a);
      && a in r && k < |ring| && ring[k] == a && Without(r, a) == ring[k := x] && Succ(r, a) == x
  {
    var r := After(ring, a, x);
    var k := Pos(ring, a);
    SamePos(ring, a, x);
    hide Pos, After;
    CutOut(ring, k, x, r);
  }

  lemma CutOut(s: seq<int>, k: nat, x: int, r: seq<int>)
    requires k < |s| && r == s[..k + 1] + [x] + s[k + 1..]
    ensures |r| == |s| + 1 && r[k + 1] == x && r[..k] + r[k + 1..] == s[k := x]
  {
    var t := r[..k] + r[k + 1..];
    forall j | 0 <= j < |s|
      ensures t[j] == s[k := x][j]
    {
      if j < k { assert r[j] == s[j]; }
    }
  }

  lemma SamePos(ring: seq<int>, a: int, x: int)
    requires a in ring
    ensures var r := After(ring, a, x); var k := Pos(ring, a);
      && r == ring[..k + 1] + [x] + ring[k + 1..] && k < |ring| && Pos(r, a) == k && a in r
  {
    var r := After(ring, a, x);
    var k := Pos(ring, a);
    assert r[k] == a;
    assert forall j :: 0 <= j < k ==> r[j] == ring[j];
    FirstAt(r, a, k);
  }

  lemma FirstAt(s: seq<int>, a: int, k: nat)
    requires k < |s| && s[k] == a && forall j :: 0 <= j < k ==> s[j] != a
    ensures Pos(s, a) == k
  {
  }

  lemma Removed(ring: seq<int>, a: int)
    requires a in ring
    ensures var k := Pos(ring, a);
      k < |ring| && ring[k] == a && Without(ring, a) == ring[..k] + ring[k + 1..]
      && Succ(ring, a) == ring[if k + 1 == |ring| then 0 else k + 1]
  {
  }

  lemma TakenFields(h: Heap, i: nat, size: int)
    requires i < |h.blocks| && h.blocks[i].addr in h.ring
    ensures var b := h.blocks[i]; var h' := Take(h, i, size).0;
      && h'.segs == h.segs && h'.calls == h.calls && h'.brk == h.brk
      && if b.size - size < 64 then h'.ring == Without(h.ring, b.addr) && h'.start == Succ(h.ring, b.addr)
        else
          var r := After(h.ring, b.addr, b.addr + 64 + size);
          b.addr in r && h'.ring == Without(r, b.addr) && h'.start == Succ(r, b.addr)
  {
    hide *;
    var b := h.blocks[i];
    SizesAre();
    TakeIs(h, i, size);
    if b.size - size < JMSZ {
      SetUsedFields(h, i);
    } else {
      AfterHolds(h.ring, b.addr, b.addr + 64 + size);
      CutRing(h, i, size, b.addr);
      SetUsedFields(Split(h, i, size, b.addr), i);
    }
  }

  lemma TakeIs(h: Heap, i: nat, size: int)
    requires i < |h.blocks| && h.blocks[i].addr in h.ring
    ensures h.blocks[i].size - size < JMSZ ==> Take(h, i, size).0 == SetUsed(h, i)
    ensures h.blocks[i].size - size >= JMSZ ==>
      var h1 := Split(h, i, size, h.blocks[i].addr);
      i < |h1.blocks| && h1.blocks[i].addr == h.blocks[i].addr && h.blocks[i].addr in h1.ring && Take(h, i, size).0 == SetUsed(h1, i)
  {
    AfterHolds(h.ring, h.blocks[i].addr, h.blocks[i].Space() + size + PTSZ);
    hide After, Without, Succ, Stamp, SetUsed;
  }

  lemma SetUsedFields(h: Heap, i: nat)
    requires i < |h.blocks| && h.blocks[i].addr in h.ring
    ensures var a := h.blocks[i].addr; var h' := SetUsed(h, i);
      && h'.ring == Without(h.ring, a) && h'.start == Succ(h.ring, a)
      && h'.segs == h.segs && h'.calls == h.calls && h'.brk == h.brk
  {
    hide Without, Succ;
  }

  lemma AfterHolds(ring: seq<int>, a: int, x: int)
    requires a in ring
    ensures a in After(ring, a, x)
  {
    assert After(ring, a, x)[Pos(ring, a)] == a;
  }

  lemma TakeUses(h: Heap, i: nat, size: int)
    requires i < |h.blocks| && h.blocks[i].addr in h.ring
    ensures var b := h.blocks[i]; var h' := Take(h, i, size).0;
      Used(h.ring, b.addr, b.size, size, h'.ring, h'.start) && h'.segs == h.segs && h'.calls == h.calls
  {
    hide *;
    TakenFields(h, i, size);
    var b := h.blocks[i];
    var h' := Take(h, i, size).0;
    if b.size - size < 64 {
      Removed(h.ring, b.addr);
    } else {
      Substituted(h.ring, b.addr, b.addr + 64 + size);
    }
    UsedAt(h.ring, Pos(h.ring, b.addr), b.addr, b.size, size, h'.ring, h'.start);
  }

  lemma UsedAt(ring: seq<int>, k: nat, a: int, have: int, size: int, ring': seq<int>, start': int)
    requires k < |ring| && ring[k] == a
    requires
      if have - size < 64 then ring' == ring[..k] + ring[k + 1..] && start' == ring[if k + 1 == |ring| then 0 else k + 1]
      else ring' == ring[k := a + 64 + size] && start' == a + 64 + size
    ensures Used(ring, a, have, size, ring', start')
  {
  }

  // The block is one that was free, and sbrk is not called.
  ghost predicate Found(h: Heap, h': Heap, a: int, have: int, size: int) {
    && (exists b :: b in h.blocks && b.free && b.addr == a && b.size == have >= size)
    && Used(h.ring, a, have, size, h'.ring, h'.start)
    && h'.segs == h.segs && h'.calls == h.calls
  }

  // The block is all of the memory that sbrk granted, and stands at the end of the ring first.
  ghost predicate Bought(os: Os, h: Heap, h': Heap, a: int, have: int, size: int) {
    var want := if size > 16320 then size + 64 else 16384;
    && (exists k :: Granted(os, h.calls, size, want, k)
          && var n := Asked(size, want, k);
            a == h.brk + 8 * os(h.calls + k, n).value && have == n - 64 && h'.calls == h.calls + k + 1)
    && Used(h.ring + [a], a, have, size, h'.ring, h'.start)
    && h'.segs == h.segs + [Seg(a, a + 64 + have)]
  }

  /** How malloc gets the block it hands out, how large that is then, and what becomes of the ring: the
      space of a free block that was found, or of all that sbrk granted, is cut to size if 64 bytes or
      more of it would be left. */
  lemma MallocOrder(os: Os, h: Heap, n: int) returns (have: int)
    requires WF(h) && n > 0 && Malloc(os, h, n).1.Ptr?
    ensures var (h', r) := Malloc(os, h, n);
      have >= RoundUp(n) && Live(h', r.p) && h'.blocks[BlockOf(h'.blocks, r.p)].size == Handed(have, RoundUp(n))
    ensures var (h', r) := Malloc(os, h, n); var size := RoundUp(n);
      if exists b :: b in h.blocks && b.free && b.size >= size then Found(h, h', r.p - 56, have, size)
      else Bought(os, h, h', r.p - 56, have, size)
  {
    hide *;
    var size := RoundUp(n);
    MallocKeeps(os, h, n);
    MallocCases(os, h, n);
    NextFit(h, size);
    RoomMeans(h.blocks, size);
    var h' := Malloc(os, h, n).0;
    if Search(h, size).Some? {
      var k := Find(h.blocks, Search(h, size).value);
      TakeUses(h, k, size);
      SpaceIs(h.blocks[k]);
      TakenSize(h, k, size);
      SpaceIs(h'.blocks[k]);
      LiveIn(h', k);
      have := h.blocks[k].size;
      FoundAt(h, h', k, size);
    } else {
      WantMeans(size);
      var want := Want(size);
      BuysFor(os, h, n);
      var k := ObtainMeans(os, h, size, want);
      var p := h.brk + 8 * os(h.calls + k, Asked(size, want, k)).value;
      var h0 := h.(calls := h.calls + k + 1);
      Added(h0, p, Asked(size, want, k));
      var h1 := AddSeg(h0, p, Asked(size, want, k));
      TakeUses(h1, |h.blocks|, size);
      SpaceIs(h1.blocks[|h.blocks|]);
      TakenSize(h1, |h.blocks|, size);
      SpaceIs(h'.blocks[|h.blocks|]);
      LiveIn(h', |h.blocks|);
      AskedRoom(size, want, k);
      have := Asked(size, want, k) - 64;
      BoughtAt(os, h, h', k, have, size);
    }
  }

  lemma AskedRoom(size: int, want: int, k: nat)
    ensures Asked(size, want, k) >= size + 64
  {
  }

  lemma FoundAt(h: Heap, h': Heap, k: nat, size: int)
    requires k < |h.blocks| && h.blocks[k].free && h.blocks[k].size >= size
    requires Used(h.ring, h.blocks[k].addr, h.blocks[k].size, size, h'.ring, h'.start)
    requires h'.segs == h.segs && h'.calls == h.calls
    ensures Found(h, h', h.blocks[k].addr, h.blocks[k].size, size)
  {
    assert h.blocks[k] in h.blocks;
    hide Used;
  }

  lemma BoughtAt(os: Os, h: Heap, h': Heap, k: nat, have: int, size: int)
    requires var want := if size > 16320 then size + 64 else 16384;
      Granted(os, h.calls, size, want, k) && have == Asked(size, want, k) - 64 && h'.calls == h.calls + k + 1
    requires var want := if size > 16320 then size + 64 else 16384;
      var a := h.brk + 8 * os(h.calls + k, Asked(size, want, k)).value;
      Used(h.ring + [a], a, have, size, h'.ring, h'.start) && h'.segs == h.segs + [Seg(a, a + 64 + have)]
    ensures var want := if size > 16320 then size + 64 else 16384;
      Bought(os, h, h', h.brk + 8 * os(h.calls + k, Asked(size, want, k)).value, have, size)
  {
    hide Used, Asked;
  }

  lemma BuysFor(os: Os, h: Heap, n: int)
    requires WF(h) && n > 0 && h.start in h.ring && RoundUp(n) > 0
    requires Search(h, RoundUp(n)).None? && Malloc(os, h, n).1.Ptr?
    ensures RoundUp(n) + JMSZ <= Want(RoundUp(n))
    ensures var (h1, p) := Obtain(os, h, RoundUp(n), Want(RoundUp(n)));
      && p.Some? && |h.blocks| < |h1.blocks| && h1.blocks[|h.blocks|].addr in h1.ring
      && Malloc(os, h, n) == Take(h1, |h.blocks|, RoundUp(n))
      && Malloc(os, h, n).1 == Ptr(h1.blocks[|h.blocks|].Space())
  {
    ObtainsFor(os, h, n);
    hide WF, Obtain, Search, RoundUp, Want;
  }

  // ----- free -----

  // x comes directly behind a.
  ghost predicate Inserted(ring: seq<int>, a: int, x: int, ring': seq<int>) {
    exists k :: 0 <= k < |ring| && ring[k] == a && ring' == ring[..k + 1] + [x] + ring[k + 1..]
  }

  ghost predicate Dropped(ring: seq<int>, a: int, ring': seq<int>) {
    exists k :: 0 <= k < |ring| && ring[k] == a && ring' == ring[..k] + ring[k + 1..]
  }

  lemma AfterInserts(ring: seq<int>, a: int, x: int)
    requires a in ring
    ensures Inserted(ring, a, x, After(ring, a, x))
  {
  }

  lemma WithoutDrops(ring: seq<int>, a: int)
    requires a in ring
    ensures Dropped(ring, a, Without(ring, a))
  {
  }

  // Block c is free and ends where b begins.
  predicate Precedes(bs: seq<Blk>, c: Blk, b: Blk) {
    c in bs && c.free && c.addr + 64 + c.size == b.addr
  }

  lemma PrecedesIs(h: Heap, i: nat, c: Blk)
    requires WF(h) && i < |h.blocks|
    ensures Precedes(h.blocks, c, h.blocks[i]) <==> MergesLeft(h.blocks, i) && c == h.blocks[i - 1]
  {
    if Precedes(h.blocks, c, h.blocks[i]) {
      var k :| 0 <= k < |h.blocks| && h.blocks[k] == c;
      AddressNext(h, k, i);
    }
  }

  // Unless a free block precedes it, the freed one comes directly behind start.
  ghost predicate Entered(h: Heap, b: Blk, ring: seq<int>) {
    if exists c :: Precedes(h.blocks, c, b) then ring == h.ring else Inserted(h.ring, h.start, b.addr, ring)
  }

  /** What free does to the ring: a block that no free one precedes comes directly behind start, a free
      one that follows leaves the ring, and the next search begins at the merged block. */
  lemma FreeOrder(h: Heap, p: int) returns (mid: seq<int>)
    requires WF(h) && Live(h, p) && Free(h, p).1 == Done
    ensures var b := h.blocks[BlockOf(h.blocks, p)]; var h' := Free(h, p).0;
      && Entered(h, b, mid)
      && (forall c :: Adjoins(h.blocks, b, c) ==> Dropped(mid, c.addr, h'.ring))
      && ((forall c :: !Adjoins(h.blocks, b, c)) ==> h'.ring == mid)
      && (forall c :: Precedes(h.blocks, c, b) ==> h'.start == c.addr)
      && ((forall c :: !Precedes(h.blocks, c, b)) ==> h'.start == b.addr)
      && h'.segs == h.segs && h'.calls == h.calls
  {
    hide *;
    FreeCases(h, p);
    var i := BlockOf(h.blocks, p);
    var b := h.blocks[i];
    if MergesLeft(h.blocks, i) { LeftIn(h.blocks, i); }
    forall c
      ensures Adjoins(h.blocks, b, c) <==> i + 1 < |h.blocks| && c == h.blocks[i + 1] && FreeAndNext(h.blocks, i)
      ensures Precedes(h.blocks, c, b) <==> MergesLeft(h.blocks, i) && c == h.blocks[i - 1]
    {
      AdjoinsNext(h, i, c);
      PrecedesIs(h, i, c);
    }
    StartIn(h);
    mid := if MergesLeft(h.blocks, i) then h.ring else After(h.ring, h.start, b.addr);
    AfterInserts(h.ring, h.start, b.addr);
    ReleaseRing(h, i, mid);
    if FreeAndNext(h.blocks, i) {
      NextIn(h.blocks, i);
      assert Adjoins(h.blocks, b, h.blocks[i + 1]);
      WithoutDrops(mid, h.blocks[i + 1].addr);
    }
    if MergesLeft(h.blocks, i) {
      assert Precedes(h.blocks, h.blocks[i - 1], b);
    }
    EnteredIs(h, b, mid);
  }

  lemma EnteredIs(h: Heap, b: Blk, ring: seq<int>)
    requires (exists c :: Precedes(h.blocks, c, b)) ==> ring == h.ring
    requires (forall c :: !Precedes(h.blocks, c, b)) ==> Inserted(h.ring, h.start, b.addr, ring)
    ensures Entered(h, b, ring)
  {
    hide Precedes, Inserted;
  }

  lemma LeftIn(bs: seq<Blk>, i: nat)
    requires i < |bs| && MergesLeft(bs, i)
    ensures i > 0
  {
  }

  lemma ReleaseRing(h: Heap, i: nat, mid: seq<int>)
    requires WF(h) && i < |h.blocks| && !h.blocks[i].free && Stamped(h.mem, h.blocks[i].cs2, h.blocks[i].addr)
    requires h.start in h.ring
    requires mid == if MergesLeft(h.blocks, i) then h.ring else After(h.ring, h.start, h.blocks[i].addr)
    ensures var h' := Release(h, i);
      && (if FreeAndNext(h.blocks, i) then
            i + 1 < |h.blocks| && h.blocks[i + 1].addr in mid && h'.ring == Without(mid, h.blocks[i + 1].addr)
          else h'.ring == mid)
      && (MergesLeft(h.blocks, i) ==> i > 0)
      && h'.start == (if MergesLeft(h.blocks, i) then h.blocks[i - 1].addr else h.blocks[i].addr)
      && h'.segs == h.segs && h'.calls == h.calls
  {
    ReleaseFirst(h, i);
    hide WF, Stamped, After, Without, Join, FreeAndNext;
    if MergesLeft(h.blocks, i) {
      NextAfterLeft(h.blocks, i);
    } else {
      NextAfterNone(h.blocks, i);
    }
  }

  // The block behind the freed one is the same before and after it has been merged to the left.
  lemma NextAfterLeft(bs: seq<Blk>, i: nat)
    requires i < |bs| && MergesLeft(bs, i)
    ensures var cs := Join(bs, i - 1);
      && |cs| == |bs| - 1 && (FreeAndNext(cs, i - 1) <==> FreeAndNext(bs, i))
      && (FreeAndNext(bs, i) ==> i + 1 < |bs| && i < |cs| && cs[i] == bs[i + 1])
      && cs[i - 1].addr == bs[i - 1].addr
  {
  }

  lemma NextAfterNone(bs: seq<Blk>, i: nat)
    requires i < |bs|
    ensures var cs := bs[i := bs[i].(free := true)];
      && (FreeAndNext(cs, i) <==> FreeAndNext(bs, i))
      && (FreeAndNext(bs, i) ==> i + 1 < |bs| && cs[i + 1] == bs[i + 1])
  {
  }

  // ----- realloc -----

  /** What realloc does to the ring when it stays in place: what it cuts off comes directly behind start
      and is where the next search begins, and what it grows into is taken as malloc takes a block. */
  lemma ReallocOrder(os: Os, h: Heap, p: int, n: int)
    requires WF(h) && Live(h, p) && n > 0 && Realloc(os, h, p, n).1 == Ptr(p)
    ensures var b := h.blocks[BlockOf(h.blocks, p)]; var h' := Realloc(os, h, p, n).0; var size := RoundUp(n);
      && (size < b.size && b.size - size < 68 ==> h' == h)
      && (size < b.size && b.size - size >= 68 ==>
            Inserted(h.ring, h.start, b.addr + 64 + size, h'.ring) && h'.start == b.addr + 64 + size)
      && (size >= b.size ==> forall c :: Adjoins(h.blocks, b, c) ==>
            Used(h.ring, c.addr, c.size, if size > b.size + 64 then size - b.size - 64 else 8, h'.ring, h'.start))
      && h'.segs == h.segs && h'.calls == h.calls
  {
    hide *;
    ReallocCases(os, h, p, n);
    ReallocStays(os, h, p, n);
    var i, size := BlockOf(h.blocks, p), RoundUp(n);
    var b := h.blocks[i];
    SpaceIs(b);
    SizesAre();
    if size < b.size {
      if b.size - size >= 68 {
        CutRing(h, i, size, h.start);
        AfterInserts(h.ring, h.start, b.addr + 64 + size);
      }
    } else {
      GrowMeans(h, i, size);
      HasRoomMeans(h.blocks, b, size);
      GrownRing(os, h, i, size);
    }
  }

  lemma SizesAre()
    ensures JMSZ == 64 && PTSZ == 8
  {
  }

  lemma CutRing(h: Heap, i: nat, size: int, anchor: int)
    requires i < |h.blocks| && anchor in h.ring
    ensures var h' := Split(h, i, size, anchor);
      && h'.ring == After(h.ring, anchor, h.blocks[i].addr + 64 + size)
      && h'.segs == h.segs && h'.calls == h.calls && h'.brk == h.brk
  {
    hide After, Stamp;
  }

  lemma GrownRing(os: Os, h: Heap, i: nat, size: int)
    requires WF(h) && i < |h.blocks| && !h.blocks[i].free && CanGrow(h.blocks, i, size)
    requires 0 < size && size % PTSZ == 0 && h.blocks[i].size <= size && !GrowFails(h.blocks, i, size)
    ensures i + 1 < |h.blocks|
    ensures var b := h.blocks[i]; var c := h.blocks[i + 1]; var h' := GrowInPlace(os, h, i, size).0;
      && Used(h.ring, c.addr, c.size, if size > b.size + 64 then size - b.size - 64 else 8, h'.ring, h'.start)
      && h'.segs == h.segs && h'.calls == h.calls
  {
    var b, next := h.blocks[i], h.blocks[i + 1];
    var h0 := h.(start := next.addr);
    var m := Missing(b, size);
    StartAtFree(h, i + 1);
    GrowthNeed(h, i, size);
    Needed(h, i, size);
    MallocAtStart(os, h0, m, i + 1);
    TakeUses(h0, i + 1, RoundUp(m));
    TakePrefix(h0, i + 1, RoundUp(m));
    hide WF, Malloc, Take, GrowFails, CanGrow, Missing, RoundUp, Used;
    var h1 := Take(h0, i + 1, RoundUp(m)).0;
    GrownBlock(h1, i);
    GrowRing(h1, i);
    hide Grow;
  }

  lemma GrowRing(h: Heap, i: nat)
    requires i + 1 < |h.blocks|
    ensures var h' := Grow(h, i); h'.ring == h.ring && h'.start == h.start && h'.segs == h.segs && h'.calls == h.calls
  {
    hide Stamp;
  }
}
