/** What the calls of tools/jgraph/jmalloc.c do, in addresses and sizes written out: how much is asked of
    sbrk, how large a block malloc hands out, when realloc stays in place, and how large the block
    is then.  A header is 64 bytes, sizes are multiples of 8, and a chunk is 16384 bytes. */
module JmallocNumbers {
  import opened Options
  import opened JmallocHeap
  import opened JmallocParts
  import opened JmallocOps
  import opened JmallocRealloc
  import opened JmallocSearch

  // The least multiple of 8 that is not below n.
  lemma RoundUpMeans(n: int, m: int)
    requires n > 0
    ensures RoundUp(n) == m <==> n <= m < n + 8 && m % 8 == 0
  {
  }

  // The four bytes at a, the lowest first.
  function Word(mem: map<int, Byte>, a: int): nat {
    Peek(mem, a) + 256 * Peek(mem, a + 1) + 65536 * Peek(mem, a + 2) + 16777216 * Peek(mem, a + 3)
  }

  lemma Rest(a: int, d: nat, q: int, r: nat)
    requires d > 0 && a == d * q + r && r < d
    ensures a % d == r
  {
    DivIs(a, d, q, r);
  }

  // The lowest byte of four, of three and of two, and what is above it.
  lemma Byte4(v: nat, a: Byte, r: nat)
    requires r < 16777216
    ensures v % 4294967296 == a + 256 * r <==> a == v % 256 && r == v / 256 % 16777216
  {
    var q, z := v / 256, v % 256;
    var w, y := q / 16777216, q % 16777216;
    assert v == 256 * q + z && q == 16777216 * w + y;
    assert v == 4294967296 * w + (256 * y + z) && 0 <= 256 * y + z < 4294967296;
    Rest(v, 4294967296, w, 256 * y + z);
  }

  lemma Byte3(v: nat, a: Byte, r: nat)
    requires r < 65536
    ensures v % 16777216 == a + 256 * r <==> a == v % 256 && r == v / 256 % 65536
  {
    var q, z := v / 256, v % 256;
    var w, y := q / 65536, q % 65536;
    assert v == 256 * q + z && q == 65536 * w + y;
    assert v == 16777216 * w + (256 * y + z) && 0 <= 256 * y + z < 16777216;
    Rest(v, 16777216, w, 256 * y + z);
  }

  lemma Byte2(v: nat, a: Byte, r: nat)
    requires r < 256
    ensures v % 65536 == a + 256 * r <==> a == v % 256 && r == v / 256 % 256
  {
    var q, z := v / 256, v % 256;
    var w, y := q / 256, q % 256;
    assert v == 256 * q + z && q == 256 * w + y;
    assert v == 65536 * w + (256 * y + z) && 0 <= 256 * y + z < 65536;
    Rest(v, 65536, w, 256 * y + z);
  }

  lemma Above(v: nat)
    ensures v / 256 / 256 == v / 65536 && v / 65536 / 256 == v / 16777216
  {
  }

  lemma FourBytes(v: nat, a: Byte, b: Byte, c: Byte, d: Byte)
    ensures v % 4294967296 == a + 256 * b + 65536 * c + 16777216 * d <==>
      a == v % 256 && b == v / 256 % 256 && c == v / 65536 % 256 && d == v / 16777216 % 256
  {
    var above: nat := c + 256 * d;
    Byte4(v, a, b + 256 * above);
    Byte3(v / 256, b, above);
    Byte2(v / 256 / 256, c, d);
    Above(v);
  }

  /** A header's checksum is the address of its word at offset 48, less 1, cut to 32 bits. */
  lemma StampMeans(mem: map<int, Byte>, at: int, l: nat)
    ensures Stamped(mem, at, l) <==> Word(mem, at) == (l + 48 - 1) % 4294967296
    ensures Word(Stamp(mem, at, l), at) == (l + 48 - 1) % 4294967296
  {
    FourBytes(l + 47, Peek(mem, at), Peek(mem, at + 1), Peek(mem, at + 2), Peek(mem, at + 3));
    FourBytes(l + 47, StampByte(l, 0), StampByte(l, 1), StampByte(l, 2), StampByte(l, 3));
  }

  // ----- sbrk -----

  function TwoTo(k: nat): (p: nat)
    ensures p > 0
  {
    if k == 0 then 1 else 2 * TwoTo(k - 1)
  }

  // The k-th request: the first one, halved k times, but not below size and a header.
  function Asked(size: int, want: int, k: nat): int {
    if want / TwoTo(k) < size + 64 then size + 64 else want / TwoTo(k)
  }

  lemma HalfOf(a: int, t: nat)
    requires t > 0
    ensures a / (2 * t) == a / 2 / t
  {
    var q, r := a / 2 / t, a / 2 % t;
    var z := a % 2;
    assert a / 2 == t * q + r && a == 2 * (a / 2) + z;
    assert a == 2 * t * q + (2 * r + z);
    DivIs(a, 2 * t, q, 2 * r + z);
  }

  lemma DivIs(a: int, d: nat, q: int, r: nat)
    requires d > 0 && a == d * q + r && r < d
    ensures a / d == q
  {
    assert d * (a / d - q) == r - a % d;
    Multiple(d, a / d - q);
  }

  lemma Multiple(d: nat, e: int)
    requires d > 0
    ensures e > 0 ==> d * e >= d && d * e >= e
    ensures e < 0 ==> d * e + d <= 0
  {
    assert d * e == d * (e - 1) + d == d * (e + 1) - d;
    assert d * e == (d - 1) * e + e;
  }

  // sbrk refuses the first request, and each one that follows on a request that could be smaller.
  ghost predicate AllRefused(os: Os, calls: nat, size: int, want: int) {
    && os(calls, want).None?
    && forall k: nat :: Asked(size, want, k) > size + 64 ==> os(calls + k + 1, Asked(size, want, k + 1)).None?
  }

  lemma AskedNext(size: int, want: int, k: nat)
    requires 0 < size && size + 64 < want
    ensures Asked(size, want, k + 1) == Asked(size, Halve(size, want), k)
    ensures Asked(size, want, 0) == want
  {
    HalfOf(want, TwoTo(k));
    assert want / TwoTo(k + 1) == want / 2 / TwoTo(k);
    if want / 2 < size + 64 {
      Shrinks(want / 2, TwoTo(k));
      Shrinks(size + 64, TwoTo(k));
    }
  }

  lemma Shrinks(a: int, t: nat)
    requires a >= 0 && t > 0
    ensures 0 <= a / t <= a
  {
    assert a == t * (a / t) + a % t;
    Multiple(t, a / t);
  }

  lemma {:induction false} RefusedMeans(os: Os, calls: nat, size: int, want: int)
    requires 0 < size && size + 64 <= want
    ensures Refused(os, calls, size, want) <==> AllRefused(os, calls, size, want)
    decreases want
  {
    hide Asked, Halve;
    if os(calls, want).None? && want > size + 64 {
      RefusedMeans(os, calls + 1, size, Halve(size, want));
      RefusedNext(os, calls, size, want);
    } else if want == size + 64 {
      forall k: nat
        ensures Asked(size, want, k) == size + 64
      {
        Least(size, k);
      }
    }
  }

  lemma FirstAsked(size: int, want: int)
    requires size + 64 <= want
    ensures Asked(size, want, 0) == want
  {
    assert TwoTo(0) == 1;
  }

  lemma Least(size: int, k: nat)
    requires size > 0
    ensures Asked(size, size + 64, k) == size + 64
  {
    Shrinks(size + 64, TwoTo(k));
  }

  lemma RefusedNext(os: Os, calls: nat, size: int, want: int)
    requires 0 < size && size + 64 < want && os(calls, want).None?
    ensures AllRefused(os, calls, size, want) <==> AllRefused(os, calls + 1, size, Halve(size, want))
  {
    var next := Halve(size, want);
    FirstAsked(size, want);
    FirstAsked(size, next);
    hide Asked, Halve;
    forall k: nat
      ensures Asked(size, want, k + 1) == Asked(size, next, k)
    {
      AskedNext(size, want, k);
    }
    if AllRefused(os, calls, size, want) {
      assert Asked(size, want, 0) > size + 64 && Asked(size, want, 0 + 1) == next;
      forall k: nat | Asked(size, next, k) > size + 64
        ensures os(calls + 1 + k + 1, Asked(size, next, k + 1)).None?
      {
        assert Asked(size, want, k + 1) > size + 64 && Asked(size, want, k + 1 + 1) == Asked(size, next, k + 1);
      }
    }
    if AllRefused(os, calls + 1, size, next) {
      forall k: nat | Asked(size, want, k) > size + 64
        ensures os(calls + k + 1, Asked(size, want, k + 1)).None?
      {
        if k == 0 {
          assert Asked(size, want, 0 + 1) == next;
        } else {
          var j: nat := k - 1;
          assert Asked(size, want, j + 1) == Asked(size, next, j) > size + 64;
          assert Asked(size, want, j + 1 + 1) == Asked(size, next, j + 1);
        }
      }
    }
  }

  // No free block has room for size bytes, and sbrk refuses a chunk, or size and a header if that is
  // more, and all that is left of it when it is halved again and again.
  ghost predicate Exhausted(os: Os, h: Heap, size: int) {
    && (forall b :: b in h.blocks && b.free ==> b.size < size)
    && AllRefused(os, h.calls, size, if size > 16320 then size + 64 else 16384)
  }

  /** malloc answers NULL exactly when no free block has room for the rounded size and sbrk refuses a
      chunk, or the size and a header if that is more, and all that is left of it when it is halved
      again and again. */
  lemma NullMeans(os: Os, h: Heap, n: int)
    requires WF(h) && n > 0
    ensures Malloc(os, h, n).1 == Null <==> Exhausted(os, h, RoundUp(n))
    ensures NoMemory(os, h, n) <==> Exhausted(os, h, RoundUp(n))
  {
    hide *;
    RoundsUp(n);
    WantMeans(RoundUp(n));
    MallocNull(os, h, n);
    NoMemoryIs(os, h, n);
    RefusedMeans(os, h.calls, RoundUp(n), Want(RoundUp(n)));
    RoomMeans(h.blocks, RoundUp(n));
    ExhaustedIs(os, h, RoundUp(n));
  }

  lemma ExhaustedIs(os: Os, h: Heap, size: int)
    ensures Exhausted(os, h, size) <==>
      && (forall b :: b in h.blocks && b.free ==> b.size < size)
      && AllRefused(os, h.calls, size, if size > 16320 then size + 64 else 16384)
  {
  }

  lemma WantMeans(size: int)
    ensures JMSZ == 64 && PTSZ == 8 && Want(size) == (if size > 16320 then size + 64 else 16384) >= size + 64
  {
  }

  lemma NoMemoryIs(os: Os, h: Heap, n: int)
    requires n > 0
    ensures RoundUp(n) > 0 && RoundUp(n) + JMSZ <= Want(RoundUp(n))
    ensures NoMemory(os, h, n) <==> !Room(h.blocks, RoundUp(n)) && Refused(os, h.calls, RoundUp(n), Want(RoundUp(n)))
  {
    RoundsUp(n);
    hide Room, Refused, RoundUp;
  }

  lemma RoomMeans(bs: seq<Blk>, size: int)
    ensures Room(bs, size) <==> exists b :: b in bs && b.free && b.size >= size
  {
    if Room(bs, size) {
      var i :| 0 <= i < |bs| && bs[i].free && bs[i].size >= size;
      assert bs[i] in bs;
    }
  }

  // ----- malloc -----

  // What taking a free block leaves in its place.
  function Handed(have: int, size: int): int {
    if have - size < 64 then have else size
  }

  lemma TakenSize(h: Heap, k: nat, size: int)
    requires k < |h.blocks| && h.blocks[k].addr in h.ring
    ensures var bs := Take(h, k, size).0.blocks;
      k < |bs| && bs[k].size == Handed(h.blocks[k].size, size) && bs[k].addr == h.blocks[k].addr && !bs[k].free
  {
    hide After, Without, Succ, Stamp;
  }

  lemma SpaceIs(b: Blk)
    ensures b.Space() == b.addr + 56
  {
  }

  lemma LiveIn(h: Heap, k: nat)
    requires WF(h) && k < |h.blocks| && !h.blocks[k].free
    ensures Live(h, h.blocks[k].Space()) && BlockOf(h.blocks, h.blocks[k].Space()) == k
  {
    LiveAt(h, k);
  }

  lemma MallocCases(os: Os, h: Heap, n: int)
    requires WF(h) && n > 0
    ensures h.start in h.ring && RoundUp(n) > 0
    ensures Search(h, RoundUp(n)).Some? ==>
      var k := Find(h.blocks, Search(h, RoundUp(n)).value);
      && k < |h.blocks| && h.blocks[k].free && h.blocks[k].size >= RoundUp(n) && h.blocks[k].addr in h.ring
      && Malloc(os, h, n) == Take(h, k, RoundUp(n)) && Malloc(os, h, n).1 == Ptr(h.blocks[k].Space())
  {
    RoundsUp(n);
    StartIn(h);
    SearchFindsFree(h, RoundUp(n));
    SearchInRing(h, RoundUp(n));
    hide WF, Search, RoundUp;
  }

  // ----- realloc -----

  // Block c is free and begins where b ends.
  predicate Adjoins(bs: seq<Blk>, b: Blk, c: Blk) {
    c in bs && c.free && c.addr == b.addr + 64 + b.size
  }

  // Together they have room for size bytes.
  predicate HasRoom(bs: seq<Blk>, b: Blk, c: Blk, size: int) {
    Adjoins(bs, b, c) && b.size + 64 + c.size >= size
  }

  // Nothing is missing but the header, so that malloc is asked for 0 bytes; or less than that, so
  // that it is asked for 4, and c has no space at all.
  predicate Tight(b: Blk, c: Blk, size: int) {
    size == b.size + 64 || (size < b.size + 64 && c.size == 0)
  }

  // Only the next block can adjoin.
  lemma AdjoinsNext(h: Heap, i: nat, c: Blk)
    requires WF(h) && i < |h.blocks|
    ensures Adjoins(h.blocks, h.blocks[i], c) <==>
      i + 1 < |h.blocks| && c == h.blocks[i + 1] && FreeAndNext(h.blocks, i)
  {
    if Adjoins(h.blocks, h.blocks[i], c) {
      var k :| 0 <= k < |h.blocks| && h.blocks[k] == c;
      AddressNext(h, i, k);
    }
  }

  lemma AddressNext(h: Heap, i: nat, k: nat)
    requires WF(h) && i < |h.blocks| && k < |h.blocks|
    requires h.blocks[k].addr == h.blocks[i].addr + 64 + h.blocks[i].size
    ensures k == i + 1
  {
    ShapeAt(h.blocks, h.brk, i);
    ShapeAt(h.blocks, h.brk, k);
    HeldApart(h, i, k);
    if i + 1 < |h.blocks| {
      ShapeAt(h.blocks, h.brk, i + 1);
      HeldApart(h, i, i + 1);
      HeldApart(h, i + 1, k);
    }
    hide WF;
  }

  lemma HeldApart(h: Heap, i: nat, k: nat)
    requires WF(h) && i < |h.blocks| && k < |h.blocks|
    ensures i < k ==> h.blocks[i].addr + 64 + h.blocks[i].size <= h.blocks[k].addr
    ensures k < i ==> h.blocks[k].addr + 64 + h.blocks[k].size <= h.blocks[i].addr
  {
    hide RingOk, Stamps, Tiled, Counted, BlkOk;
  }

  lemma GrowMeans(h: Heap, i: nat, size: int)
    requires WF(h) && i < |h.blocks|
    ensures CanGrow(h.blocks, i, size) <==> exists c :: HasRoom(h.blocks, h.blocks[i], c, size)
    ensures CanGrow(h.blocks, i, size) ==> i + 1 < |h.blocks| && HasRoom(h.blocks, h.blocks[i], h.blocks[i + 1], size)
    ensures CanGrow(h.blocks, i, size) ==> (GrowFails(h.blocks, i, size) <==> Tight(h.blocks[i], h.blocks[i + 1], size))
    ensures forall c :: Adjoins(h.blocks, h.blocks[i], c) ==> i + 1 < |h.blocks| && c == h.blocks[i + 1]
  {
    forall c
      ensures Adjoins(h.blocks, h.blocks[i], c) <==>
        i + 1 < |h.blocks| && c == h.blocks[i + 1] && FreeAndNext(h.blocks, i)
    {
      AdjoinsNext(h, i, c);
    }
    hide WF, FreeAndNext, Adjoins;
    if CanGrow(h.blocks, i, size) {
      NextIn(h.blocks, i);
      assert Adjoins(h.blocks, h.blocks[i], h.blocks[i + 1]);
      assert HasRoom(h.blocks, h.blocks[i], h.blocks[i + 1], size);
    }
    if c :| HasRoom(h.blocks, h.blocks[i], c, size) {
      assert Adjoins(h.blocks, h.blocks[i], c);
    }
  }

  lemma NextIn(bs: seq<Blk>, i: nat)
    requires FreeAndNext(bs, i)
    ensures i + 1 < |bs|
  {
  }

  /** realloc returns its own pointer exactly when the checksum is intact and the rounded size is below
      the block's, or a free block begins at the block's end, the two have room with the header
      between them, and growth is not too tight. */
  lemma ReallocStays(os: Os, h: Heap, p: int, n: int)
    requires WF(h) && Live(h, p) && n > 0
    ensures var b := h.blocks[BlockOf(h.blocks, p)]; var size := RoundUp(n);
      Realloc(os, h, p, n).1 == Ptr(p) <==>
        && Stamped(h.mem, b.cs2, b.addr)
        && (size < b.size || exists c :: HasRoom(h.blocks, b, c, size) && !Tight(b, c, size))
  {
    hide *;
    ReallocCases(os, h, p, n);
    var i, size := BlockOf(h.blocks, p), RoundUp(n);
    var b := h.blocks[i];
    GrowMeans(h, i, size);
    HasRoomMeans(h.blocks, b, size);
    if Stamped(h.mem, b.cs2, b.addr) && b.size <= size {
      if CanGrow(h.blocks, i, size) {
        GrowReallocates(os, h, i, size);
      } else {
        MoveElsewhere(os, h, i, size);
      }
    }
  }

  lemma HasRoomMeans(bs: seq<Blk>, b: Blk, size: int)
    ensures forall c :: HasRoom(bs, b, c, size) ==> Adjoins(bs, b, c)
  {
  }

  lemma MoveElsewhere(os: Os, h: Heap, i: nat, size: int)
    requires WF(h) && i < |h.blocks| && !h.blocks[i].free && h.blocks[i].size <= size && 0 < size && size % PTSZ == 0
    requires Stamped(h.mem, h.blocks[i].cs2, h.blocks[i].addr)
    ensures Move(os, h, i, size).1 != Ptr(h.blocks[i].Space())
  {
    hide *;
    MoveCases(os, h, i, size);
    MallocDelivers(os, h, size);
    var (h1, q) := Malloc(os, h, size);
    if q.Ptr? {
      DeliversBlock(h, h1, q.p, RoundUp(size));
      assert h.blocks[i] in h.blocks;
    }
  }

  /** How large the block is when realloc has stayed in place: it is cut down if 68 bytes or more would be
      left, and it grows by a header and what malloc hands out of the neighbour. */
  lemma ReallocSizes(os: Os, h: Heap, p: int, n: int)
    requires WF(h) && Live(h, p) && n > 0 && Realloc(os, h, p, n).1 == Ptr(p)
    ensures var h' := Realloc(os, h, p, n).0;
      Live(h', p) && Resized(h.blocks, h.blocks[BlockOf(h.blocks, p)], RoundUp(n), h'.blocks[BlockOf(h'.blocks, p)].size)
  {
    hide *;
    ReallocCases(os, h, p, n);
    ReallocReallocates(os, h, p, n);
    ReallocKeepsShape(os, h, p, n);
    ReallocStays(os, h, p, n);
    var i, size := BlockOf(h.blocks, p), RoundUp(n);
    if size < h.blocks[i].size {
      CutResized(os, h, i, p, n);
    } else {
      GrowMeans(h, i, size);
      HasRoomMeans(h.blocks, h.blocks[i], size);
      GrownSize(os, h, i, size);
      PlaceIn(Realloc(os, h, p, n).0, i, p);
      GrownResized(h.blocks, i, size);
    }
  }

  ghost predicate Resized(bs: seq<Blk>, b: Blk, size: int, now: int) {
    && (size < b.size ==> now == if b.size - size < 68 then b.size else size)
    && (size >= b.size ==> forall c :: Adjoins(bs, b, c) ==>
          now == b.size + 64 + Handed(c.size, if size > b.size + 64 then size - b.size - 64 else 8))
  }

  lemma GrownResized(bs: seq<Blk>, i: nat, size: int)
    requires i + 1 < |bs| && size >= bs[i].size
    requires forall c :: Adjoins(bs, bs[i], c) ==> c == bs[i + 1]
    ensures var b := bs[i];
      Resized(bs, b, size, b.size + 64 + Handed(bs[i + 1].size, if size > b.size + 64 then size - b.size - 64 else 8))
  {
    hide Adjoins, Handed;
  }

  lemma ReallocKeepsShape(os: Os, h: Heap, p: int, n: int)
    requires WF(h) && Live(h, p)
    ensures WF(Realloc(os, h, p, n).0)
  {
    ReallocReallocates(os, h, p, n);
    hide WF, Realloc, Live, Moved, Spares;
  }

  lemma CutResized(os: Os, h: Heap, i: nat, p: int, n: int)
    requires WF(h) && Live(h, p) && n > 0 && Realloc(os, h, p, n).1 == Ptr(p)
    requires i == BlockOf(h.blocks, p) && i < |h.blocks| && RoundUp(n) < h.blocks[i].size && WF(Realloc(os, h, p, n).0)
    ensures var h' := Realloc(os, h, p, n).0;
      Live(h', p) && Resized(h.blocks, h.blocks[i], RoundUp(n), h'.blocks[BlockOf(h'.blocks, p)].size)
  {
    ReallocCases(os, h, p, n);
    CutSize(h, i, RoundUp(n));
    hide WF, Realloc, Live, Split, Stamped, RoundUp, BlockOf, Adjoins, Handed;
    PlaceIn(Realloc(os, h, p, n).0, i, p);
  }

  lemma PlaceIn(h: Heap, i: nat, p: int)
    requires WF(h) && i < |h.blocks| && !h.blocks[i].free && h.blocks[i].Space() == p
    ensures Live(h, p) && BlockOf(h.blocks, p) == i
  {
    LiveAt(h, i);
  }

  lemma CutSize(h: Heap, i: nat, size: int)
    requires i < |h.blocks|
    ensures JMSZ == 64
    ensures h.start in h.ring ==>
      var bs := Split(h, i, size, h.start).blocks;
      i < |bs| && bs[i].size == size && bs[i].free == h.blocks[i].free && bs[i].Space() == h.blocks[i].Space()
  {
    hide After, Stamp;
  }

  lemma GrownSize(os: Os, h: Heap, i: nat, size: int)
    requires WF(h) && i < |h.blocks| && !h.blocks[i].free && CanGrow(h.blocks, i, size)
    requires 0 < size && size % PTSZ == 0 && h.blocks[i].size <= size && !GrowFails(h.blocks, i, size)
    ensures i + 1 < |h.blocks|
    ensures var b := h.blocks[i]; var bs := GrowInPlace(os, h, i, size).0.blocks;
      && i < |bs| && !bs[i].free && bs[i].Space() == b.Space()
      && bs[i].size == b.size + 64 + Handed(h.blocks[i + 1].size, if size > b.size + 64 then size - b.size - 64 else 8)
  {
    var b, next := h.blocks[i], h.blocks[i + 1];
    var h0 := h.(start := next.addr);
    var m := Missing(b, size);
    StartAtFree(h, i + 1);
    GrowthNeed(h, i, size);
    Needed(h, i, size);
    MallocAtStart(os, h0, m, i + 1);
    TakenSize(h0, i + 1, RoundUp(m));
    TakePrefix(h0, i + 1, RoundUp(m));
    hide WF, Malloc, Take, GrowFails, CanGrow, Missing, RoundUp, Handed;
    var h1 := Take(h0, i + 1, RoundUp(m)).0;
    GrownBlock(h1, i);
    hide Grow;
  }

  lemma Needed(h: Heap, i: nat, size: int)
    requires WF(h) && i < |h.blocks| && size % PTSZ == 0 && h.blocks[i].size <= size && size != h.blocks[i].size + 64
    ensures var m := Missing(h.blocks[i], size);
      m > 0 && RoundUp(m) == if size > h.blocks[i].size + 64 then size - h.blocks[i].size - 64 else 8
  {
    ShapeAt(h.blocks, h.brk, i);
    hide WF;
    var have := h.blocks[i].size;
    assert have % 8 == 0 && size % 8 == 0;
    if size > have + 64 { assert (size - have - 64) % 8 == 0; }
  }
}
