/** The state of the allocator of tools/jgraph/jmalloc.c and the meaning of its
    operations, on values.  A heap is the sequence of its blocks in address
    order, the ring of free blocks in nextfree order, the running counters, and
    the bytes of memory.  The pointer code that works on this state is in module
    Jmalloc; what every operation keeps is in the modules Jmalloc... beside it. */
module JmallocHeap {
  import opened Options

  // sizeof(struct jmalloc) and sizeof(char *) on a 64-bit machine.
  const JMSZ: int := 64
  const PTSZ: int := 8
  const CHUNK_SIZE: int := 16384 - JMSZ

  // The address of j_head, the sentinel of both lists, in static data below the heap.
  const HEAD: int := 4096

  type Byte = b: int | 0 <= b < 256

  /** What sbrk answers to its k-th call for n bytes: None is failure, Some(g) is
      success, g pointers above the break (a gap left by other users of sbrk). */
  type Os = (nat, int) -> Option<nat>

  /** A block: header at addr, space behind it, then the trailer word.  cs2 is
      the address at which the header believes the second checksum to be. */
  datatype Blk = Blk(addr: int, size: int, free: bool, cs2: int) {
    function Space(): int { addr + JMSZ - PTSZ }
    function Trailer(): int { Space() + size }
    function End(): int { addr + JMSZ + size }
  }

  /** A stretch of addresses that one successful call of sbrk delivered. */
  datatype Seg = Seg(lo: int, hi: int)

  /** grown and doubled are history: how many in-place growths there were, and how
      many bytes of neighbours they took. */
  datatype Heap = Heap(
    blocks: seq<Blk>,
    ring: seq<int>,
    start: int,
    usedMem: int,
    freeMem: int,
    usedBlocks: int,
    freeBlocks: int,
    brk: int,
    calls: nat,
    segs: seq<Seg>,
    mem: map<int, Byte>,
    grown: nat,
    doubled: int
  )

  /** How a call ends: with NULL, with a pointer, normally without a result, or by
      dump_core (or the equivalent write through a null pointer). */
  datatype Outcome = Null | Ptr(p: int) | Done | Abort

  // ----- memory -----

  // Memory that was never written reads as zero.
  function Peek(mem: map<int, Byte>, a: int): Byte {
    if a in mem then mem[a] else 0
  }

  // Byte k of cksum(l), the int ((int) &l->cs) - 1 with cs at offset 48, low byte first.
  function StampByte(l: int, k: int): Byte {
    if k == 0 then (l + 47) % 256
    else if k == 1 then (l + 47) / 256 % 256
    else if k == 2 then (l + 47) / 65536 % 256
    else (l + 47) / 16777216 % 256
  }

  function Stamp(mem: map<int, Byte>, at: int, l: int): map<int, Byte> {
    mem[at := StampByte(l, 0)][at + 1 := StampByte(l, 1)][at + 2 := StampByte(l, 2)][at + 3 := StampByte(l, 3)]
  }

  predicate Stamped(mem: map<int, Byte>, at: int, l: int) {
    && Peek(mem, at) == StampByte(l, 0) && Peek(mem, at + 1) == StampByte(l, 1)
    && Peek(mem, at + 2) == StampByte(l, 2) && Peek(mem, at + 3) == StampByte(l, 3)
  }

  // n bytes copied from src to dst, lowest first.
  function Copy(mem: map<int, Byte>, dst: int, src: int, n: nat): (r: map<int, Byte>) {
    if n == 0 then mem
    else var m := Copy(mem, dst, src, n - 1); m[dst + n - 1 := Peek(m, src + n - 1)]
  }

  function Zero(mem: map<int, Byte>, dst: int, n: nat): map<int, Byte> {
    if n == 0 then mem else Zero(mem, dst, n - 1)[dst + n - 1 := 0]
  }

  // ----- lists -----

  // The position of a, or the length when a does not occur.
  function Pos(s: seq<int>, a: int): (k: nat)
    ensures k <= |s|
    ensures k < |s| ==> s[k] == a
    ensures forall j :: 0 <= j < k ==> s[j] != a
    ensures k < |s| <==> a in s
  {
    if s == [] then 0 else if s[0] == a then 0 else
      var k := Pos(s[1..], a);
      assert forall j :: 0 < j < k + 1 ==> s[j] == s[1..][j - 1];
      k + 1
  }

  function After(s: seq<int>, a: int, y: int): seq<int>
    requires a in s
  {
    var k := Pos(s, a); s[..k + 1] + [y] + s[k + 1..]
  }

  function Without(s: seq<int>, a: int): seq<int>
    requires a in s
  {
    var k := Pos(s, a); s[..k] + s[k + 1..]
  }

  function Succ(s: seq<int>, a: int): int
    requires a in s
  {
    var k := Pos(s, a); if k + 1 == |s| then s[0] else s[k + 1]
  }

  // The ring as seen by someone who starts at a.
  function From(s: seq<int>, a: int): seq<int>
    requires a in s
  {
    var k := Pos(s, a); s[k..] + s[..k]
  }

  function Find(bs: seq<Blk>, a: int): (i: nat)
    ensures i <= |bs|
    ensures i < |bs| ==> bs[i].addr == a
    ensures forall j :: 0 <= j < i ==> bs[j].addr != a
  {
    if bs == [] then 0 else if bs[0].addr == a then 0 else
      var i := Find(bs[1..], a);
      assert forall j :: 0 < j < i + 1 ==> bs[j] == bs[1..][j - 1];
      i + 1
  }

  // The block whose space begins at p.
  function BlockOf(bs: seq<Blk>, p: int): nat {
    Find(bs, p - JMSZ + PTSZ)
  }

  function Weight(bs: seq<Blk>, free: bool): int {
    if bs == [] then 0 else (if bs[0].free == free then bs[0].size else 0) + Weight(bs[1..], free)
  }

  function Num(bs: seq<Blk>, free: bool): nat {
    if bs == [] then 0 else (if bs[0].free == free then 1 else 0) + Num(bs[1..], free)
  }

  function SegTotal(ss: seq<Seg>): int {
    if ss == [] then 0 else ss[0].hi - ss[0].lo + SegTotal(ss[1..])
  }

  // ----- the invariant -----

  predicate BlkOk(b: Blk) {
    && b.addr % PTSZ == 0 && b.size % PTSZ == 0 && b.cs2 % PTSZ == 0
    && b.size >= (if b.free then 0 else PTSZ)
    && HEAD + JMSZ < b.addr
    && b.Space() <= b.cs2 <= b.Trailer()
  }

  predicate Sorted(bs: seq<Blk>) {
    forall i, j :: 0 <= i < j < |bs| ==> bs[i].End() <= bs[j].addr
  }

  predicate Shape(bs: seq<Blk>, brk: int) {
    && Sorted(bs)
    && (forall i :: 0 <= i < |bs| ==> BlkOk(bs[i]) && bs[i].End() <= brk)
    && brk % PTSZ == 0 && HEAD + JMSZ < brk
  }

  ghost predicate FreeAt(bs: seq<Blk>, a: int) {
    exists i :: 0 <= i < |bs| && bs[i].addr == a && bs[i].free
  }

  predicate NoDup(s: seq<int>) {
    forall i, j :: 0 <= i < j < |s| ==> s[i] != s[j]
  }

  ghost predicate RingOk(bs: seq<Blk>, ring: seq<int>) {
    && |ring| > 0 && ring[0] == HEAD && NoDup(ring)
    && forall a :: a in ring <==> a == HEAD || FreeAt(bs, a)
  }

  // A checksum is intact where the program cannot reach it: in free blocks, and
  // in used blocks whose trailer is at their end.
  predicate Stamps(bs: seq<Blk>, mem: map<int, Byte>) {
    forall i :: 0 <= i < |bs| && (bs[i].free || bs[i].cs2 == bs[i].Trailer()) ==> Stamped(mem, bs[i].cs2, bs[i].addr)
  }

  ghost predicate InBlocks(bs: seq<Blk>, a: int) {
    exists i :: 0 <= i < |bs| && bs[i].addr <= a < bs[i].End()
  }

  ghost predicate InSegs(ss: seq<Seg>, a: int) {
    exists i :: 0 <= i < |ss| && ss[i].lo <= a < ss[i].hi
  }

  // The blocks fill exactly the memory obtained from sbrk.
  ghost predicate Tiled(bs: seq<Blk>, ss: seq<Seg>) {
    && (forall a :: InBlocks(bs, a) <==> InSegs(ss, a))
    && SegTotal(ss) == Weight(bs, false) + Weight(bs, true) + JMSZ * |bs|
  }

  // The counters, off by what in-place growth counted twice.
  predicate Counted(h: Heap) {
    && h.usedMem == Weight(h.blocks, false) + h.doubled
    && h.freeMem == Weight(h.blocks, true) - h.doubled
    && h.usedBlocks == Num(h.blocks, false) + h.grown
    && h.freeBlocks == Num(h.blocks, true) - h.grown
    && PTSZ * h.grown <= h.doubled && (h.grown == 0 ==> h.doubled == 0)
  }

  ghost predicate WF(h: Heap) {
    && Shape(h.blocks, h.brk)
    && RingOk(h.blocks, h.ring)
    && h.start in h.ring
    && Stamps(h.blocks, h.mem)
    && Tiled(h.blocks, h.segs)
    && Counted(h)
  }

  // Only headers are taken on trust here: cs2 may be anywhere inside its block.
  ghost predicate Live(h: Heap, p: int) {
    var i := BlockOf(h.blocks, p);
    i < |h.blocks| && !h.blocks[i].free
  }

  const INITIAL: Heap := Heap([], [HEAD], HEAD, 0, 0, 0, 0, 2 * HEAD, 0, [], map[], 0, 0)

  // ----- the parts of the operations -----

  function RoundUp(n: int): int
    requires n > 0
  {
    if n % PTSZ != 0 then n + PTSZ - n % PTSZ else n
  }

  function SizeAt(bs: seq<Blk>, a: int): int {
    var i := Find(bs, a);
    if i < |bs| then bs[i].size else 0
  }

  // The first element of order that is large enough.
  function FirstFit(bs: seq<Blk>, order: seq<int>, size: int): (r: Option<int>)
    ensures r.Some? ==> r.value in order && SizeAt(bs, r.value) >= size
  {
    if order == [] then None
    else if SizeAt(bs, order[0]) >= size then Some(order[0])
    else FirstFit(bs, order[1..], size)
  }

  // A new free block made of n bytes from sbrk, last in both lists.
  function AddSeg(h: Heap, p: int, n: int): Heap {
    var b := Blk(p, n - JMSZ, true, p - PTSZ + n);
    h.(blocks := h.blocks + [b], ring := h.ring + [p],
       freeMem := h.freeMem + b.size, freeBlocks := h.freeBlocks + 1,
       brk := p + n, segs := h.segs + [Seg(p, p + n)], mem := Stamp(h.mem, b.cs2, p))
  }

  // The next smaller request that can still hold size bytes and a header.
  function Halve(size: int, want: int): (r: int)
    requires 0 < size && size + JMSZ < want
    ensures size + JMSZ <= r < want
  {
    if want / 2 < size + JMSZ then size + JMSZ else want / 2
  }

  // Asks sbrk for want bytes, then for half as much and so on, but not below size + JMSZ.
  function Obtain(os: Os, h: Heap, size: int, want: int): (r: (Heap, Option<int>))
    requires 0 < size && size + JMSZ <= want
    ensures |h.blocks| <= |r.0.blocks|
    decreases want
  {
    var h1 := h.(calls := h.calls + 1);
    match os(h.calls, want)
    case Some(gap) => var p := h.brk + PTSZ * gap; (AddSeg(h1, p, want), Some(p))
    case None =>
      if want > size + JMSZ then
        Obtain(os, h1, size, Halve(size, want))
      else (h1, None)
  }

  // Splits block i: it keeps size bytes, the rest is a free block behind anchor in the ring.
  function Split(h: Heap, i: nat, size: int, anchor: int): Heap
    requires i < |h.blocks| && anchor in h.ring
  {
    var b := h.blocks[i];
    var rest := Blk(b.Space() + size + PTSZ, b.size - size - JMSZ, true, b.Trailer());
    var kept := b.(size := size, cs2 := b.Space() + size);
    h.(blocks := h.blocks[..i] + [kept, rest] + h.blocks[i + 1..],
       ring := After(h.ring, anchor, rest.addr),
       usedMem := if b.free then h.usedMem else h.usedMem + size - b.size,
       freeMem := if b.free then h.freeMem + size + rest.size - b.size else h.freeMem + rest.size,
       freeBlocks := h.freeBlocks + 1,
       mem := Stamp(Stamp(h.mem, rest.cs2, rest.addr), kept.cs2, kept.addr))
  }

  // set_used: block i leaves the ring, and the next search starts behind it.
  function SetUsed(h: Heap, i: nat): Heap
    requires i < |h.blocks| && h.blocks[i].addr in h.ring
  {
    var b := h.blocks[i];
    h.(blocks := h.blocks[i := b.(free := false)],
       ring := Without(h.ring, b.addr), start := Succ(h.ring, b.addr),
       usedMem := h.usedMem + b.size, freeMem := h.freeMem - b.size,
       usedBlocks := h.usedBlocks + 1, freeBlocks := h.freeBlocks - 1)
  }

  // The end of malloc: cut free block i down to size if the rest can hold a header, and use it.
  function Take(h: Heap, i: nat, size: int): (r: (Heap, Outcome))
    requires i < |h.blocks| && h.blocks[i].addr in h.ring
    ensures |h.blocks| <= |r.0.blocks|
  {
    var b := h.blocks[i];
    var h1 := if b.size - size < JMSZ then h else Split(h, i, size, b.addr);
    (SetUsed(h1, i), Ptr(b.Space()))
  }

  // Block i takes in block i + 1, header and all.
  function Join(bs: seq<Blk>, i: nat): seq<Blk>
    requires i + 1 < |bs|
  {
    bs[..i] + [bs[i].(size := bs[i].size + bs[i + 1].size + JMSZ)] + bs[i + 2..]
  }

  // A freed block that joins the ring, behind start.
  ghost function FreeInto(h: Heap, i: nat): Heap
    requires i < |h.blocks| && h.start in h.ring
  {
    var b := h.blocks[i];
    h.(blocks := h.blocks[i := b.(free := true)], ring := After(h.ring, h.start, b.addr),
       usedMem := h.usedMem - b.size, freeMem := h.freeMem + b.size,
       usedBlocks := h.usedBlocks - 1, freeBlocks := h.freeBlocks + 1)
  }

  // A freed block that its left neighbour takes in.
  ghost function FreeLeft(h: Heap, i: nat): Heap
    requires 0 < i < |h.blocks|
  {
    var b := h.blocks[i];
    h.(blocks := Join(h.blocks, i - 1),
       usedMem := h.usedMem - b.size, freeMem := h.freeMem + b.size + JMSZ,
       usedBlocks := h.usedBlocks - 1)
  }

  // Free block k takes in the free block behind it, which leaves the ring.
  ghost function MergeNext(h: Heap, k: nat): Heap
    requires k + 1 < |h.blocks| && h.blocks[k + 1].addr in h.ring
  {
    h.(blocks := Join(h.blocks, k), ring := Without(h.ring, h.blocks[k + 1].addr), start := h.blocks[k].addr,
       freeMem := h.freeMem + JMSZ, freeBlocks := h.freeBlocks - 1)
  }

  // Used block i takes in the used block behind it; the neighbour is counted a second time.
  ghost function Grow(h: Heap, i: nat): Heap
    requires i + 1 < |h.blocks|
  {
    var n := h.blocks[i + 1].size;
    var bs := Join(h.blocks, i);
    var b := bs[i].(cs2 := bs[i].Trailer());
    h.(blocks := bs[i := b],
       freeMem := h.freeMem - n, usedMem := h.usedMem + n + JMSZ, freeBlocks := h.freeBlocks - 1,
       mem := Stamp(h.mem, b.cs2, b.addr), grown := h.grown + 1, doubled := h.doubled + n)
  }

  predicate FreeAndNext(bs: seq<Blk>, i: int) {
    0 <= i && i + 1 < |bs| && bs[i + 1].free && bs[i].End() == bs[i + 1].addr
  }

  // Whether block i is free and the block behind it is free and contiguous.
  predicate Uncoalesced(bs: seq<Blk>, i: int) {
    FreeAndNext(bs, i) && bs[i].free
  }

  predicate Coalesced(bs: seq<Blk>) {
    forall i :: 0 <= i < |bs| ==> !Uncoalesced(bs, i)
  }
}
