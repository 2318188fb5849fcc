/** The allocator of tools/jgraph/jmalloc.c.  Headers live in memory that malloc cuts up
    itself, so a header is an address, and every field of struct jmalloc is a map from
    addresses.  Each method is the C function statement by statement, and its contract
    says that it does to the abstract heap h what the function of the same name does. */
module Jmalloc {
  import opened Options
  import opened JmallocHeap
  import opened JmallocLinks
  import opened JmallocParts
  import opened JmallocOps
  import opened JmallocRealloc
  import opened JmallocRuns

  function Addrs(bs: seq<Blk>): (s: seq<int>)
    ensures |s| == |bs| && forall i :: 0 <= i < |s| ==> s[i] == bs[i].addr
  {
    seq(|bs|, i requires 0 <= i < |bs| => bs[i].addr)
  }

  // The fields size and cs2 of all headers.
  predicate Data(size: map<int, int>, cs2: map<int, int>, bs: seq<Blk>) {
    && HEAD in size && size[HEAD] == 0
    && forall i :: 0 <= i < |bs| ==>
         bs[i].addr in size && size[bs[i].addr] == bs[i].size && bs[i].addr in cs2 && cs2[bs[i].addr] == bs[i].cs2
  }

  // isfree(l) is nextfree != NULL.
  predicate Flags(nextfree: map<int, int>, bs: seq<Blk>) {
    forall i :: 0 <= i < |bs| ==> bs[i].addr in nextfree && (bs[i].free <==> nextfree[bs[i].addr] != 0)
  }

  ghost predicate BlockList(flink: map<int, int>, blink: map<int, int>, bs: seq<Blk>) {
    Circular(flink, blink, [HEAD] + Addrs(bs))
  }

  lemma HeadsDiffer(bs: seq<Blk>, brk: int)
    requires Shape(bs, brk)
    ensures NoDup([HEAD] + Addrs(bs)) && forall i :: 0 <= i < |bs| ==> bs[i].addr > HEAD + JMSZ
  {
    forall i | 0 <= i < |bs|
      ensures bs[i].addr > HEAD + JMSZ
      ensures forall j :: 0 <= j < |bs| && j != i ==> bs[j].addr != bs[i].addr
    {
      ShapeAt(bs, brk, i);
    }
  }

  // ----- what the assignments of each part do to the lists -----

  lemma UsedNotInRing(bs: seq<Blk>, brk: int, ring: seq<int>, i: nat)
    requires Shape(bs, brk) && RingOk(bs, ring) && i < |bs| && !bs[i].free
    ensures bs[i].addr !in ring
  {
    ShapeAt(bs, brk, i);
    UsedNotFree(bs, brk, i, bs[i].addr);
  }

  // Free headers have a successor in the ring; the others must have been cleared.
  lemma FlagsFromRing(nextfree: map<int, int>, prevfree: map<int, int>, bs: seq<Blk>, brk: int, ring: seq<int>)
    requires Shape(bs, brk) && RingOk(bs, ring) && Circular(nextfree, prevfree, ring)
    requires forall i :: 0 <= i < |bs| && !bs[i].free ==> bs[i].addr in nextfree && nextfree[bs[i].addr] == 0
    ensures Flags(nextfree, bs)
  {
    forall i | 0 <= i < |bs| && bs[i].free
      ensures bs[i].addr in nextfree && nextfree[bs[i].addr] != 0
    {
      assert FreeAt(bs, bs[i].addr);
      var k := Pos(ring, bs[i].addr);
      hide FreeAt, Circular;
      Neighbours(nextfree, prevfree, ring, k);
      RingPositive(bs, brk, ring, JmallocLinks.Step(ring, k));
    }
  }

  lemma RingPositive(bs: seq<Blk>, brk: int, ring: seq<int>, k: nat)
    requires Shape(bs, brk) && RingOk(bs, ring) && k < |ring|
    ensures ring[k] >= HEAD
  {
    assert ring[k] in ring;
    if ring[k] != HEAD {
      var i :| 0 <= i < |bs| && bs[i].addr == ring[k] && bs[i].free;
      ShapeAt(bs, brk, i);
    }
  }

  // Cleared headers stay cleared when only ring elements and y get a new nextfree.
  lemma StillCleared(nextfree: map<int, int>, nextfree': map<int, int>, bs: seq<Blk>, brk: int, ring: seq<int>, i: nat, a: int, y: int)
    requires Shape(bs, brk) && RingOk(bs, ring) && Flags(nextfree, bs) && i < |bs| && !bs[i].free
    requires a in ring && bs[i].addr != y
    requires forall x :: x in nextfree && x != a && x != y ==> x in nextfree' && nextfree'[x] == nextfree[x]
    ensures bs[i].addr in nextfree' && nextfree'[bs[i].addr] == 0
  {
    UsedNotInRing(bs, brk, ring, i);
  }

  lemma SetUsedLists(nextfree: map<int, int>, prevfree: map<int, int>, bs: seq<Blk>, brk: int, ring: seq<int>, i: nat)
    requires Shape(bs, brk) && RingOk(bs, ring) && Circular(nextfree, prevfree, ring) && Flags(nextfree, bs)
    requires i < |bs| && bs[i].free && bs[i].size > 0
    ensures var l := bs[i].addr; var bs' := bs[i := bs[i].(free := false)];
      && l in ring && l in nextfree && l in prevfree && nextfree[l] == Succ(ring, l) && prevfree[l] != l
      && var nf := nextfree[prevfree[l] := nextfree[l]][l := 0];
         var pf := prevfree[nextfree[l] := prevfree[l]][l := 0];
         Circular(nf, pf, Without(ring, l)) && Flags(nf, bs')
  {
    var l := bs[i].addr;
    var bs' := bs[i := bs[i].(free := false)];
    SetUsedRing(bs, brk, ring, i);
    ShapeAt(bs, brk, i);
    var k := Pos(ring, l);
    LinkOut(nextfree, prevfree, ring, k);
    Neighbours(nextfree, prevfree, ring, k);
    var nf1 := nextfree[prevfree[l] := nextfree[l]];
    var pf1 := prevfree[nextfree[l] := prevfree[l]];
    RingWithout(ring, l);
    Outside(nf1, pf1, Without(ring, l), l, 0);
    Outside(nf1[l := 0], pf1, Without(ring, l), l, 0);
    PutShape(bs, brk, i, bs[i].(free := false));
    hide Circular, After, Without, Succ;
    forall j | 0 <= j < |bs'| && !bs'[j].free
      ensures bs'[j].addr in nf1[l := 0] && nf1[l := 0][bs'[j].addr] == 0
    {
      if j != i {
        StillCleared(nextfree, nf1[l := 0], bs, brk, ring, j, prevfree[l], l);
      }
    }
    FlagsFromRing(nf1[l := 0], pf1[l := 0], bs', brk, Without(ring, l));
  }

  // The ring takes y in behind start.
  lemma EnterLists(nextfree: map<int, int>, prevfree: map<int, int>, bs: seq<Blk>, brk: int, ring: seq<int>, start: int, i: nat)
    requires Shape(bs, brk) && RingOk(bs, ring) && Circular(nextfree, prevfree, ring) && Flags(nextfree, bs)
    requires i < |bs| && !bs[i].free && start in ring
    ensures var l := bs[i].addr;
      && start in nextfree && nextfree[start] in prevfree && nextfree[start] != l && start != l
      && var nf := nextfree[l := nextfree[start]][start := l];
         var pf := prevfree[l := start][nextfree[start] := l];
         Circular(nf, pf, After(ring, start, l)) && Flags(nf, bs[i := bs[i].(free := true)])
  {
    var l := bs[i].addr;
    var k := Pos(ring, start);
    FreeIntoRing(bs, brk, ring, start, i);
    LinkIn(nextfree, prevfree, ring, k, l);
    Neighbours(nextfree, prevfree, ring, k);
    var nf := nextfree[l := nextfree[start]][start := l];
    var pf := prevfree[l := start][nextfree[start] := l];
    ShapeAt(bs, brk, i);
    PutShape(bs, brk, i, bs[i].(free := true));
    hide Circular, After;
    var bs' := bs[i := bs[i].(free := true)];
    forall j | 0 <= j < |bs'| && !bs'[j].free
      ensures bs'[j].addr in nf && nf[bs'[j].addr] == 0
    {
      StillCleared(nextfree, nf, bs, brk, ring, j, start, l);
    }
    FlagsFromRing(nf, pf, bs', brk, After(ring, start, l));
  }

  lemma AddSegLists(nextfree: map<int, int>, prevfree: map<int, int>, bs: seq<Blk>, brk: int, ring: seq<int>, b: Blk)
    requires Shape(bs, brk) && RingOk(bs, ring) && Circular(nextfree, prevfree, ring) && Flags(nextfree, bs)
    requires BlkOk(b) && b.free && brk <= b.addr
    ensures HEAD in prevfree && prevfree[HEAD] in nextfree && b.addr != HEAD && prevfree[HEAD] != b.addr
    ensures
      var nf := nextfree[b.addr := HEAD][prevfree[HEAD] := b.addr];
      var pf := prevfree[b.addr := prevfree[HEAD]][HEAD := b.addr];
      Circular(nf, pf, ring + [b.addr]) && Flags(nf, bs + [b])
  {
    var y := b.addr;
    AddSegRing(bs, brk, ring, b);
    AddSegShape(bs, brk, b);
    assert y !in ring by {
      forall k | 0 <= k < |ring|
        ensures ring[k] != y
      {
        assert (ring + [y])[k] != (ring + [y])[|ring|];
      }
    }
    LinkLast(nextfree, prevfree, ring, y);
    Neighbours(nextfree, prevfree, ring, 0);
    var nf := nextfree[y := HEAD][prevfree[HEAD] := y];
    var pf := prevfree[y := prevfree[HEAD]][HEAD := y];
    hide Circular;
    assert prevfree[HEAD] in ring;
    forall j | 0 <= j < |bs + [b]| && !(bs + [b])[j].free
      ensures (bs + [b])[j].addr in nf && nf[(bs + [b])[j].addr] == 0
    {
      StillCleared(nextfree, nf, bs, brk, ring, j, prevfree[HEAD], y);
    }
    FlagsFromRing(nf, pf, bs + [b], b.End(), ring + [y]);
  }

  lemma AddSegBlocks(flink: map<int, int>, blink: map<int, int>, size: map<int, int>, cs2: map<int, int>, bs: seq<Blk>, brk: int, b: Blk)
    requires Shape(bs, brk) && BlockList(flink, blink, bs) && Data(size, cs2, bs) && BlkOk(b) && brk <= b.addr
    ensures HEAD in blink && blink[HEAD] in flink && blink[HEAD] != b.addr
    ensures
      var fl := flink[b.addr := HEAD][blink[HEAD] := b.addr];
      var bl := blink[b.addr := blink[HEAD]][HEAD := b.addr];
      BlockList(fl, bl, bs + [b]) && Data(size[b.addr := b.size], cs2[b.addr := b.cs2], bs + [b])
  {
    AddSegShape(bs, brk, b);
    HeadsDiffer(bs + [b], b.End());
    var s := [HEAD] + Addrs(bs);
    assert s + [b.addr] == [HEAD] + Addrs(bs + [b]);
    forall j | 0 <= j < |s|
      ensures s[j] != b.addr
    {
      assert (s + [b.addr])[j] != (s + [b.addr])[|s|];
    }
    LinkLast(flink, blink, s, b.addr);
    Neighbours(flink, blink, s, 0);
  }

  lemma SplitLists(nextfree: map<int, int>, prevfree: map<int, int>, bs: seq<Blk>, brk: int, ring: seq<int>,
      anchor: int, i: nat, kept: Blk, rest: Blk)
    requires Shape(bs, brk) && RingOk(bs, ring) && Circular(nextfree, prevfree, ring) && Flags(nextfree, bs)
    requires i < |bs| && anchor in ring && Splits(bs[i], kept, rest)
    ensures anchor in nextfree && nextfree[anchor] in prevfree && nextfree[anchor] != rest.addr && anchor != rest.addr
    ensures
      var nf := nextfree[rest.addr := nextfree[anchor]][anchor := rest.addr];
      var pf := prevfree[rest.addr := anchor][nextfree[anchor] := rest.addr];
      Circular(nf, pf, After(ring, anchor, rest.addr)) && Flags(nf, Swap(bs, i, i + 1, [kept, rest]))
  {
    var y := rest.addr;
    var cs := Swap(bs, i, i + 1, [kept, rest]);
    var k := Pos(ring, anchor);
    SplitRing(bs, brk, ring, anchor, i, kept, rest);
    SplitShape(bs, brk, i, kept, rest);
    NotInside(bs, brk, i, y);
    assert y !in ring by { HeadsDiffer(bs, brk); }
    LinkIn(nextfree, prevfree, ring, k, y);
    Neighbours(nextfree, prevfree, ring, k);
    var nf := nextfree[y := nextfree[anchor]][anchor := y];
    var pf := prevfree[y := anchor][nextfree[anchor] := y];
    hide Circular, After, RingOk;
    forall j | 0 <= j < |cs| && !cs[j].free
      ensures cs[j].addr in nf && nf[cs[j].addr] == 0
    {
      var m := if j <= i then j else j - 1;
      assert cs[j].addr == bs[m].addr && cs[j].free == bs[m].free && bs[m].addr != y by {
        assert j != i + 1;
        assert m != i ==> bs[m].End() <= bs[i].addr || bs[i].End() <= bs[m].addr;
        ShapeAt(bs, brk, m);
      }
      StillCleared(nextfree, nf, bs, brk, ring, m, anchor, y);
    }
    FlagsFromRing(nf, pf, cs, brk, After(ring, anchor, y));
  }

  // The rest of a block is at an address where no block begins.
  lemma RestNew(bs: seq<Blk>, brk: int, i: nat, kept: Blk, rest: Blk)
    requires Shape(bs, brk) && i < |bs| && Splits(bs[i], kept, rest)
    ensures rest.addr !in [HEAD] + Addrs(bs)
  {
    HeadsDiffer(bs, brk);
    ShapeAt(bs, brk, i);
    forall m | 0 <= m < |bs|
      ensures bs[m].addr != rest.addr
    {
      assert m != i ==> bs[m].End() <= bs[i].addr || bs[i].End() <= bs[m].addr;
      ShapeAt(bs, brk, m);
    }
  }

  lemma SplitBlocks(flink: map<int, int>, blink: map<int, int>, size: map<int, int>, cs2: map<int, int>,
      bs: seq<Blk>, brk: int, i: nat, kept: Blk, rest: Blk)
    requires Shape(bs, brk) && BlockList(flink, blink, bs) && Data(size, cs2, bs) && i < |bs| && Splits(bs[i], kept, rest)
    ensures kept.addr in flink && flink[kept.addr] in blink && flink[kept.addr] != rest.addr
    ensures
      var y, l := rest.addr, kept.addr;
      var fl := flink[y := flink[l]][l := y];
      var bl := blink[y := l][flink[l] := y];
      var cs := Swap(bs, i, i + 1, [kept, rest]);
      && BlockList(fl, bl, cs)
      && Data(size[y := rest.size][l := kept.size], cs2[y := rest.cs2][l := kept.cs2], cs)
  {
    var y, l := rest.addr, kept.addr;
    var cs := Swap(bs, i, i + 1, [kept, rest]);
    SplitShape(bs, brk, i, kept, rest);
    HeadsDiffer(cs, brk);
    var s := [HEAD] + Addrs(bs);
    assert InsertAt(s, i + 1, y) == [HEAD] + Addrs(cs);
    RestNew(bs, brk, i, kept, rest);
    hide Circular, Shape, Data;
    LinkIn(flink, blink, s, i + 1, y);
    Neighbours(flink, blink, s, i + 1);
    SplitData(size, cs2, bs, brk, i, kept, rest);
  }

  lemma SplitData(size: map<int, int>, cs2: map<int, int>, bs: seq<Blk>, brk: int, i: nat, kept: Blk, rest: Blk)
    requires Data(size, cs2, bs) && i < |bs| && kept.addr == bs[i].addr
    requires Shape(Swap(bs, i, i + 1, [kept, rest]), brk)
    ensures Data(size[rest.addr := rest.size][kept.addr := kept.size], cs2[rest.addr := rest.cs2][kept.addr := kept.cs2],
      Swap(bs, i, i + 1, [kept, rest]))
  {
    var cs := Swap(bs, i, i + 1, [kept, rest]);
    HeadsDiffer(cs, brk);
    ShapeAt(cs, brk, i);
    ShapeAt(cs, brk, i + 1);
    hide Shape;
    forall j | 0 <= j < |cs| && j != i && j != i + 1
      ensures cs[j] == bs[if j < i then j else j - 1]
    {
    }
  }

  // The block list without block i + 1, and the joined size in block i.
  lemma JoinBlocks(flink: map<int, int>, blink: map<int, int>, size: map<int, int>, cs2: map<int, int>,
      bs: seq<Blk>, brk: int, i: nat)
    requires Shape(bs, brk) && BlockList(flink, blink, bs) && Data(size, cs2, bs) && Joins(bs, i)
    ensures var l, n := bs[i].addr, bs[i + 1].addr;
      && l in flink && n in flink && n in blink && flink[l] == n && blink[n] == l && flink[n] in blink
      && BlockList(flink[l := flink[n]], blink[flink[n] := l], Join(bs, i))
      && Data(size[l := bs[i].size + bs[i + 1].size + JMSZ], cs2, Join(bs, i))
  {
    hide Circular, Shape, Sorted;
    var l, n := bs[i].addr, bs[i + 1].addr;
    var cs := Join(bs, i);
    var s := [HEAD] + Addrs(bs);
    assert s[i + 1] == l && s[i + 2] == n;
    assert DropAt(s, i + 2) == [HEAD] + Addrs(cs);
    LinkOut(flink, blink, s, i + 2);
    Neighbours(flink, blink, s, i + 1);
    Neighbours(flink, blink, s, i + 2);
    JoinData(size, cs2, bs, brk, i);
  }

  lemma JoinData(size: map<int, int>, cs2: map<int, int>, bs: seq<Blk>, brk: int, i: nat)
    requires Shape(bs, brk) && Data(size, cs2, bs) && i + 1 < |bs|
    ensures Data(size[bs[i].addr := bs[i].size + bs[i + 1].size + JMSZ], cs2, Join(bs, i))
  {
    var cs := Join(bs, i);
    HeadsDiffer(bs, brk);
    ShapeAt(bs, brk, i);
    hide Shape;
    forall j | 0 <= j < |cs| && j != i
      ensures cs[j] == bs[if j < i then j else j + 1]
    {
    }
  }

  // The ring without the header that block k takes in.
  lemma MergeLists(nextfree: map<int, int>, prevfree: map<int, int>, bs: seq<Blk>, brk: int, ring: seq<int>, k: nat)
    requires Shape(bs, brk) && RingOk(bs, ring) && Circular(nextfree, prevfree, ring) && Flags(nextfree, bs)
    requires Joins(bs, k) && bs[k].free && bs[k + 1].free
    ensures var n := bs[k + 1].addr;
      && n in ring && n in nextfree && n in prevfree && nextfree[n] in prevfree && prevfree[n] in nextfree
      && prevfree[n] != n
      && var nf := nextfree[prevfree[n] := nextfree[n]];
         var pf := prevfree[nextfree[n] := prevfree[n]];
         Circular(nf, pf, Without(ring, n)) && Flags(nf, Join(bs, k))
  {
    var n := bs[k + 1].addr;
    var cs := Join(bs, k);
    MergeRing(bs, brk, ring, k);
    JoinShape(bs, brk, k);
    var m := Pos(ring, n);
    ShapeAt(bs, brk, k + 1);
    LinkOut(nextfree, prevfree, ring, m);
    Neighbours(nextfree, prevfree, ring, m);
    var nf := nextfree[prevfree[n] := nextfree[n]];
    var pf := prevfree[nextfree[n] := prevfree[n]];
    assert prevfree[n] in ring;
    hide Circular, Without, RingOk;
    forall j | 0 <= j < |cs| && !cs[j].free
      ensures cs[j].addr in nf && nf[cs[j].addr] == 0
    {
      var i := if j < k then j else j + 1;
      assert cs[j] == bs[i];
      StillCleared(nextfree, nf, bs, brk, ring, i, prevfree[n], prevfree[n]);
    }
    FlagsFromRing(nf, pf, cs, brk, Without(ring, n));
  }

  lemma JoinFlags(nextfree: map<int, int>, bs: seq<Blk>, i: nat)
    requires Flags(nextfree, bs) && i + 1 < |bs|
    ensures Flags(nextfree, Join(bs, i))
  {
    var cs := Join(bs, i);
    forall j | 0 <= j < |cs|
      ensures cs[j].addr == bs[if j <= i then j else j + 1].addr && cs[j].free == bs[if j <= i then j else j + 1].free
    {
    }
  }

  // A change of the free flag leaves the block list and the fields alone.
  lemma FlagData(size: map<int, int>, cs2: map<int, int>, flink: map<int, int>, blink: map<int, int>, bs: seq<Blk>, i: nat, free: bool)
    requires Data(size, cs2, bs) && BlockList(flink, blink, bs) && i < |bs|
    ensures var cs := bs[i := bs[i].(free := free)]; Data(size, cs2, cs) && BlockList(flink, blink, cs)
  {
    assert Addrs(bs[i := bs[i].(free := free)]) == Addrs(bs);
  }

  // The headers in memory, one map from addresses for each field of struct jmalloc; the null
  // pointer is 0.
  datatype Headers = Headers(
    flink: map<int, int>,
    blink: map<int, int>,
    nextfree: map<int, int>,
    prevfree: map<int, int>,
    size: map<int, int>,
    cs2: map<int, int>
  ) {
    function Flink(l: int, to: int): Headers { this.(flink := flink[l := to]) }
    function Blink(l: int, to: int): Headers { this.(blink := blink[l := to]) }
    function Nextfree(l: int, to: int): Headers { this.(nextfree := nextfree[l := to]) }
    function Prevfree(l: int, to: int): Headers { this.(prevfree := prevfree[l := to]) }
    function Size(l: int, to: int): Headers { this.(size := size[l := to]) }
    function Cs2(l: int, to: int): Headers { this.(cs2 := cs2[l := to]) }
  }

  ghost predicate Represents(v: Headers, h: Heap) {
    && WF(h)
    && BlockList(v.flink, v.blink, h.blocks)
    && Circular(v.nextfree, v.prevfree, h.ring)
    && Data(v.size, v.cs2, h.blocks)
    && Flags(v.nextfree, h.blocks)
  }

  // The static variables, the break, the calls of sbrk so far and memory are those of h.
  ghost predicate Statics(h: Heap, start: int, usedMem: int, freeMem: int, usedBlocks: int, freeBlocks: int,
      brk: int, calls: nat, mem: map<int, Byte>)
  {
    && h.start == start && h.usedMem == usedMem && h.freeMem == freeMem
    && h.usedBlocks == usedBlocks && h.freeBlocks == freeBlocks
    && h.brk == brk && h.calls == calls && h.mem == mem
  }

  // l is the address of block i, which is free and not empty.
  predicate FreeBlock(h: Heap, i: nat, l: int) {
    i < |h.blocks| && h.blocks[i].addr == l && h.blocks[i].free && h.blocks[i].size > 0
  }

  lemma SetUsedRep(v: Headers, h: Heap, i: nat, l: int)
    requires Represents(v, h) && FreeBlock(h, i, l)
    ensures i < |h.blocks| && h.blocks[i].addr == l && l in h.ring
    ensures l in v.nextfree && l in v.prevfree && l in v.size && v.prevfree[l] != l
    ensures Represents(v.(
      nextfree := v.nextfree[v.prevfree[l] := v.nextfree[l]][l := 0],
      prevfree := v.prevfree[v.nextfree[l] := v.prevfree[l]][l := 0]), SetUsed(h, i))
    ensures Statics(SetUsed(h, i), v.nextfree[l], h.usedMem + v.size[l], h.freeMem - v.size[l],
      h.usedBlocks + 1, h.freeBlocks - 1, h.brk, h.calls, h.mem)
  {
    SetUsedLists(v.nextfree, v.prevfree, h.blocks, h.brk, h.ring, i);
    SetUsedKeeps(h, i);
    FlagData(v.size, v.cs2, v.flink, v.blink, h.blocks, i, false);
    hide WF, Circular, Flags, BlockList, Without, Succ;
  }

  // l is the address of block i, which is used.
  predicate UsedBlock(h: Heap, i: nat, l: int) {
    i < |h.blocks| && h.blocks[i].addr == l && !h.blocks[i].free
  }

  lemma FreeIntoRep(v: Headers, h: Heap, i: nat, l: int)
    requires Represents(v, h) && UsedBlock(h, i, l) && Stamped(h.mem, h.blocks[i].cs2, l)
    ensures i < |h.blocks| && l in v.size && h.start in h.ring
    ensures h.start in v.nextfree && v.nextfree[h.start] in v.prevfree && v.nextfree[h.start] != l && h.start != l
    ensures Represents(v.(
      nextfree := v.nextfree[l := v.nextfree[h.start]][h.start := l],
      prevfree := v.prevfree[l := h.start][v.nextfree[h.start] := l]), FreeInto(h, i))
    ensures Statics(FreeInto(h, i), h.start, h.usedMem - v.size[l], h.freeMem + v.size[l],
      h.usedBlocks - 1, h.freeBlocks + 1, h.brk, h.calls, h.mem)
  {
    EnterLists(v.nextfree, v.prevfree, h.blocks, h.brk, h.ring, h.start, i);
    FreeIntoKeeps(h, i);
    FlagData(v.size, v.cs2, v.flink, v.blink, h.blocks, i, true);
    hide WF, Circular, Flags, BlockList, After;
  }

  lemma FreeLeftRep(v: Headers, h: Heap, i: nat, l: int)
    requires Represents(v, h) && UsedBlock(h, i, l) && 0 < i && h.blocks[i - 1].free && Joins(h.blocks, i - 1)
    ensures l in v.blink && l in v.flink && l in v.size && v.blink[l] in v.size && v.flink[l] in v.blink && v.blink[l] in v.flink
    ensures v.blink[l] == h.blocks[i - 1].addr && v.blink[l] != l
    ensures Represents(v.(
      flink := v.flink[v.blink[l] := v.flink[l]], blink := v.blink[v.flink[l] := v.blink[l]],
      size := v.size[v.blink[l] := v.size[v.blink[l]] + (v.size[l] + JMSZ)]), FreeLeft(h, i))
    ensures Statics(FreeLeft(h, i), h.start, h.usedMem - v.size[l], h.freeMem + v.size[l] + JMSZ,
      h.usedBlocks - 1, h.freeBlocks, h.brk, h.calls, h.mem)
  {
    hide WF, Circular, Flags, BlockList, Join, Shape, RingOk, Sorted;
    InOrder(h);
    JoinBlocks(v.flink, v.blink, v.size, v.cs2, h.blocks, h.brk, i - 1);
    JoinFlags(v.nextfree, h.blocks, i - 1);
    FreeLeftKeeps(h, i);
    ShapeAt(h.blocks, h.brk, i);
    DataAt(v.size, v.cs2, h.blocks, i);
    DataAt(v.size, v.cs2, h.blocks, i - 1);
    hide Data;
    assert h.blocks[i - 1].size + h.blocks[i].size + JMSZ == v.size[v.blink[l]] + (v.size[l] + JMSZ);
  }

  lemma MergeNextRep(v: Headers, h: Heap, k: nat, l: int, n: int)
    requires Represents(v, h) && k + 1 < |h.blocks| && h.blocks[k].free && h.blocks[k + 1].free && Joins(h.blocks, k)
    requires l == h.blocks[k].addr && n == h.blocks[k + 1].addr
    ensures n in h.ring
    ensures l in v.flink && n in v.flink && v.flink[l] == n && v.flink[n] in v.blink && l in v.size && n in v.size && l != n
    ensures n in v.nextfree && n in v.prevfree && v.nextfree[n] in v.prevfree && v.prevfree[n] in v.nextfree
      && v.prevfree[n] != n
    ensures Represents(v.(
      flink := v.flink[l := v.flink[n]], blink := v.blink[v.flink[n] := l],
      size := v.size[l := v.size[l] + (v.size[n] + JMSZ)],
      nextfree := v.nextfree[v.prevfree[n] := v.nextfree[n]],
      prevfree := v.prevfree[v.nextfree[n] := v.prevfree[n]]), MergeNext(h, k))
    ensures Statics(MergeNext(h, k), l, h.usedMem, h.freeMem + JMSZ,
      h.usedBlocks, h.freeBlocks - 1, h.brk, h.calls, h.mem)
  {
    JoinBlocks(v.flink, v.blink, v.size, v.cs2, h.blocks, h.brk, k);
    MergeLists(v.nextfree, v.prevfree, h.blocks, h.brk, h.ring, k);
    MergeNextKeeps(h, k);
    ShapeAt(h.blocks, h.brk, k);
    hide WF, Circular, Flags, BlockList, Join, Without;
    assert h.blocks[k].size + h.blocks[k + 1].size + JMSZ == v.size[l] + (v.size[n] + JMSZ);
  }

  lemma AddSegRep(v: Headers, h: Heap, p: int, n: int)
    requires Represents(v, h) && h.brk <= p && p % PTSZ == 0 && n % PTSZ == 0 && JMSZ <= n
    ensures HEAD in v.blink && v.blink[HEAD] in v.flink && v.blink[HEAD] != p && p != HEAD
    ensures HEAD in v.prevfree && v.prevfree[HEAD] in v.nextfree && v.prevfree[HEAD] != p
    ensures Represents(v.(
      flink := v.flink[p := HEAD][v.blink[HEAD] := p], blink := v.blink[p := v.blink[HEAD]][HEAD := p],
      nextfree := v.nextfree[p := HEAD][v.prevfree[HEAD] := p],
      prevfree := v.prevfree[p := v.prevfree[HEAD]][HEAD := p],
      size := v.size[p := n - JMSZ], cs2 := v.cs2[p := p - PTSZ + n]), AddSeg(h, p, n))
    ensures Statics(AddSeg(h, p, n), h.start, h.usedMem, h.freeMem + (n - JMSZ),
      h.usedBlocks, h.freeBlocks + 1, p + n, h.calls, Stamp(h.mem, p - PTSZ + n, p))
  {
    hide WF, Circular, Flags, BlockList, Data, Stamp, Shape, RingOk, BlkOk;
    var b := Blk(p, n - JMSZ, true, p - PTSZ + n);
    NewBlock(h, p, n);
    AddSegKeeps(h, p, n);
    AddSegLists(v.nextfree, v.prevfree, h.blocks, h.brk, h.ring, b);
    AddSegBlocks(v.flink, v.blink, v.size, v.cs2, h.blocks, h.brk, b);
  }

  lemma NewBlock(h: Heap, p: int, n: int)
    requires WF(h) && h.brk <= p && p % PTSZ == 0 && n % PTSZ == 0 && JMSZ <= n
    ensures BlkOk(Blk(p, n - JMSZ, true, p - PTSZ + n)) && Shape(h.blocks, h.brk) && RingOk(h.blocks, h.ring)
  {
    hide RingOk, Stamps, Tiled, Counted, Sorted;
  }

  // Block i, at l, can be cut down to size bytes, with room for a header behind it.
  predicate Cuttable(h: Heap, i: nat, l: int, size: int) {
    i < |h.blocks| && h.blocks[i].addr == l && 0 < size && size % PTSZ == 0 && size + JMSZ <= h.blocks[i].size
  }

  lemma InOrder(h: Heap)
    requires WF(h)
    ensures Shape(h.blocks, h.brk) && RingOk(h.blocks, h.ring)
  {
  }

  lemma DataAt(size: map<int, int>, cs2: map<int, int>, bs: seq<Blk>, i: nat)
    requires Data(size, cs2, bs) && i < |bs|
    ensures bs[i].addr in size && size[bs[i].addr] == bs[i].size && bs[i].addr in cs2 && cs2[bs[i].addr] == bs[i].cs2
  {
  }

  lemma SplitRep(v: Headers, h: Heap, i: nat, l: int, size: int, anchor: int)
    requires Represents(v, h) && Cuttable(h, i, l, size) && anchor in h.ring
    ensures i < |h.blocks| && l in v.flink && l in v.size && anchor in v.nextfree && v.size[l] == h.blocks[i].size
    ensures var y := l + JMSZ + size;
      v.flink[l] in v.blink && v.flink[l] != y && v.nextfree[anchor] in v.prevfree && v.nextfree[anchor] != y && anchor != y
    ensures var y := l + JMSZ + size; var n := v.size[l];
      && Represents(v.(
           flink := v.flink[y := v.flink[l]][l := y], blink := v.blink[y := l][v.flink[l] := y],
           nextfree := v.nextfree[y := v.nextfree[anchor]][anchor := y],
           prevfree := v.prevfree[y := anchor][v.nextfree[anchor] := y],
           size := v.size[y := n - size - JMSZ][l := size],
           cs2 := v.cs2[y := l + JMSZ - PTSZ + n][l := l + JMSZ - PTSZ + size]), Split(h, i, size, anchor))
      && Statics(Split(h, i, size, anchor), h.start,
           if h.blocks[i].free then h.usedMem else h.usedMem + (size - n),
           h.freeMem + (n - size - JMSZ) + (if h.blocks[i].free then size - n else 0),
           h.usedBlocks, h.freeBlocks + 1, h.brk, h.calls,
           Stamp(Stamp(h.mem, l + JMSZ - PTSZ + n, y), l + JMSZ - PTSZ + size, l))
  {
    hide WF, Circular, Flags, BlockList, Data, Stamp, After, Shape, RingOk, BlkOk;
    var h' := Split(h, i, size, anchor);
    InOrder(h);
    DataAt(v.size, v.cs2, h.blocks, i);
    SplitKeeps(h, i, size, anchor);
    var kept, rest := h'.blocks[i], h'.blocks[i + 1];
    SplitLists(v.nextfree, v.prevfree, h.blocks, h.brk, h.ring, anchor, i, kept, rest);
    SplitBlocks(v.flink, v.blink, v.size, v.cs2, h.blocks, h.brk, i, kept, rest);
    assert h'.blocks == Swap(h.blocks, i, i + 1, [kept, rest]);
  }

  // Where the element at place i from a on stands in the ring.
  function Place(n: nat, k: nat, i: nat): nat
    requires k < n && i < n
  {
    if i < n - k then k + i else i - (n - k)
  }

  lemma FromAt(s: seq<int>, a: int)
    requires a in s
    ensures Pos(s, a) < |s| == |From(s, a)| && From(s, a)[0] == a
    ensures forall i :: 0 <= i < |s| ==> From(s, a)[i] == s[Place(|s|, Pos(s, a), i)]
  {
  }

  lemma FromSame(s: seq<int>, a: int)
    requires a in s
    ensures forall x :: x in From(s, a) <==> x in s
  {
    var k := Pos(s, a);
    assert s == s[..k] + s[k..];
  }

  lemma FromNoDup(s: seq<int>, a: int)
    requires NoDup(s) && a in s
    ensures NoDup(From(s, a)) && |From(s, a)| == |s| && From(s, a)[0] == a
    ensures forall x :: x in From(s, a) <==> x in s
  {
    FromAt(s, a);
    FromSame(s, a);
    hide From, Pos;
    var k := Pos(s, a);
    var t := From(s, a);
    forall i, j | 0 <= i < j < |t|
      ensures t[i] != t[j]
    {
      var x, y := Place(|s|, k, i), Place(|s|, k, j);
      assert t[i] == s[x] && t[j] == s[y] && x != y;
      assert if x < y then s[x] != s[y] else s[y] != s[x];
    }
  }

  lemma SearchFirst(v: Headers, h: Heap, n: int)
    requires Represents(v, h)
    ensures h.start in h.ring && |From(h.ring, h.start)| > 0 && From(h.ring, h.start)[0] == h.start
    ensures Search(h, n) == FitFrom(h.blocks, From(h.ring, h.start), 0, n)
  {
    FromAt(h.ring, h.start);
    hide From, FirstFit, Circular, Data, Flags, BlockList;
    var order := From(h.ring, h.start);
    assert order[0..] == order;
  }

  // What a search finds that has come to place k.
  function FitFrom(bs: seq<Blk>, order: seq<int>, k: nat, n: int): Option<int>
    requires k <= |order|
  {
    FirstFit(bs, order[k..], n)
  }

  lemma FirstFitStep(bs: seq<Blk>, order: seq<int>, k: nat, n: int)
    requires k < |order|
    ensures FitFrom(bs, order, k, n) ==
      if SizeAt(bs, order[k]) >= n then Some(order[k]) else FitFrom(bs, order, k + 1, n)
    ensures FitFrom(bs, order, |order|, n) == None
  {
    assert order[k..][1..] == order[k + 1..];
    hide SizeAt;
  }

  // One step of the search: from the k-th element in ring order to the next, and in the end
  // back to start.
  lemma SearchStep(v: Headers, h: Heap, k: nat)
    requires Represents(v, h) && k < |From(h.ring, h.start)|
    ensures var order := From(h.ring, h.start);
      && order[0] == h.start
      && order[k] in v.size && v.size[order[k]] == SizeAt(h.blocks, order[k])
      && order[k] in v.nextfree && v.nextfree[order[k]] == (if k + 1 < |order| then order[k + 1] else h.start)
      && (k + 1 < |order| ==> order[k + 1] != h.start)
  {
    var order := From(h.ring, h.start);
    var j := Pos(h.ring, h.start);
    FromNoDup(h.ring, h.start);
    var m := if k < |h.ring| - j then j + k else k - (|h.ring| - j);
    assert order[k] == h.ring[m];
    hide FreeAt, Sorted, BlockList, Flags, Stamps, Tiled, Counted;
    Neighbours(v.nextfree, v.prevfree, h.ring, m);
    RingSize(v, h, m);
  }

  lemma RingSize(v: Headers, h: Heap, m: nat)
    requires Represents(v, h) && m < |h.ring|
    ensures h.ring[m] in v.size && v.size[h.ring[m]] == SizeAt(h.blocks, h.ring[m])
  {
    var a := h.ring[m];
    assert a in h.ring;
    HeadsDiffer(h.blocks, h.brk);
    if a == HEAD {
      assert Find(h.blocks, HEAD) == |h.blocks|;
    } else {
      var i :| 0 <= i < |h.blocks| && h.blocks[i].addr == a && h.blocks[i].free;
      FindAt(h.blocks, h.brk, i);
    }
  }

  // The loop of requests to sbrk has asked for want bytes, without success so far if p is -1.
  ghost predicate Asking(os: Os, h0: Heap, h: Heap, size: int, want: int, p: int) {
    && 0 < size && size + JMSZ <= want
    && Obtain(os, h0, size, Want(size)) ==
       if p != -1 then (AddSeg(h, p, want), Some(p))
       else if want > size + JMSZ then Obtain(os, h, size, Halve(size, want)) else (h, None)
  }

  lemma AskOnce(os: Os, h: Heap, size: int, want: int)
    requires 0 < size && size + JMSZ <= want
    ensures var h1 := h.(calls := h.calls + 1);
      Obtain(os, h, size, want) ==
        match os(h.calls, want)
        case Some(gap) => (AddSeg(h1, h.brk + PTSZ * gap, want), Some(h.brk + PTSZ * gap))
        case None => if want > size + JMSZ then Obtain(os, h1, size, Halve(size, want)) else (h1, None)
  {
  }

  lemma CallsRep(v: Headers, h: Heap)
    requires Represents(v, h)
    ensures Represents(v, h.(calls := h.calls + 1)) && h.brk > 0 && h.brk % PTSZ == 0
  {
  }

  lemma HeapInOrder(v: Headers, h: Heap)
    requires Represents(v, h)
    ensures WF(h) && h.start in h.ring
  {
  }

  lemma FirstRequest(n: int)
    requires 0 < n && n % PTSZ == 0
    ensures Request(n, Want(n)) && n + JMSZ <= Want(n) && Want(n) % PTSZ == 0
  {
  }

  lemma UseReady(v: Headers, h: Heap, i: nat, l: int, n: int)
    requires Represents(v, h) && FreeBlock(h, i, l) && 0 < n && n % PTSZ == 0 && n <= h.blocks[i].size
    ensures l in v.size && v.size[l] == h.blocks[i].size && l in h.ring
    ensures h.blocks[i].size - n >= JMSZ ==>
      Cuttable(h, i, l, n) && FreeBlock(Split(h, i, n, l), i, l)
  {
    assert FreeAt(h.blocks, l);
    hide WF, BlockList, Circular, Flags, After;
  }

  lemma NoMalloc(os: Os, h: Heap, n: int)
    requires WF(h) && n <= 0
    ensures Malloc(os, h, n) == (h, Abort)
  {
    hide WF;
  }

  lemma MallocCases(os: Os, h: Heap, n: int)
    requires WF(h) && n > 0
    ensures var size := RoundUp(n);
      && size > 0 && size % PTSZ == 0
      && (Search(h, size).Some? ==>
            var i := Find(h.blocks, Search(h, size).value);
            && FreeBlock(h, i, Search(h, size).value) && h.blocks[i].size >= size
            && Search(h, size).value in h.ring
            && Malloc(os, h, n) == Take(h, i, size))
      && (Search(h, size).None? ==>
            var (h1, p) := Obtain(os, h, size, Want(size));
            if p.None? then Malloc(os, h, n) == (h1, Null)
            else
              && FreeBlock(h1, |h.blocks|, p.value) && h1.blocks[|h.blocks|].size >= size && p.value in h1.ring
              && Malloc(os, h, n) == Take(h1, |h.blocks|, size))
  {
    RoundsUp(n);
    SearchFindsFree(h, RoundUp(n));
    hide WF, Obtain, Take, RoundUp, FirstFit;
    if Search(h, RoundUp(n)).None? {
      FirstRequest(RoundUp(n));
      ObtainKeeps(os, h, RoundUp(n), Want(RoundUp(n)));
      var (h1, p) := Obtain(os, h, RoundUp(n), Want(RoundUp(n)));
      if p.Some? { ExtendsUsed(h, h1, p.value, RoundUp(n)); }
    }
  }

  // What the headers of block i, at l, and of its neighbours read.
  predicate Neighbourhood(v: Headers, bs: seq<Blk>, i: nat, l: int) {
    && i < |bs| && l in v.cs2 && v.cs2[l] == bs[i].cs2
    && l in v.blink && l in v.flink && v.blink[l] in v.nextfree && v.blink[l] in v.size
    && ((v.nextfree[v.blink[l]] != 0 && v.blink[l] + JMSZ - PTSZ + v.size[v.blink[l]] + PTSZ == l) <==>
          0 < i && bs[i - 1].free && bs[i - 1].End() == l)
    && (0 < i ==> v.blink[l] == bs[i - 1].addr)
    && v.flink[l] == if i + 1 < |bs| then bs[i + 1].addr else HEAD
  }

  lemma Released(v: Headers, h: Heap, loc: int)
    requires Represents(v, h) && Live(h, loc)
    ensures var i := BlockOf(h.blocks, loc); var l := loc - JMSZ + PTSZ;
      UsedBlock(h, i, l) && Neighbourhood(v, h.blocks, i, l)
  {
    hide *;
    LiveUsed(v, h, loc);
    LeftTest(v, h, BlockOf(h.blocks, loc), loc - JMSZ + PTSZ);
  }

  lemma LiveUsed(v: Headers, h: Heap, loc: int)
    requires Represents(v, h) && Live(h, loc)
    ensures var i := BlockOf(h.blocks, loc); var l := loc - JMSZ + PTSZ;
      UsedBlock(h, i, l) && i < |h.blocks| && h.blocks[i].addr == l
  {
    hide Represents;
  }

  lemma LeftTest(v: Headers, h: Heap, i: nat, l: int)
    requires Represents(v, h) && i < |h.blocks| && h.blocks[i].addr == l
    ensures Neighbourhood(v, h.blocks, i, l)
  {
    HeadFlag(v, h);
    LinksAt(v, h, i);
    RepShape(v, h);
    HeadsDiffer(h.blocks, h.brk);
    hide WF, BlockList, Circular;
    assert v.cs2[l] == h.blocks[i].cs2;
  }

  lemma RepList(v: Headers, h: Heap)
    requires Represents(v, h)
    ensures Circular(v.flink, v.blink, [HEAD] + Addrs(h.blocks))
  {
    hide WF, Data, Flags, Circular;
  }

  lemma ListAt(bs: seq<Blk>, k: nat)
    requires k < |bs|
    ensures var s := [HEAD] + Addrs(bs);
      |s| == |bs| + 1 && s[0] == HEAD && s[k + 1] == bs[k].addr && s[k] == if k > 0 then bs[k - 1].addr else HEAD
  {
  }

  // What is in the list before block k is below it.
  lemma Before(bs: seq<Blk>, brk: int, k: nat)
    requires Shape(bs, brk) && k < |bs|
    ensures (if k > 0 then bs[k - 1].addr else HEAD) < bs[k].addr
  {
    HeadsDiffer(bs, brk);
    if k > 0 {
      ShapeAt(bs, brk, k - 1);
      assert bs[k - 1].End() <= bs[k].addr;
    }
  }

  lemma RepWF(v: Headers, h: Heap)
    requires Represents(v, h)
    ensures WF(h)
  {
    hide WF, Data, Flags, BlockList, Circular;
  }

  lemma RepShape(v: Headers, h: Heap)
    requires Represents(v, h)
    ensures Shape(h.blocks, h.brk)
  {
    hide Data, Flags, BlockList, Circular;
  }

  lemma LinksAt(v: Headers, h: Heap, i: nat)
    requires Represents(v, h) && i < |h.blocks|
    ensures var l := h.blocks[i].addr;
      && l in v.flink && v.flink[l] == (if i + 1 < |h.blocks| then h.blocks[i + 1].addr else HEAD)
      && l in v.blink && v.blink[l] == if 0 < i then h.blocks[i - 1].addr else HEAD
  {
    RepShape(v, h);
    HeadsDiffer(h.blocks, h.brk);
    hide WF, Data, Flags, Circular;
    Neighbours(v.flink, v.blink, [HEAD] + Addrs(h.blocks), i + 1);
  }

  // The sentinel is in the ring.
  lemma HeadFlag(v: Headers, h: Heap)
    requires Represents(v, h)
    ensures HEAD in v.nextfree && v.nextfree[HEAD] != 0 && HEAD in v.size && v.size[HEAD] == 0
  {
    Neighbours(v.nextfree, v.prevfree, h.ring, 0);
    RingPositive(h.blocks, h.brk, h.ring, JmallocLinks.Step(h.ring, 0));
  }

  // What the test for a free right neighbour of block k, at l, reads.
  lemma RightTest(v: Headers, h: Heap, k: nat, l: int, nl: int)
    requires Represents(v, h) && k < |h.blocks| && l == h.blocks[k].addr
    requires nl == if k + 1 < |h.blocks| then h.blocks[k + 1].addr else HEAD
    ensures nl in v.nextfree && l in v.size && v.size[l] == h.blocks[k].size && nl in v.size
    ensures (v.nextfree[nl] != 0 && l + JMSZ - PTSZ + v.size[l] + PTSZ == nl) <==> FreeAndNext(h.blocks, k)
    ensures k + 1 < |h.blocks| ==> v.size[nl] == h.blocks[k + 1].size
  {
    HeadsDiffer(h.blocks, h.brk);
    HeadFlag(v, h);
    ShapeAt(h.blocks, h.brk, k);
  }

  // Where the freed block is, and what follows it, after the first half of free.
  lemma FreedNext(h: Heap, i: nat, left: bool) returns (h1: Heap, k: nat)
    requires WF(h) && i < |h.blocks| && !h.blocks[i].free && Stamped(h.mem, h.blocks[i].cs2, h.blocks[i].addr)
    requires h.start in h.ring
    requires left <==> 0 < i && h.blocks[i - 1].free && h.blocks[i - 1].End() == h.blocks[i].addr
    ensures h1 == (if left then FreeLeft(h, i) else FreeInto(h, i)) && k == if left then i - 1 else i
    ensures k < |h1.blocks| && h1.blocks[k].free && h1.blocks[k].addr in h1.ring
    ensures h1.blocks[k].addr == if left then h.blocks[i - 1].addr else h.blocks[i].addr
    ensures k + 1 < |h1.blocks| <==> i + 1 < |h.blocks|
    ensures k + 1 < |h1.blocks| ==> h1.blocks[k + 1].addr == h.blocks[i + 1].addr
    ensures FreeAndNext(h1.blocks, k) ==>
      && k + 1 < |h1.blocks| && h1.blocks[k + 1].addr in h1.ring && h1.blocks[k].addr in MergeNext(h1, k).ring
      && Release(h, i) == MergeNext(h1, k).(start := h1.blocks[k].addr)
    ensures !FreeAndNext(h1.blocks, k) ==> Release(h, i) == h1.(start := h1.blocks[k].addr)
  {
    ReleaseFirst(h, i);
    h1, k := if left then FreeLeft(h, i) else FreeInto(h, i), if left then i - 1 else i;
    FreedPlaces(h, i, left);
    hide WF, FreeLeft, FreeInto, Stamped;
    if FreeAndNext(h1.blocks, k) {
      MergedInRing(h1, k);
    }
  }

  lemma FreedPlaces(h: Heap, i: nat, left: bool)
    requires i < |h.blocks| && (left ==> 0 < i) && h.start in h.ring
    ensures var h1 := if left then FreeLeft(h, i) else FreeInto(h, i); var k: nat := if left then i - 1 else i;
      && k < |h1.blocks| && (k + 1 < |h1.blocks| <==> i + 1 < |h.blocks|)
      && h1.blocks[k].addr == (if left then h.blocks[i - 1].addr else h.blocks[i].addr)
      && (k + 1 < |h1.blocks| ==> h1.blocks[k + 1].addr == h.blocks[i + 1].addr)
  {
    hide Stamp, After, Without;
  }

  lemma MergedInRing(h: Heap, k: nat)
    requires WF(h) && FreeAndNext(h.blocks, k) && h.blocks[k].free && WF(MergeNext(h, k))
    requires h.blocks[k + 1].addr in h.ring
    ensures h.blocks[k].addr in MergeNext(h, k).ring
  {
    var h2 := MergeNext(h, k);
    assert h2.blocks[k].addr == h.blocks[k].addr && h2.blocks[k].free;
    hide Shape, Stamps, Tiled, Counted, Without;
    assert FreeAt(h2.blocks, h2.blocks[k].addr);
  }

  lemma StartRep(v: Headers, h: Heap, a: int)
    requires Represents(v, h) && a in h.ring
    ensures Represents(v, h.(start := a))
  {
  }

  lemma GrowRep(v: Headers, h: Heap, i: nat, l: int, n: int)
    requires Represents(v, h) && UsedBlock(h, i, l) && i + 1 < |h.blocks| && !h.blocks[i + 1].free && Joins(h.blocks, i)
    requires n == h.blocks[i + 1].addr
    ensures n in v.flink && n in v.blink && v.flink[n] in v.blink && v.blink[n] in v.flink && v.flink[n] != n
    ensures l in v.size && n in v.size && l != n
    ensures var size := v.size[l] + (v.size[n] + JMSZ); var cs2 := l + JMSZ - PTSZ + size;
      && Represents(v.(
           blink := v.blink[v.flink[n] := v.blink[n]], flink := v.flink[v.blink[n] := v.flink[n]],
           size := v.size[l := size], cs2 := v.cs2[l := cs2]), Grow(h, i))
      && Statics(Grow(h, i), h.start, h.usedMem + (v.size[n] + JMSZ), h.freeMem - v.size[n],
           h.usedBlocks, h.freeBlocks - 1, h.brk, h.calls, Stamp(h.mem, cs2, l))
  {
    hide WF, Circular, Flags, BlockList, Stamp, Shape, RingOk, Data;
    InOrder(h);
    ShapeAt(h.blocks, h.brk, i);
    JoinFlags(v.nextfree, h.blocks, i);
    GrowKeeps(h, i);
    PairApart(h.blocks, h.brk, i);
    GrowData(v, h, i, l, n);
  }

  lemma PairApart(bs: seq<Blk>, brk: int, i: nat)
    requires Shape(bs, brk) && i + 1 < |bs|
    ensures bs[i].addr != bs[i + 1].addr && HEAD < bs[i].addr && HEAD < bs[i + 1].addr
  {
    ShapeAt(bs, brk, i);
    ShapeAt(bs, brk, i + 1);
  }

  // A new place for the checksum of block i changes the list and the flags of no block.
  lemma GrowData(v: Headers, h: Heap, i: nat, l: int, n: int)
    requires Shape(h.blocks, h.brk) && Joins(h.blocks, i) && l == h.blocks[i].addr && n == h.blocks[i + 1].addr
    requires BlockList(v.flink, v.blink, h.blocks) && Data(v.size, v.cs2, h.blocks) && Flags(v.nextfree, Join(h.blocks, i))
    ensures n in v.flink && n in v.blink && v.blink[n] == l && l in v.flink && v.flink[n] in v.blink && v.flink[n] != n
    ensures l in v.size && n in v.size && v.size[l] == h.blocks[i].size && v.size[n] == h.blocks[i + 1].size
    ensures var size := v.size[l] + (v.size[n] + JMSZ); var cs2 := l + JMSZ - PTSZ + size;
      && BlockList(v.flink[l := v.flink[n]], v.blink[v.flink[n] := l], Grow(h, i).blocks)
      && Data(v.size[l := size], v.cs2[l := cs2], Grow(h, i).blocks)
      && Flags(v.nextfree, Grow(h, i).blocks)
  {
    GrowLinks(v, h, i, l, n);
    GrowSizes(v, h, i, l, n);
    hide Circular, Shape, Stamp, Join, Data, BlockList;
    assert Flags(v.nextfree, Grow(h, i).blocks);
  }

  lemma GrowLinks(v: Headers, h: Heap, i: nat, l: int, n: int)
    requires Shape(h.blocks, h.brk) && Joins(h.blocks, i) && l == h.blocks[i].addr && n == h.blocks[i + 1].addr
    requires BlockList(v.flink, v.blink, h.blocks) && Data(v.size, v.cs2, h.blocks)
    ensures n in v.flink && n in v.blink && v.blink[n] == l && l in v.flink && v.flink[n] in v.blink && v.flink[n] != n
    ensures BlockList(v.flink[l := v.flink[n]], v.blink[v.flink[n] := l], Grow(h, i).blocks)
  {
    JoinBlocks(v.flink, v.blink, v.size, v.cs2, h.blocks, h.brk, i);
    HeadsDiffer(h.blocks, h.brk);
    var s := [HEAD] + Addrs(h.blocks);
    hide Circular, Shape, Stamp, Data;
    Neighbours(v.flink, v.blink, s, i + 2);
    hide Join;
    assert Addrs(Grow(h, i).blocks) == Addrs(Join(h.blocks, i));
  }

  lemma GrowSizes(v: Headers, h: Heap, i: nat, l: int, n: int)
    requires Shape(h.blocks, h.brk) && Joins(h.blocks, i) && l == h.blocks[i].addr && n == h.blocks[i + 1].addr
    requires BlockList(v.flink, v.blink, h.blocks) && Data(v.size, v.cs2, h.blocks)
    ensures l in v.size && n in v.size && v.size[l] == h.blocks[i].size && v.size[n] == h.blocks[i + 1].size
    ensures var size := v.size[l] + (v.size[n] + JMSZ); var cs2 := l + JMSZ - PTSZ + size;
      Data(v.size[l := size], v.cs2[l := cs2], Grow(h, i).blocks)
  {
    JoinBlocks(v.flink, v.blink, v.size, v.cs2, h.blocks, h.brk, i);
    JoinShape(h.blocks, h.brk, i);
    HeadsDiffer(Join(h.blocks, i), h.brk);
    hide Circular, Shape, Stamp, BlockList, Join;
  }

  // What realloc knows about its block.
  lemma ReallocReady(v: Headers, h: Heap, loc: int)
    requires Represents(v, h) && Live(h, loc)
    ensures var i := BlockOf(h.blocks, loc); var l := loc - JMSZ + PTSZ;
      && UsedBlock(h, i, l) && h.blocks[i].Space() == loc
      && l in v.cs2 && v.cs2[l] == h.blocks[i].cs2 && l in v.size && v.size[l] == h.blocks[i].size && h.blocks[i].size > 0
      && l in v.flink && v.flink[l] == (if i + 1 < |h.blocks| then h.blocks[i + 1].addr else HEAD)
  {
    Released(v, h, loc);
    ShapeAt(h.blocks, h.brk, BlockOf(h.blocks, loc));
  }

  lemma ShrinkRep(v: Headers, h: Heap, i: nat, l: int, n: int)
    requires WF(h) && Cuttable(h, i, l, n) && h.start in h.ring && Represents(v, Split(h, i, n, h.start))
    ensures Represents(v, Split(h, i, n, h.start).(start := l + JMSZ + n))
  {
    SplitKeeps(h, i, n, h.start);
    hide WF, Circular, Flags, BlockList, Stamp, After;
    StartRep(v, Split(h, i, n, h.start), l + JMSZ + n);
  }

  lemma GrowReady(os: Os, h: Heap, i: nat, size: int)
    requires WF(h) && i < |h.blocks| && !h.blocks[i].free && CanGrow(h.blocks, i, size) && 0 < size && size % PTSZ == 0
    ensures h.blocks[i + 1].addr in h.ring
    ensures var next := h.blocks[i + 1]; var h0 := h.(start := next.addr);
      && WF(h0)
      && var (h1, q) := Malloc(os, h0, Missing(h.blocks[i], size));
         && GrowInPlace(os, h, i, size) ==
              (if q == Ptr(next.Space()) then (Grow(h1, i), Ptr(h.blocks[i].Space())) else (h1, Abort))
         && (q == Ptr(next.Space()) ==>
               UsedBlock(h1, i, h.blocks[i].addr) && i + 1 < |h1.blocks| && !h1.blocks[i + 1].free && Joins(h1.blocks, i)
               && h1.blocks[i + 1].addr == next.addr)
  {
    var next := h.blocks[i + 1];
    var h0 := h.(start := next.addr);
    var m := Missing(h.blocks[i], size);
    StartAtFree(h, i + 1);
    assert FreeAt(h.blocks, next.addr);
    GrowthNeed(h, i, size);
    hide WF, Malloc, RoundUp, Shape;
    if m > 0 {
      if RoundUp(m) <= next.size {
        MallocAtStart(os, h0, m, i + 1);
        TakenPair(h0, i, RoundUp(m));
      } else {
        MallocPastStart(os, h0, m, i + 1);
      }
    } else {
      NoMalloc(os, h0, m);
    }
  }

  // Between malloc and the copy: the old header is untouched, and the copy is in order.
  lemma MoveReady(v: Headers, os: Os, h: Heap, i: nat, n: int)
    requires WF(h) && i < |h.blocks| && !h.blocks[i].free && 0 < n && h.blocks[i].size <= n
    requires Stamped(h.mem, h.blocks[i].cs2, h.blocks[i].addr)
    requires var (h1, q) := Malloc(os, h, n); q.Ptr? && Represents(v, h1)
    ensures var b := h.blocks[i]; var (h1, q) := Malloc(os, h, n);
      var h2 := h1.(mem := Copy(h1.mem, q.p, b.Space(), b.size));
      b.addr in v.size && v.size[b.addr] == b.size && Represents(v, h2) && Live(h2, b.Space())
  {
    var b := h.blocks[i];
    MoveCopy(os, h, i, n);
    hide WF, BlockList, Circular, Flags, Malloc, Copy;
    var (h1, q) := Malloc(os, h, n);
    DataAt(v.size, v.cs2, h1.blocks, BlockOf(h1.blocks, b.Space()));
  }

  // Walking flink from the sentinel meets the blocks in address order, each once, and comes
  // back; blink is the inverse.
  lemma BlocksWalk(v: Headers, h: Heap, k: nat)
    requires Represents(v, h) && k < |h.blocks|
    ensures Follow(v.flink, HEAD, k + 1) == h.blocks[k].addr && Follow(v.flink, HEAD, k) < h.blocks[k].addr
    ensures h.blocks[k].addr in v.blink && v.blink[h.blocks[k].addr] == Follow(v.flink, HEAD, k)
    ensures Follow(v.flink, HEAD, |h.blocks| + 1) == HEAD
  {
    hide *;
    var s := [HEAD] + Addrs(h.blocks);
    RepShape(v, h);
    RepList(v, h);
    ListAt(h.blocks, k);
    Before(h.blocks, h.brk, k);
    Walk(v.flink, v.blink, s, |s|);
    Walk(v.flink, v.blink, s, k);
    Walk(v.flink, v.blink, s, k + 1);
  }

  // Walking nextfree from the sentinel meets the sentinel and every free block once.
  lemma RingWalk(v: Headers, h: Heap, k: nat)
    requires Represents(v, h) && k < |h.ring|
    ensures Follow(v.nextfree, HEAD, k) == h.ring[k]
    ensures Follow(v.nextfree, HEAD, |h.ring|) == HEAD
  {
    Walk(v.nextfree, v.prevfree, h.ring, |h.ring|);
    Walk(v.nextfree, v.prevfree, h.ring, k);
  }

  lemma {:induction false} ZeroFour(mem: map<int, Byte>, p: int, n: nat)
    ensures Zero(mem, p, n + 4) == Zero(mem, p, n)[p + n := 0][p + n + 1 := 0][p + n + 2 := 0][p + n + 3 := 0]
  {
    assert Zero(mem, p, n + 4) == Zero(mem, p, n + 3)[p + n + 3 := 0];
    assert Zero(mem, p, n + 3) == Zero(mem, p, n + 2)[p + n + 2 := 0];
    assert Zero(mem, p, n + 2) == Zero(mem, p, n + 1)[p + n + 1 := 0];
  }

  lemma ClearReady(v: Headers, os: Os, h: Heap, nelem: int, elsize: int)
    requires WF(h)
    requires var (h1, q) := Malloc(os, h, nelem * elsize); q.Ptr? && Represents(v, h1)
    ensures nelem * elsize > 0
    ensures var (h1, q) := Malloc(os, h, nelem * elsize);
      Represents(v, h1.(mem := Zero(h1.mem, q.p, nelem * elsize)))
  {
    CallocDelivers(os, h, nelem, elsize);
    hide WF, BlockList, Circular, Flags, Data, Malloc, Zero, Delivers;
  }

  lemma StoreIs(os: Os, h: Heap, p: int, offset: int, x: Byte)
    requires WF(h) && Legal(h, Store(p, offset, x))
    ensures JmallocRuns.Step(os, h, Store(p, offset, x)) == (h.(mem := h.mem[p + offset := x]), Done)
  {
    hide WF, Legal;
  }

  lemma StoreRep(v: Headers, h: Heap, p: int, offset: int, x: Byte)
    requires Represents(v, h) && Legal(h, Store(p, offset, x))
    ensures Represents(v, h.(mem := h.mem[p + offset := x]))
  {
    StoreStep(h, p, offset, x);
    hide WF, BlockList, Circular, Flags, Data;
  }

  class Allocator {
    const os: Os
    var hdr: Headers

    // the static variables
    var start: int
    var usedMem: int
    var freeMem: int
    var usedBlocks: int
    var freeBlocks: int

    // the operating system's side: the break, the calls of sbrk so far, and memory
    var brk: int
    var calls: nat
    var mem: map<int, Byte>

    ghost var h: Heap

    ghost predicate Valid()
      reads this
    {
      Represents(hdr, h) && Statics(h, start, usedMem, freeMem, usedBlocks, freeBlocks, brk, calls, mem)
    }

    // do_init
    constructor (os: Os)
      ensures Valid() && h == INITIAL && this.os == os
    {
      this.os := os;
      var self := map[HEAD := HEAD];
      hdr := Headers(self, self, self, self, map[HEAD := 0], map[HEAD := HEAD + 48]);
      start := HEAD;
      usedMem, freeMem, usedBlocks, freeBlocks := 0, 0, 0, 0;
      brk, calls, mem := INITIAL.brk, 0, map[];
      h := INITIAL;
      new;
      InitialKeeps();
      assert Addrs([]) == [];
    }

    // sbrk(n): the old break, or -1
    method Sbrk(n: int) returns (p: int)
      requires n >= 0 && brk >= 0
      modifies `brk, `calls
      ensures calls == old(calls) + 1
      ensures match os(old(calls), n)
        case None => p == -1 && brk == old(brk)
        case Some(gap) => p == old(brk) + PTSZ * gap && brk == p + n
    {
      var answer := os(calls, n);
      calls := calls + 1;
      match answer
      case None => p := -1;
      case Some(gap) =>
        p := brk + PTSZ * gap;
        brk := p + n;
    }

    // set_used, lines 92-106
    method SetUsed(l: int, ghost i: nat) returns (p: int)
      requires Valid() && FreeBlock(h, i, l)
      modifies this
      ensures i < |old(h).blocks| && l == old(h).blocks[i].addr && l in old(h).ring
      ensures Valid() && h == JmallocHeap.SetUsed(old(h), i) && p == l + JMSZ - PTSZ
    {
      hide Represents, JmallocHeap.SetUsed, FreeBlock;
      SetUsedRep(hdr, h, i, l);
      h := JmallocHeap.SetUsed(h, i);
      start := hdr.nextfree[l];
      hdr := hdr.Nextfree(hdr.prevfree[l], hdr.nextfree[l]);
      hdr := hdr.Prevfree(hdr.nextfree[l], hdr.prevfree[l]);
      hdr := hdr.Prevfree(l, 0);
      hdr := hdr.Nextfree(l, 0);
      usedMem := usedMem + hdr.size[l];
      freeMem := freeMem - hdr.size[l];
      usedBlocks := usedBlocks + 1;
      freeBlocks := freeBlocks - 1;
      p := l + JMSZ - PTSZ;
    }

    // free, the branch without a free left neighbour: lines 295-298 and 310-313
    method EnterRing(l: int, ghost i: nat)
      requires Valid() && UsedBlock(h, i, l) && Stamped(h.mem, h.blocks[i].cs2, l)
      modifies this
      ensures i < |old(h).blocks| && old(h).start in old(h).ring
      ensures Valid() && h == FreeInto(old(h), i)
    {
      hide Represents, FreeInto, UsedBlock;
      FreeIntoRep(hdr, h, i, l);
      h := FreeInto(h, i);
      usedMem := usedMem - hdr.size[l];
      freeMem := freeMem + hdr.size[l];
      freeBlocks := freeBlocks + 1;
      usedBlocks := usedBlocks - 1;
      hdr := hdr.Prevfree(l, start);
      hdr := hdr.Nextfree(l, hdr.nextfree[start]);
      hdr := hdr.Prevfree(hdr.nextfree[l], l);
      hdr := hdr.Nextfree(hdr.prevfree[l], l);
    }

    // free, the branch with a free left neighbour: lines 295-298 and 303-308
    method MergeLeft(l: int, pl: int, nl: int, ghost i: nat)
      requires Valid() && UsedBlock(h, i, l) && 0 < i && h.blocks[i - 1].free && Joins(h.blocks, i - 1)
      requires l in hdr.blink && l in hdr.flink && pl == hdr.blink[l] && nl == hdr.flink[l]
      modifies this
      ensures 0 < i < |old(h).blocks|
      ensures Valid() && h == FreeLeft(old(h), i)
    {
      hide Represents, FreeLeft, UsedBlock;
      FreeLeftRep(hdr, h, i, l);
      h := FreeLeft(h, i);
      usedMem := usedMem - hdr.size[l];
      freeMem := freeMem + hdr.size[l];
      usedBlocks := usedBlocks - 1;
      freeMem := freeMem + JMSZ;
      hdr := hdr.Size(pl, hdr.size[pl] + (hdr.size[l] + JMSZ));
      hdr := hdr.Flink(pl, nl);
      hdr := hdr.Blink(hdr.flink[pl], pl);
    }

    // free, a free right neighbour: lines 317-325
    method MergeRight(l: int, nl: int, ghost k: nat)
      requires Valid() && k + 1 < |h.blocks| && h.blocks[k].free && h.blocks[k + 1].free && Joins(h.blocks, k)
      requires l == h.blocks[k].addr && nl == h.blocks[k + 1].addr
      modifies this
      ensures k + 1 < |old(h).blocks| && old(h).blocks[k + 1].addr in old(h).ring
      ensures Valid() && h == MergeNext(old(h), k)
    {
      hide Represents, MergeNext;
      MergeNextRep(hdr, h, k, l, nl);
      h := MergeNext(h, k);
      freeMem := freeMem + JMSZ;
      hdr := hdr.Size(l, hdr.size[l] + (hdr.size[nl] + JMSZ));
      hdr := hdr.Flink(l, hdr.flink[nl]);
      hdr := hdr.Blink(hdr.flink[l], l);
      freeBlocks := freeBlocks - 1;
      hdr := hdr.Prevfree(hdr.nextfree[nl], hdr.prevfree[nl]);
      hdr := hdr.Nextfree(hdr.prevfree[nl], hdr.nextfree[nl]);
      start := l;
    }

    // malloc, a new segment at newl: lines 160-177
    method AddSegment(newl: int, newsize: int)
      requires Represents(hdr, h) && Statics(h, start, usedMem, freeMem, usedBlocks, freeBlocks, h.brk, calls, mem)
      requires h.brk <= newl && newl % PTSZ == 0 && newsize % PTSZ == 0 && JMSZ <= newsize && brk == newl + newsize
      modifies this
      ensures Valid() && h == AddSeg(old(h), newl, newsize)
    {
      hide Represents, AddSeg, Stamp;
      AddSegRep(hdr, h, newl, newsize);
      h := AddSeg(h, newl, newsize);
      hdr := hdr.Flink(newl, HEAD);
      hdr := hdr.Blink(newl, hdr.blink[HEAD]);
      hdr := hdr.Blink(hdr.flink[newl], newl);
      hdr := hdr.Flink(hdr.blink[newl], newl);
      hdr := hdr.Nextfree(newl, HEAD);
      hdr := hdr.Prevfree(newl, hdr.prevfree[HEAD]);
      hdr := hdr.Prevfree(hdr.nextfree[newl], newl);
      hdr := hdr.Nextfree(hdr.prevfree[newl], newl);
      hdr := hdr.Size(newl, brk - (newl + JMSZ - PTSZ) - PTSZ);
      freeMem := freeMem + hdr.size[newl];
      hdr := hdr.Cs2(newl, newl + JMSZ - PTSZ + hdr.size[newl]);
      mem := Stamp(mem, hdr.cs2[newl], newl);
      freeBlocks := freeBlocks + 1;
    }

    // newl follows l in the list of blocks, and anchor in the ring: lines 186-193 and 362-369
    method LinkRest(l: int, newl: int, anchor: int)
      requires l in hdr.flink && hdr.flink[l] in hdr.blink && hdr.flink[l] != newl
      requires anchor in hdr.nextfree && hdr.nextfree[anchor] in hdr.prevfree && hdr.nextfree[anchor] != newl
      modifies `hdr
      ensures hdr == old(hdr).(
        flink := old(hdr).flink[newl := old(hdr).flink[l]][l := newl],
        blink := old(hdr).blink[newl := l][old(hdr).flink[l] := newl],
        nextfree := old(hdr).nextfree[newl := old(hdr).nextfree[anchor]][anchor := newl],
        prevfree := old(hdr).prevfree[newl := anchor][old(hdr).nextfree[anchor] := newl])
    {
      var v := hdr;
      v := v.Flink(newl, v.flink[l]);
      v := v.Blink(newl, l);
      v := v.Blink(v.flink[newl], newl);
      v := v.Flink(v.blink[newl], newl);
      v := v.Nextfree(newl, v.nextfree[anchor]);
      v := v.Prevfree(newl, anchor);
      v := v.Prevfree(v.nextfree[newl], newl);
      v := v.Nextfree(v.prevfree[newl], newl);
      hdr := v;
    }

    // The rest of block l becomes a free block behind anchor in the ring: lines 184-202 of
    // malloc, where l is free and anchor is l, and lines 361-379 of realloc, where l is used
    // and anchor is start.
    method SplitBlock(l: int, n: int, anchor: int, used: bool, ghost i: nat)
      requires Valid() && Cuttable(h, i, l, n) && anchor in h.ring && used == !h.blocks[i].free
      modifies this
      ensures i < |old(h).blocks| && anchor in old(h).ring
      ensures Valid() && h == Split(old(h), i, n, anchor)
    {
      hide Represents, Split, Stamp, Cuttable;
      SplitRep(hdr, h, i, l, n, anchor);
      h := Split(h, i, n, anchor);
      var newl := l + JMSZ - PTSZ + n + PTSZ;
      LinkRest(l, newl, anchor);
      var v := hdr;
      v := v.Size(newl, v.size[l] - n - JMSZ);
      v := v.Cs2(newl, newl + JMSZ - PTSZ + v.size[newl]);
      var bytes := Stamp(mem, v.cs2[newl], newl);
      usedMem := usedMem + (if used then n - v.size[l] else 0);
      freeMem := freeMem + v.size[newl] + (if used then 0 else n - v.size[l]);
      freeBlocks := freeBlocks + 1;
      v := v.Size(l, n);
      v := v.Cs2(l, l + JMSZ - PTSZ + v.size[l]);
      bytes := Stamp(bytes, v.cs2[l], l);
      hdr, mem := v, bytes;
    }

    lemma Represented()
      requires Valid()
      ensures Represents(hdr, h) && start == h.start
    {
      hide Represents;
    }

    // The search of malloc: lines 128-139
    method SearchRing(n: int) returns (l: int, redo: bool)
      requires Valid() && n > 0
      ensures Search(h, n) == if redo then None else Some(l)
    {
      hide *;
      Represented();
      SearchFirst(hdr, h, n);
      ghost var order := From(h.ring, h.start);
      ghost var k := 0;
      var done := false;
      redo := false;
      l := start;
      while !done
        invariant k <= |order|
        invariant !done ==> k < |order| && l == order[k] && !redo
        invariant !done ==> Search(h, n) == FitFrom(h.blocks, order, k, n)
        invariant done ==> Search(h, n) == if redo then None else Some(l)
        decreases |order| - k, !done
      {
        SearchStep(hdr, h, k);
        FirstFitStep(h.blocks, order, k, n);
        if hdr.size[l] >= n {
          done := true;
          redo := false;
        } else {
          l := hdr.nextfree[l];
          done := l == start;
          redo := done;
          k := k + 1;
        }
      }
    }

    // The state after a call of sbrk that returned p for want bytes: the new segment, if there
    // is one, is not yet in the lists.
    ghost predicate Asked(h0: Heap, n: int, want: int, p: int)
      reads this
    {
      && Represents(hdr, h)
      && Request(n, want) && Asking(os, h0, h, n, want, p)
      && Statics(h, start, usedMem, freeMem, usedBlocks, freeBlocks, if p == -1 then brk else h.brk, calls, mem)
      && (p != -1 ==> h.brk <= p && p % PTSZ == 0 && brk == p + want)
    }

    // One request: lines 145 and 147-149
    method Ask(n: int, want: int, ghost h0: Heap) returns (p: int)
      requires Valid() && 0 < n && n % PTSZ == 0 && Request(n, want) && n + JMSZ <= want
      requires Obtain(os, h0, n, Want(n)) == Obtain(os, h, n, want)
      modifies this
      ensures Asked(h0, n, want, p)
    {
      hide Represents, Obtain, AddSeg, Request, Halve;
      CallsRep(hdr, h);
      AskOnce(os, h, n, want);
      p := Sbrk(want);
      h := h.(calls := h.calls + 1);
    }

    // malloc when no block fits: lines 142-177
    method MoreMemory(n: int) returns (newl: int)
      requires Valid() && n > 0 && n % PTSZ == 0
      modifies this
      ensures Valid()
      ensures Obtain(os, old(h), n, Want(n)) == (h, if newl == -1 then None else Some(newl))
    {
      hide Represents, Obtain, AddSeg, Request;
      FirstRequest(n);
      var newsize := if n > CHUNK_SIZE then n + JMSZ else CHUNK_SIZE + JMSZ;
      newl := Ask(n, newsize, h);
      while newl == -1 && newsize > n + JMSZ
        invariant Asked(old(h), n, newsize, newl)
        decreases newsize
      {
        NextRequest(n, newsize);
        newsize := newsize / 2;
        if newsize < n + JMSZ { newsize := n + JMSZ; }
        newl := Ask(n, newsize, old(h));
      }
      if newl != -1 {
        NextRequest(n, newsize);
        AddSegment(newl, newsize);
      }
    }

    // The end of malloc: lines 181-204
    method UseBlock(l: int, n: int, ghost i: nat) returns (p: int)
      requires Valid() && FreeBlock(h, i, l) && 0 < n && n % PTSZ == 0 && n <= h.blocks[i].size
      modifies this
      ensures i < |old(h).blocks| && l == old(h).blocks[i].addr && l in old(h).ring
      ensures Valid() && (h, Ptr(p)) == Take(old(h), i, n)
    {
      hide Represents, JmallocHeap.SetUsed, Split;
      UseReady(hdr, h, i, l, n);
      if hdr.size[l] - n < JMSZ {
        p := SetUsed(l, i);
      } else {
        SplitBlock(l, n, l, false, i);
        p := SetUsed(l, i);
      }
    }

    // malloc, lines 108-205; dump_core is an abort
    method Malloc(n: int) returns (r: Outcome)
      requires Valid()
      modifies this
      ensures Valid() && (h, r) == JmallocOps.Malloc(os, old(h), n)
    {
      hide Represents, JmallocOps.Malloc, Take, Obtain, Search, FreeBlock;
      HeapInOrder(hdr, h);
      if n <= 0 {
        NoMalloc(os, h, n);
        return Abort;
      }
      MallocCases(os, h, n);
      hide WF;
      var size := n;
      if size % PTSZ != 0 { size := size + (PTSZ - size % PTSZ); }
      var l, redo := SearchRing(size);
      ghost var i := Find(h.blocks, l);
      if redo {
        i := |h.blocks|;
        l := MoreMemory(size);
        if l == -1 {
          return Null;
        }
      }
      var p := UseBlock(l, size, i);
      r := Ptr(p);
    }

    // free, lines 277-326
    method Free(loc: int) returns (r: Outcome)
      requires Valid() && Live(h, loc)
      modifies this
      ensures Valid() && (h, r) == JmallocOps.Free(old(h), loc)
    {
      hide Represents, FreeInto, FreeLeft, MergeNext, UsedBlock, Stamped, Shape, RingOk, Stamps, Tiled, Counted;
      HeapInOrder(hdr, h);
      Released(hdr, h, loc);
      var l := loc - JMSZ + PTSZ;
      ghost var i := BlockOf(h.blocks, loc);
      if !Stamped(mem, hdr.cs2[l], l) {
        return Abort;
      }
      ghost var h0 := h;
      var pl, nl := hdr.blink[l], hdr.flink[l];
      var left := hdr.nextfree[pl] != 0 && pl + JMSZ - PTSZ + hdr.size[pl] + PTSZ == l;
      ghost var h1, k := FreedNext(h, i, left);
      hide WF, Release;
      if left {
        MergeLeft(l, pl, nl, i);
        l := pl;
        i := i - 1;
      } else {
        EnterRing(l, i);
      }
      RightTest(hdr, h, i, l, nl);
      if hdr.nextfree[nl] != 0 && l + JMSZ - PTSZ + hdr.size[l] + PTSZ == nl {
        MergeRight(l, nl, i);
      }
      StartRep(hdr, h, l);
      start := l;
      h := h.(start := l);
      r := Done;
    }

    // The bytes of the old block, one by one: line 410
    method CopyBytes(loc2: int, loc: int, n: int)
      requires n >= 0
      modifies `mem
      ensures mem == Copy(old(mem), loc2, loc, n)
    {
      var i := 0;
      while i < n
        invariant 0 <= i <= n
        invariant mem == Copy(old(mem), loc2, loc, i)
      {
        mem := mem[loc2 + i := Peek(mem, loc + i)];
        i := i + 1;
      }
    }

    // realloc, the used block nl becomes part of l: lines 399-406
    method TakeNeighbour(l: int, nl: int, ghost i: nat)
      requires Valid() && UsedBlock(h, i, l) && i + 1 < |h.blocks| && !h.blocks[i + 1].free && Joins(h.blocks, i)
      requires nl == h.blocks[i + 1].addr
      modifies this
      ensures i + 1 < |old(h).blocks|
      ensures Valid() && h == Grow(old(h), i)
    {
      hide Represents, Grow, Stamp, UsedBlock;
      GrowRep(hdr, h, i, l, nl);
      h := Grow(h, i);
      hdr := hdr.Blink(hdr.flink[nl], hdr.blink[nl]);
      hdr := hdr.Flink(hdr.blink[nl], hdr.flink[nl]);
      freeMem := freeMem - hdr.size[nl];
      usedMem := usedMem + (hdr.size[nl] + JMSZ);
      freeBlocks := freeBlocks - 1;
      hdr := hdr.Size(l, hdr.size[l] + (hdr.size[nl] + JMSZ));
      hdr := hdr.Cs2(l, l + JMSZ - PTSZ + hdr.size[l]);
      mem := Stamp(mem, hdr.cs2[l], l);
    }

    // realloc, the branch that takes in the free block behind l: lines 389-407
    method ReallocInPlace(l: int, nl: int, n: int, ghost i: nat) returns (r: Outcome)
      requires Valid() && UsedBlock(h, i, l) && CanGrow(h.blocks, i, n) && nl == h.blocks[i + 1].addr
      requires 0 < n && n % PTSZ == 0 && l in hdr.size && hdr.size[l] == h.blocks[i].size
      modifies this
      ensures i < |old(h).blocks| && !old(h).blocks[i].free && CanGrow(old(h).blocks, i, n)
      ensures Valid() && (h, r) == GrowInPlace(os, old(h), i, n)
    {
      hide Represents, JmallocOps.Malloc, JmallocHeap.Grow, Shape, RingOk, Stamps, Tiled, Counted, GrowInPlace;
      HeapInOrder(hdr, h);
      GrowReady(os, h, i, n);
      StartRep(hdr, h, nl);
      hide WF;
      start := nl;
      h := h.(start := nl);
      var j := n - hdr.size[l] - JMSZ;
      if j < 0 { j := 4; }
      var loc2 := Malloc(j);
      if loc2 != Ptr(nl + JMSZ - PTSZ) {
        return Abort;
      }
      TakeNeighbour(l, nl, i);
      r := Ptr(l + JMSZ - PTSZ);
    }

    // realloc, the branch that moves the block: lines 409-412
    method ReallocMove(loc: int, l: int, n: int, ghost i: nat) returns (r: Outcome)
      requires Valid() && UsedBlock(h, i, l) && h.blocks[i].Space() == loc && Stamped(h.mem, h.blocks[i].cs2, l)
      requires 0 < n && 0 <= h.blocks[i].size <= n && l in hdr.size && hdr.size[l] == h.blocks[i].size
      modifies this
      ensures i < |old(h).blocks| && !old(h).blocks[i].free && old(h).blocks[i].size <= n
      ensures Stamped(old(h).mem, old(h).blocks[i].cs2, old(h).blocks[i].addr)
      ensures Valid() && (h, r) == Move(os, old(h), i, n)
    {
      hide Represents, JmallocOps.Malloc, JmallocOps.Free, Shape, RingOk, Stamps, Tiled, Counted, Copy, Stamped;
      HeapInOrder(hdr, h);
      ghost var h0 := h;
      hide WF;
      r := Malloc(n);
      if !r.Ptr? {
        return Abort;
      }
      MoveReady(hdr, os, h0, i, n);
      CopyBytes(r.p, loc, hdr.size[l]);
      h := h.(mem := mem);
      var freed := Free(loc);
      if freed == Abort {
        return Abort;
      }
    }

    // realloc, lines 328-414; the copy through a null pointer and dump_core are aborts
    method Realloc(loc: int, n: int) returns (r: Outcome)
      requires Valid() && Live(h, loc)
      modifies this
      ensures Valid() && (h, r) == JmallocRealloc.Realloc(os, old(h), loc, n)
    {
      hide Represents, JmallocOps.Malloc, JmallocOps.Free, Split, JmallocHeap.Grow, Stamped, Shape, RingOk, Stamps, Tiled,
        Counted, UsedBlock;
      HeapInOrder(hdr, h);
      ReallocReady(hdr, h, loc);
      if n <= 0 { return Abort; }
      RoundsUp(n);
      var size := n;
      if size % PTSZ != 0 { size := size + (PTSZ - size % PTSZ); }
      var l := loc - JMSZ + PTSZ;
      ghost var i := BlockOf(h.blocks, loc);
      if !Stamped(mem, hdr.cs2[l], l) { return Abort; }
      assert size == RoundUp(n);
      hide RoundUp;
      if size < hdr.size[l] {
        if hdr.size[l] - size < JMSZ + 4 { return Ptr(loc); }
        ghost var h0 := h;
        SplitBlock(l, size, start, true, i);
        ShrinkRep(hdr, h0, i, l, size);
        start := loc + size + PTSZ;
        h := h.(start := loc + size + PTSZ);
        return Ptr(loc);
      }
      var nl := hdr.flink[l];
      RightTest(hdr, h, i, l, nl);
      if hdr.nextfree[nl] != 0 && l + JMSZ - PTSZ + hdr.size[l] + PTSZ == nl && hdr.size[l] + JMSZ + hdr.size[nl] >= size {
        r := ReallocInPlace(l, nl, size, i);
      } else {
        r := ReallocMove(loc, l, size, i);
      }
    }

    // What the program does with a block it holds: it stores a byte.
    method StoreByte(p: int, offset: int, v: Byte)
      requires Valid() && Legal(h, Store(p, offset, v))
      modifies `mem, `h
      ensures Valid() && (h, Done) == JmallocRuns.Step(os, old(h), Store(p, offset, v))
    {
      hide Represents, WF, Legal, JmallocRuns.Step;
      RepWF(hdr, h);
      StoreRep(hdr, h, p, offset, v);
      StoreIs(os, h, p, offset, v);
      mem := mem[p + offset := v];
      h := h.(mem := mem);
    }

    // The loops of calloc: whole ints first, then the remaining bytes, lines 428-429
    method Clear(p: int, n: int)
      requires n >= 0
      modifies `mem
      ensures mem == Zero(old(mem), p, n)
    {
      var i := 0;
      while i < n / 4
        invariant 0 <= i <= n / 4
        invariant mem == Zero(old(mem), p, 4 * i)
      {
        ZeroFour(old(mem), p, 4 * i);
        mem := mem[p + 4 * i := 0][p + 4 * i + 1 := 0][p + 4 * i + 2 := 0][p + 4 * i + 3 := 0];
        i := i + 1;
      }
      i := 4 * i;
      while i < n
        invariant 0 <= i <= n
        invariant mem == Zero(old(mem), p, i)
      {
        mem := mem[p + i := 0];
        i := i + 1;
      }
    }

    // calloc, lines 416-431; clearing through a null pointer is an abort
    method Calloc(nelem: int, elsize: int) returns (r: Outcome)
      requires Valid()
      modifies this
      ensures Valid() && (h, r) == JmallocRuns.Calloc(os, old(h), nelem, elsize)
    {
      hide Represents, JmallocOps.Malloc, Shape, RingOk, Stamps, Tiled, Counted, Zero;
      HeapInOrder(hdr, h);
      ghost var h0 := h;
      hide WF;
      var sz := nelem * elsize;
      r := Malloc(sz);
      if !r.Ptr? {
        return Abort;
      }
      ClearReady(hdr, os, h0, nelem, elsize);
      Clear(r.p, sz);
      h := h.(mem := mem);
    }

    // One operation of a run.
    method Perform(op: Op) returns (r: Outcome)
      requires Valid() && Legal(h, op)
      modifies this
      ensures Valid() && (h, r) == JmallocRuns.Step(os, old(h), op)
    {
      hide Represents, WF, JmallocOps.Malloc, JmallocOps.Free, JmallocRealloc.Realloc, JmallocRuns.Calloc;
      match op
      case CallMalloc(n) => r := Malloc(n);
      case CallCalloc(nelem, elsize) => r := Calloc(nelem, elsize);
      case CallFree(p) => r := Free(p);
      case CallRealloc(p, n) => r := Realloc(p, n);
      case Store(p, offset, v) =>
        StoreByte(p, offset, v);
        r := Done;
    }

    // A whole run, as far as it goes.
    method Execute(ops: seq<Op>)
      requires Valid() && WF(h) && LegalRun(os, h, ops)
      modifies this
      ensures Valid() && WF(h) && h == Run(os, old(h), ops)
    {
      hide Represents, WF, Legal, JmallocRuns.Step;
      var i := 0;
      var done := false;
      assert ops[0..] == ops;
      while i < |ops| && !done
        invariant 0 <= i <= |ops| && Valid() && WF(h)
        invariant !done ==> LegalRun(os, h, ops[i..]) && Run(os, h, ops[i..]) == Run(os, old(h), ops)
        invariant done ==> h == Run(os, old(h), ops)
      {
        assert ops[i..][0] == ops[i] && ops[i..][1..] == ops[i + 1..];
        StepKeeps(os, h, ops[i]);
        var r := Perform(ops[i]);
        done := r == Abort;
        i := i + 1;
      }
    }
  }
}
