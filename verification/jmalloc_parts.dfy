/** Every part of an allocator operation keeps the invariant of the heap. */
module JmallocParts {
  import opened JmallocHeap

  // ----- sums and searches over sequences of blocks -----

  lemma {:induction false} Concat(a: seq<Blk>, b: seq<Blk>, free: bool)
    ensures Weight(a + b, free) == Weight(a, free) + Weight(b, free)
    ensures Num(a + b, free) == Num(a, free) + Num(b, free)
  {
    if a == [] {
      assert a + b == b;
    } else {
      assert (a + b)[1..] == a[1..] + b;
      Concat(a[1..], b, free);
    }
  }

  lemma {:induction false} SegConcat(a: seq<Seg>, b: seq<Seg>)
    ensures SegTotal(a + b) == SegTotal(a) + SegTotal(b)
  {
    if a == [] {
      assert a + b == b;
    } else {
      assert (a + b)[1..] == a[1..] + b;
      SegConcat(a[1..], b);
    }
  }

  lemma InConcat(a: seq<Blk>, b: seq<Blk>, x: int)
    ensures InBlocks(a + b, x) <==> InBlocks(a, x) || InBlocks(b, x)
    ensures FreeAt(a + b, x) <==> FreeAt(a, x) || FreeAt(b, x)
  {
    if InBlocks(a, x) {
      var i :| 0 <= i < |a| && a[i].addr <= x < a[i].End();
      assert (a + b)[i] == a[i];
    }
    if InBlocks(b, x) {
      var i :| 0 <= i < |b| && b[i].addr <= x < b[i].End();
      assert (a + b)[|a| + i] == b[i];
    }
    if FreeAt(a, x) {
      var i :| 0 <= i < |a| && a[i].addr == x && a[i].free;
      assert (a + b)[i] == a[i];
    }
    if FreeAt(b, x) {
      var i :| 0 <= i < |b| && b[i].addr == x && b[i].free;
      assert (a + b)[|a| + i] == b[i];
    }
  }

  // bs with its blocks i..j replaced by mid.
  function Swap(bs: seq<Blk>, i: nat, j: nat, mid: seq<Blk>): seq<Blk>
    requires i <= j <= |bs|
  {
    bs[..i] + mid + bs[j..]
  }

  lemma SwapSums(bs: seq<Blk>, i: nat, j: nat, mid: seq<Blk>, free: bool)
    requires i <= j <= |bs|
    ensures Weight(Swap(bs, i, j, mid), free) == Weight(bs, free) - Weight(bs[i..j], free) + Weight(mid, free)
    ensures Num(Swap(bs, i, j, mid), free) == Num(bs, free) - Num(bs[i..j], free) + Num(mid, free)
  {
    Concat(bs[..i] + mid, bs[j..], free);
    Concat(bs[..i], mid, free);
    Concat(bs[..i] + bs[i..j], bs[j..], free);
    Concat(bs[..i], bs[i..j], free);
    assert bs[..i] + bs[i..j] + bs[j..] == bs;
  }

  lemma SwapIn(bs: seq<Blk>, i: nat, j: nat, mid: seq<Blk>, x: int)
    requires i <= j <= |bs|
    ensures InBlocks(Swap(bs, i, j, mid), x) <==> InBlocks(bs[..i], x) || InBlocks(mid, x) || InBlocks(bs[j..], x)
    ensures FreeAt(Swap(bs, i, j, mid), x) <==> FreeAt(bs[..i], x) || FreeAt(mid, x) || FreeAt(bs[j..], x)
    ensures InBlocks(bs, x) <==> InBlocks(bs[..i], x) || InBlocks(bs[i..j], x) || InBlocks(bs[j..], x)
    ensures FreeAt(bs, x) <==> FreeAt(bs[..i], x) || FreeAt(bs[i..j], x) || FreeAt(bs[j..], x)
  {
    InConcat(bs[..i] + mid, bs[j..], x);
    InConcat(bs[..i], mid, x);
    InConcat(bs[..i] + bs[i..j], bs[j..], x);
    InConcat(bs[..i], bs[i..j], x);
    assert bs[..i] + bs[i..j] + bs[j..] == bs;
  }

  // mid may stand where blocks i..j stood: same extent, same tiling.
  ghost predicate Fits(bs: seq<Blk>, i: nat, j: nat, mid: seq<Blk>)
    requires i < j <= |bs|
  {
    && |mid| > 0 && Sorted(mid) && (forall k :: 0 <= k < |mid| ==> BlkOk(mid[k]))
    && mid[0].addr == bs[i].addr && mid[|mid| - 1].End() == bs[j - 1].End()
    && (forall x :: InBlocks(mid, x) <==> InBlocks(bs[i..j], x))
  }

  lemma SwapShape(bs: seq<Blk>, i: nat, j: nat, mid: seq<Blk>, brk: int)
    requires i < j <= |bs| && Shape(bs, brk) && Fits(bs, i, j, mid)
    ensures Shape(Swap(bs, i, j, mid), brk)
    ensures forall x :: InBlocks(Swap(bs, i, j, mid), x) <==> InBlocks(bs, x)
  {
    var cs := Swap(bs, i, j, mid);
    forall k | 0 <= k < |cs|
      ensures BlkOk(cs[k]) && cs[k].End() <= brk
      ensures k < i ==> cs[k] == bs[k]
      ensures i <= k < i + |mid| ==> cs[k] == mid[k - i] && bs[i].addr <= cs[k].addr && cs[k].End() <= bs[j - 1].End()
      ensures i + |mid| <= k ==> cs[k] == bs[k - i - |mid| + j]
    {
    }
    assert Sorted(cs);
    forall x
      ensures InBlocks(cs, x) <==> InBlocks(bs, x)
    {
      SwapIn(bs, i, j, mid, x);
    }
  }

  lemma ShapeAt(bs: seq<Blk>, brk: int, i: nat)
    requires Shape(bs, brk) && i < |bs|
    ensures BlkOk(bs[i]) && bs[i].End() <= brk
    ensures forall j :: 0 <= j < |bs| && j != i ==> bs[j].addr != bs[i].addr
  {
  }

  // ----- rings -----

  lemma RingAfter(ring: seq<int>, a: int, y: int)
    requires NoDup(ring) && a in ring && y !in ring
    ensures var r := After(ring, a, y);
      && NoDup(r) && r[0] == ring[0]
      && forall x :: x in r <==> x in ring || x == y
  {
    var k := Pos(ring, a);
    var r := After(ring, a, y);
    forall x
      ensures x in r <==> x in ring || x == y
    {
      assert ring == ring[..k + 1] + ring[k + 1..];
    }
  }

  lemma RingWithout(ring: seq<int>, a: int)
    requires NoDup(ring) && a in ring && a != ring[0]
    ensures var r := Without(ring, a);
      && r != [] && NoDup(r) && r[0] == ring[0]
      && (forall x :: x in r <==> x in ring && x != a)
      && Succ(ring, a) in r
  {
    var k := Pos(ring, a);
    var r := Without(ring, a);
    forall x
      ensures x in r <==> x in ring && x != a
    {
      assert ring == ring[..k] + [a] + ring[k + 1..];
    }
    if k + 1 < |ring| {
      assert ring[k + 1] == r[k];
    } else {
      assert r[0] == ring[0];
    }
  }

  // ----- stamps -----

  lemma StampFrame(mem: map<int, Byte>, at: int, l: int)
    ensures Stamped(Stamp(mem, at, l), at, l)
    ensures forall a :: !(at <= a < at + 4) ==> Peek(Stamp(mem, at, l), a) == Peek(mem, a)
  {
  }

  lemma TwoStamps(mem: map<int, Byte>, at: int, l: int, at': int, l': int)
    requires at' + 4 <= at
    ensures var m := Stamp(Stamp(mem, at, l), at', l');
      && Stamped(m, at, l) && Stamped(m, at', l')
      && forall a :: !(at' <= a < at + 4) ==> Peek(m, a) == Peek(mem, a)
  {
    var m := Stamp(mem, at, l);
    StampFrame(mem, at, l);
    StampFrame(m, at', l');
    assert Stamped(m, at, l);
  }

  // A memory that differs from mem only inside block i keeps the stamps of the other blocks.
  lemma StampsElsewhere(bs: seq<Blk>, brk: int, mem: map<int, Byte>, mem': map<int, Byte>, i: nat, j: nat)
    requires Shape(bs, brk) && Stamps(bs, mem) && i < |bs| && j < |bs| && i != j
    requires bs[j].free || bs[j].cs2 == bs[j].Trailer()
    requires forall a :: !(bs[i].addr <= a < bs[i].End()) ==> Peek(mem', a) == Peek(mem, a)
    ensures Stamped(mem', bs[j].cs2, bs[j].addr)
  {
    assert Stamped(mem, bs[j].cs2, bs[j].addr);
    assert bs[i].End() <= bs[j].addr || bs[j].End() <= bs[i].addr;
  }

  // ----- the parts keep the invariant -----

  lemma AddSegShape(bs: seq<Blk>, brk: int, b: Blk)
    requires Shape(bs, brk) && BlkOk(b) && brk <= b.addr
    ensures Shape(bs + [b], b.End())
  {
  }

  lemma AddSegRing(bs: seq<Blk>, brk: int, ring: seq<int>, b: Blk)
    requires Shape(bs, brk) && RingOk(bs, ring) && b.free && brk <= b.addr && BlkOk(b)
    ensures RingOk(bs + [b], ring + [b.addr])
  {
    assert b.addr !in ring by {
      if FreeAt(bs, b.addr) { assert false; }
    }
    forall x
      ensures x in ring + [b.addr] <==> x == HEAD || FreeAt(bs + [b], x)
    {
      InConcat(bs, [b], x);
      assert FreeAt([b], x) <==> x == b.addr by { assert [b][0] == b; }
    }
  }

  lemma AddSegStamps(bs: seq<Blk>, brk: int, mem: map<int, Byte>, b: Blk)
    requires Shape(bs, brk) && Stamps(bs, mem) && BlkOk(b) && brk <= b.addr
    ensures Stamps(bs + [b], Stamp(mem, b.cs2, b.addr))
  {
    StampFrame(mem, b.cs2, b.addr);
    var bs' := bs + [b];
    forall j | 0 <= j < |bs'| && (bs'[j].free || bs'[j].cs2 == bs'[j].Trailer())
      ensures Stamped(Stamp(mem, b.cs2, b.addr), bs'[j].cs2, bs'[j].addr)
    {
      if j < |bs| {
        assert Stamped(mem, bs[j].cs2, bs[j].addr);
      }
    }
  }

  lemma AddSegTiled(bs: seq<Blk>, ss: seq<Seg>, b: Blk)
    requires Tiled(bs, ss)
    ensures Tiled(bs + [b], ss + [Seg(b.addr, b.End())])
  {
    var s := Seg(b.addr, b.End());
    var ss' := ss + [s];
    forall x
      ensures InBlocks(bs + [b], x) <==> InSegs(ss', x)
    {
      InConcat(bs, [b], x);
      assert InBlocks([b], x) <==> b.addr <= x < b.End() by { assert [b][0] == b; }
      if InSegs(ss, x) {
        var k :| 0 <= k < |ss| && ss[k].lo <= x < ss[k].hi;
        assert ss'[k] == ss[k];
      }
      assert ss'[|ss|] == s;
    }
    Concat(bs, [b], true);
    Concat(bs, [b], false);
    SegConcat(ss, [s]);
  }

  lemma AddSegKeeps(h: Heap, p: int, n: int)
    requires WF(h) && h.brk <= p && p % PTSZ == 0 && n % PTSZ == 0 && JMSZ <= n
    ensures WF(AddSeg(h, p, n))
  {
    hide RingOk, Stamps, Tiled, Sorted, Stamp;
    var b := AddSeg(h, p, n).blocks[|h.blocks|];
    AddSegShape(h.blocks, h.brk, b);
    AddSegRing(h.blocks, h.brk, h.ring, b);
    AddSegStamps(h.blocks, h.brk, h.mem, b);
    AddSegTiled(h.blocks, h.segs, b);
    Concat(h.blocks, [b], true);
    Concat(h.blocks, [b], false);
  }

  predicate Splits(b: Blk, kept: Blk, rest: Blk) {
    && kept.addr == b.addr && kept.free == b.free && rest.free
    && kept.End() == rest.addr && rest.End() == b.End()
    && BlkOk(kept) && BlkOk(rest)
    && kept.cs2 == kept.Trailer() && rest.cs2 == rest.Trailer()
  }

  lemma SplitShape(bs: seq<Blk>, brk: int, i: nat, kept: Blk, rest: Blk)
    requires Shape(bs, brk) && i < |bs| && Splits(bs[i], kept, rest)
    ensures Shape(Swap(bs, i, i + 1, [kept, rest]), brk)
    ensures forall x :: InBlocks(Swap(bs, i, i + 1, [kept, rest]), x) <==> InBlocks(bs, x)
  {
    var mid, b := [kept, rest], bs[i];
    assert bs[i..i + 1] == [b];
    forall x
      ensures InBlocks(mid, x) <==> InBlocks(bs[i..i + 1], x)
    {
      if b.addr <= x < b.End() {
        assert bs[i..i + 1][0] == b;
        if x < kept.End() { assert mid[0] == kept; } else { assert mid[1] == rest; }
      }
    }
    SwapShape(bs, i, i + 1, mid, brk);
  }

  lemma NotInside(bs: seq<Blk>, brk: int, i: nat, x: int)
    requires Shape(bs, brk) && i < |bs| && bs[i].addr < x < bs[i].End()
    ensures !FreeAt(bs, x)
  {
  }

  lemma SplitRing(bs: seq<Blk>, brk: int, ring: seq<int>, anchor: int, i: nat, kept: Blk, rest: Blk)
    requires Shape(bs, brk) && RingOk(bs, ring) && i < |bs| && anchor in ring && Splits(bs[i], kept, rest)
    ensures RingOk(Swap(bs, i, i + 1, [kept, rest]), After(ring, anchor, rest.addr))
    ensures forall a :: a in ring ==> a in After(ring, anchor, rest.addr)
    ensures rest.addr in After(ring, anchor, rest.addr)
  {
    hide After, Sorted;
    var mid, b := [kept, rest], bs[i];
    assert rest.addr !in ring by {
      NotInside(bs, brk, i, rest.addr);
    }
    RingAfter(ring, anchor, rest.addr);
    forall x
      ensures x in After(ring, anchor, rest.addr) <==> x == HEAD || FreeAt(Swap(bs, i, i + 1, mid), x)
    {
      SwapIn(bs, i, i + 1, mid, x);
      assert bs[i..i + 1] == [b];
      assert FreeAt([b], x) <==> b.free && x == b.addr by { assert [b][0] == b; }
      assert FreeAt(mid, x) <==> (b.free && x == b.addr) || x == rest.addr by {
        assert mid[0] == kept && mid[1] == rest;
      }
    }
  }

  lemma SplitStamps(bs: seq<Blk>, brk: int, mem: map<int, Byte>, i: nat, kept: Blk, rest: Blk)
    requires Shape(bs, brk) && Stamps(bs, mem) && i < |bs| && Splits(bs[i], kept, rest)
    ensures Stamps(Swap(bs, i, i + 1, [kept, rest]),
                   Stamp(Stamp(mem, rest.cs2, rest.addr), kept.cs2, kept.addr))
  {
    var mem2 := Stamp(Stamp(mem, rest.cs2, rest.addr), kept.cs2, kept.addr);
    var cs := Swap(bs, i, i + 1, [kept, rest]);
    TwoStamps(mem, rest.cs2, rest.addr, kept.cs2, kept.addr);
    forall k | 0 <= k < |cs| && (cs[k].free || cs[k].cs2 == cs[k].Trailer())
      ensures Stamped(mem2, cs[k].cs2, cs[k].addr)
    {
      if k < i {
        StampsElsewhere(bs, brk, mem, mem2, i, k);
      } else if k > i + 1 {
        StampsElsewhere(bs, brk, mem, mem2, i, k - 1);
      }
    }
  }

  lemma SplitTiled(bs: seq<Blk>, ss: seq<Seg>, i: nat, kept: Blk, rest: Blk)
    requires Tiled(bs, ss) && i < |bs| && Splits(bs[i], kept, rest)
    requires forall x :: InBlocks(Swap(bs, i, i + 1, [kept, rest]), x) <==> InBlocks(bs, x)
    ensures Tiled(Swap(bs, i, i + 1, [kept, rest]), ss)
  {
    SplitSums(bs, i, kept, rest);
  }

  lemma SplitSums(bs: seq<Blk>, i: nat, kept: Blk, rest: Blk)
    requires i < |bs| && Splits(bs[i], kept, rest)
    ensures var cs := Swap(bs, i, i + 1, [kept, rest]);
      && Weight(cs, true) == Weight(bs, true) - (if bs[i].free then JMSZ else -rest.size)
      && Weight(cs, false) == Weight(bs, false) - (if bs[i].free then 0 else rest.size + JMSZ)
      && Num(cs, true) == Num(bs, true) + 1
      && Num(cs, false) == Num(bs, false)
  {
    SwapSums(bs, i, i + 1, [kept, rest], true);
    SwapSums(bs, i, i + 1, [kept, rest], false);
    assert bs[i..i + 1] == [bs[i]] && [kept, rest] == [kept] + [rest];
    Concat([kept], [rest], true);
    Concat([kept], [rest], false);
  }

  lemma SplitKeeps(h: Heap, i: nat, size: int, anchor: int)
    requires WF(h) && i < |h.blocks| && anchor in h.ring
    requires 0 < size && size % PTSZ == 0 && size + JMSZ <= h.blocks[i].size
    ensures WF(Split(h, i, size, anchor))
    ensures forall a :: a in h.ring ==> a in Split(h, i, size, anchor).ring
    ensures var h' := Split(h, i, size, anchor);
      i + 1 < |h'.blocks| && Splits(h.blocks[i], h'.blocks[i], h'.blocks[i + 1]) && h'.blocks[i].size == size
      && h'.blocks[i + 1].addr in h'.ring
  {
    hide Shape, RingOk, Stamps, Tiled, Stamp, After;
    ShapeAt(h.blocks, h.brk, i);
    var h' := Split(h, i, size, anchor);
    var kept, rest := h'.blocks[i], h'.blocks[i + 1];
    assert h'.blocks == Swap(h.blocks, i, i + 1, [kept, rest]);
    assert Splits(h.blocks[i], kept, rest);
    SplitShape(h.blocks, h.brk, i, kept, rest);
    SplitRing(h.blocks, h.brk, h.ring, anchor, i, kept, rest);
    SplitStamps(h.blocks, h.brk, h.mem, i, kept, rest);
    SplitTiled(h.blocks, h.segs, i, kept, rest);
    SplitSums(h.blocks, i, kept, rest);
    assert h'.ring == After(h.ring, anchor, rest.addr);
  }

  // ----- one block changes its state -----

  predicate Restates(b: Blk, b': Blk) {
    b'.addr == b.addr && b'.size == b.size && BlkOk(b')
  }

  lemma PutShape(bs: seq<Blk>, brk: int, i: nat, b': Blk)
    requires Shape(bs, brk) && i < |bs| && Restates(bs[i], b')
    ensures Shape(bs[i := b'], brk)
    ensures forall x :: InBlocks(bs[i := b'], x) <==> InBlocks(bs, x)
  {
    assert bs[i := b'] == Swap(bs, i, i + 1, [b']);
    forall x
      ensures InBlocks([b'], x) <==> InBlocks(bs[i..i + 1], x)
    {
      assert [b'][0] == b' && bs[i..i + 1][0] == bs[i];
    }
    SwapShape(bs, i, i + 1, [b'], brk);
  }

  lemma PutSums(bs: seq<Blk>, i: nat, b': Blk, free: bool)
    requires i < |bs|
    ensures Weight(bs[i := b'], free) ==
      Weight(bs, free) - (if bs[i].free == free then bs[i].size else 0) + (if b'.free == free then b'.size else 0)
    ensures Num(bs[i := b'], free) ==
      Num(bs, free) - (if bs[i].free == free then 1 else 0) + (if b'.free == free then 1 else 0)
  {
    assert bs[i := b'] == Swap(bs, i, i + 1, [b']) && bs[i..i + 1] == [bs[i]];
    SwapSums(bs, i, i + 1, [b'], free);
  }

  lemma PutFreeAt(bs: seq<Blk>, brk: int, i: nat, b': Blk, x: int)
    requires Shape(bs, brk) && i < |bs| && b'.addr == bs[i].addr
    ensures FreeAt(bs[i := b'], x) <==> if x == b'.addr then b'.free else FreeAt(bs, x)
  {
    var cs := bs[i := b'];
    if x == b'.addr {
      if b'.free { assert cs[i].free; }
      if FreeAt(cs, x) {
        var k :| 0 <= k < |cs| && cs[k].addr == x && cs[k].free;
        assert k == i by { ShapeAt(bs, brk, i); }
      }
    } else {
      if FreeAt(bs, x) {
        var k :| 0 <= k < |bs| && bs[k].addr == x && bs[k].free;
        assert cs[k] == bs[k];
      }
      if FreeAt(cs, x) {
        var k :| 0 <= k < |cs| && cs[k].addr == x && cs[k].free;
        assert cs[k] == bs[k];
      }
    }
  }

  lemma PutStamps(bs: seq<Blk>, mem: map<int, Byte>, i: nat, b': Blk)
    requires Stamps(bs, mem) && i < |bs|
    requires b'.free || b'.cs2 == b'.Trailer() ==> Stamped(mem, b'.cs2, b'.addr)
    ensures Stamps(bs[i := b'], mem)
  {
    hide Stamped;
  }

  // ----- a block takes in the block behind it -----

  ghost predicate Joins(bs: seq<Blk>, i: nat) {
    i + 1 < |bs| && bs[i].End() == bs[i + 1].addr
  }

  lemma JoinShape(bs: seq<Blk>, brk: int, i: nat)
    requires Shape(bs, brk) && Joins(bs, i)
    ensures Shape(Join(bs, i), brk)
    ensures forall x :: InBlocks(Join(bs, i), x) <==> InBlocks(bs, x)
  {
    var old2 := bs[i..i + 2];
    var b := bs[i].(size := bs[i].size + bs[i + 1].size + JMSZ);
    assert Join(bs, i) == Swap(bs, i, i + 2, [b]);
    forall x
      ensures InBlocks([b], x) <==> InBlocks(old2, x)
    {
      assert [b][0] == b && old2[0] == bs[i] && old2[1] == bs[i + 1];
    }
    ShapeAt(bs, brk, i);
    ShapeAt(bs, brk, i + 1);
    SwapShape(bs, i, i + 2, [b], brk);
  }

  lemma JoinSums(bs: seq<Blk>, i: nat, free: bool)
    requires i + 1 < |bs|
    ensures var f := bs[i].free == free; var g := bs[i + 1].free == free;
      && Weight(Join(bs, i), free) == Weight(bs, free) - (if g then bs[i + 1].size else 0) + (if f then bs[i + 1].size + JMSZ else 0)
      && Num(Join(bs, i), free) == Num(bs, free) - (if g then 1 else 0)
  {
    var b := bs[i].(size := bs[i].size + bs[i + 1].size + JMSZ);
    assert Join(bs, i) == Swap(bs, i, i + 2, [b]) && bs[i..i + 2] == [bs[i]] + [bs[i + 1]];
    SwapSums(bs, i, i + 2, [b], free);
    Concat([bs[i]], [bs[i + 1]], free);
  }

  lemma JoinFreeAt(bs: seq<Blk>, brk: int, i: nat, x: int)
    requires Shape(bs, brk) && i + 1 < |bs|
    ensures FreeAt(Join(bs, i), x) <==> FreeAt(bs, x) && x != bs[i + 1].addr
  {
    var b := bs[i].(size := bs[i].size + bs[i + 1].size + JMSZ);
    OnlyAt(bs, brk, i + 1, x);
    ShapeAt(bs, brk, i + 1);
    hide Shape, Sorted;
    var two := bs[i..i + 2];
    SwapIn(bs, i, i + 2, [b], x);
    assert Join(bs, i) == Swap(bs, i, i + 2, [b]);
    assert two[0] == bs[i] && two[1] == bs[i + 1] && [b][0] == b;
    assert FreeAt([b], x) <==> b.free && x == b.addr;
  }

  // No block in front of i or behind it is at its address.
  lemma OnlyAt(bs: seq<Blk>, brk: int, i: nat, x: int)
    requires Shape(bs, brk) && 0 < i < |bs|
    ensures x == bs[i].addr ==> !FreeAt(bs[..i - 1], x) && !FreeAt(bs[i + 1..], x)
  {
  }

  lemma JoinStamps(bs: seq<Blk>, mem: map<int, Byte>, i: nat)
    requires Stamps(bs, mem) && i + 1 < |bs| && bs[i].free
    ensures Stamps(Join(bs, i), mem)
  {
    hide Stamped;
    var cs := Join(bs, i);
    forall k | 0 <= k < |cs| && (cs[k].free || cs[k].cs2 == cs[k].Trailer())
      ensures Stamped(mem, cs[k].cs2, cs[k].addr)
    {
      if k > i { assert cs[k] == bs[k + 1]; }
    }
  }

  // ----- the remaining parts keep the invariant -----

  lemma SetUsedRing(bs: seq<Blk>, brk: int, ring: seq<int>, i: nat)
    requires Shape(bs, brk) && RingOk(bs, ring) && i < |bs| && bs[i].free
    ensures bs[i].addr in ring && RingOk(bs[i := bs[i].(free := false)], Without(ring, bs[i].addr))
  {
    var l := bs[i].addr;
    assert FreeAt(bs, l);
    ShapeAt(bs, brk, i);
    RingWithout(ring, l);
    hide Without, FreeAt;
    forall x
      ensures x in Without(ring, l) <==> x == HEAD || FreeAt(bs[i := bs[i].(free := false)], x)
    {
      PutFreeAt(bs, brk, i, bs[i].(free := false), x);
    }
  }

  lemma SetUsedKeeps(h: Heap, i: nat)
    requires WF(h) && i < |h.blocks| && h.blocks[i].free && h.blocks[i].size > 0
    ensures h.blocks[i].addr in h.ring && WF(SetUsed(h, i))
  {
    var b := h.blocks[i];
    var b' := b.(free := false);
    SetUsedRing(h.blocks, h.brk, h.ring, i);
    ShapeAt(h.blocks, h.brk, i);
    SuccIn(h.ring, b.addr);
    hide RingOk;
    hide Without, Succ, FreeAt, Stamped, Sorted;
    PutShape(h.blocks, h.brk, i, b');
    PutStamps(h.blocks, h.mem, i, b');
    PutSums(h.blocks, i, b', true);
    PutSums(h.blocks, i, b', false);
    hide Shape, Stamps, InBlocks, InSegs;
  }

  lemma SuccIn(ring: seq<int>, a: int)
    requires NoDup(ring) && a in ring && a != ring[0]
    ensures Succ(ring, a) in Without(ring, a)
  {
    RingWithout(ring, a);
  }

  lemma FreeIntoRing(bs: seq<Blk>, brk: int, ring: seq<int>, start: int, i: nat)
    requires Shape(bs, brk) && RingOk(bs, ring) && start in ring && i < |bs| && !bs[i].free
    ensures bs[i].addr !in ring
    ensures RingOk(bs[i := bs[i].(free := true)], After(ring, start, bs[i].addr))
    ensures start in After(ring, start, bs[i].addr) && bs[i].addr in After(ring, start, bs[i].addr)
  {
    var l := bs[i].addr;
    UsedNotFree(bs, brk, i, l);
    ShapeAt(bs, brk, i);
    RingAfter(ring, start, l);
    hide After, FreeAt;
    forall x
      ensures x in After(ring, start, l) <==> x == HEAD || FreeAt(bs[i := bs[i].(free := true)], x)
    {
      PutFreeAt(bs, brk, i, bs[i].(free := true), x);
    }
  }

  lemma FreeIntoKeeps(h: Heap, i: nat)
    requires WF(h) && i < |h.blocks| && !h.blocks[i].free && Stamped(h.mem, h.blocks[i].cs2, h.blocks[i].addr)
    ensures WF(FreeInto(h, i)) && h.blocks[i].addr in FreeInto(h, i).ring
  {
    var b := h.blocks[i];
    var b' := b.(free := true);
    FreeIntoRing(h.blocks, h.brk, h.ring, h.start, i);
    ShapeAt(h.blocks, h.brk, i);
    hide RingOk;
    hide After, FreeAt, Stamped, Sorted;
    PutShape(h.blocks, h.brk, i, b');
    PutStamps(h.blocks, h.mem, i, b');
    PutSums(h.blocks, i, b', true);
    PutSums(h.blocks, i, b', false);
    hide Shape, Stamps, InBlocks, InSegs;
  }

  lemma FreeLeftKeeps(h: Heap, i: nat)
    requires WF(h) && 0 < i < |h.blocks| && !h.blocks[i].free && h.blocks[i - 1].free && Joins(h.blocks, i - 1)
    ensures WF(FreeLeft(h, i))
  {
    forall x
      ensures x in h.ring <==> x == HEAD || FreeAt(Join(h.blocks, i - 1), x)
    {
      JoinFreeAt(h.blocks, h.brk, i - 1, x);
      PutFreeAt(h.blocks, h.brk, i, h.blocks[i], x);
      assert h.blocks[i := h.blocks[i]] == h.blocks;
    }
    hide FreeAt, Stamped, Sorted;
    JoinShape(h.blocks, h.brk, i - 1);
    JoinStamps(h.blocks, h.mem, i - 1);
    JoinSums(h.blocks, i - 1, true);
    JoinSums(h.blocks, i - 1, false);
    hide Shape, Stamps, InBlocks, InSegs;
  }

  lemma MergeRing(bs: seq<Blk>, brk: int, ring: seq<int>, k: nat)
    requires Shape(bs, brk) && RingOk(bs, ring) && k + 1 < |bs| && bs[k].free && bs[k + 1].free
    ensures bs[k + 1].addr in ring
    ensures RingOk(Join(bs, k), Without(ring, bs[k + 1].addr))
    ensures bs[k].addr in Without(ring, bs[k + 1].addr)
  {
    var n := bs[k + 1].addr;
    assert FreeAt(bs, n) && FreeAt(bs, bs[k].addr);
    ShapeAt(bs, brk, k);
    ShapeAt(bs, brk, k + 1);
    RingWithout(ring, n);
    hide Without, FreeAt, Sorted;
    forall x
      ensures x in Without(ring, n) <==> x == HEAD || FreeAt(Join(bs, k), x)
    {
      JoinFreeAt(bs, brk, k, x);
    }
  }

  lemma MergeNextKeeps(h: Heap, k: nat)
    requires WF(h) && k + 1 < |h.blocks| && h.blocks[k].free && h.blocks[k + 1].free && Joins(h.blocks, k)
    ensures h.blocks[k + 1].addr in h.ring && WF(MergeNext(h, k))
  {
    MergeRing(h.blocks, h.brk, h.ring, k);
    hide Without, RingOk, FreeAt, Stamped, Sorted;
    JoinShape(h.blocks, h.brk, k);
    JoinStamps(h.blocks, h.mem, k);
    JoinSums(h.blocks, k, true);
    JoinSums(h.blocks, k, false);
    hide Shape, Stamps, InBlocks, InSegs;
  }

  lemma GrowRing(bs: seq<Blk>, brk: int, ring: seq<int>, i: nat, b: Blk)
    requires Shape(bs, brk) && RingOk(bs, ring) && Joins(bs, i) && !bs[i].free && !bs[i + 1].free
    requires b.addr == bs[i].addr && !b.free
    ensures RingOk(Join(bs, i)[i := b], ring)
  {
    var cs := Join(bs, i);
    JoinShape(bs, brk, i);
    hide FreeAt, Sorted;
    forall x
      ensures x in ring <==> x == HEAD || FreeAt(cs[i := b], x)
    {
      JoinFreeAt(bs, brk, i, x);
      UsedNotFree(bs, brk, i, x);
      UsedNotFree(bs, brk, i + 1, x);
      PutFreeAt(cs, brk, i, b, x);
    }
  }

  lemma UsedNotFree(bs: seq<Blk>, brk: int, i: nat, x: int)
    requires Shape(bs, brk) && i < |bs| && !bs[i].free
    ensures x == bs[i].addr ==> !FreeAt(bs, x)
  {
    ShapeAt(bs, brk, i);
  }

  lemma GrowKeeps(h: Heap, i: nat)
    requires WF(h) && i + 1 < |h.blocks| && !h.blocks[i].free && !h.blocks[i + 1].free && Joins(h.blocks, i)
    ensures WF(Grow(h, i))
  {
    hide Shape, RingOk, Stamps, InBlocks, InSegs, FreeAt, Stamped, Sorted, Stamp;
    var bs := Join(h.blocks, i);
    var b := bs[i].(cs2 := bs[i].Trailer());
    GrowRing(h.blocks, h.brk, h.ring, i, b);
    GrowStamps(h, i);
    ShapeAt(h.blocks, h.brk, i + 1);
    JoinShape(h.blocks, h.brk, i);
    ShapeAt(bs, h.brk, i);
    PutShape(bs, h.brk, i, b);
    GrowSums(h.blocks, i, b);
  }

  lemma GrowSums(bs: seq<Blk>, i: nat, b: Blk)
    requires i + 1 < |bs| && !bs[i].free && !bs[i + 1].free && !b.free && b.size == bs[i].size + bs[i + 1].size + JMSZ
    ensures var cs := Join(bs, i)[i := b];
      && Weight(cs, true) == Weight(bs, true) && Weight(cs, false) == Weight(bs, false) + JMSZ
      && Num(cs, true) == Num(bs, true) && Num(cs, false) == Num(bs, false) - 1
  {
    JoinSums(bs, i, true);
    JoinSums(bs, i, false);
    PutSums(Join(bs, i), i, b, true);
    PutSums(Join(bs, i), i, b, false);
  }

  lemma GrowStamps(h: Heap, i: nat)
    requires Shape(h.blocks, h.brk) && Stamps(h.blocks, h.mem) && i + 1 < |h.blocks| && Joins(h.blocks, i)
    ensures Stamps(Grow(h, i).blocks, Grow(h, i).mem)
  {
    var h' := Grow(h, i);
    var b := h'.blocks[i];
    StampFrame(h.mem, b.cs2, b.addr);
    ShapeAt(h.blocks, h.brk, i);
    forall k | 0 <= k < |h'.blocks| && (h'.blocks[k].free || h'.blocks[k].cs2 == h'.blocks[k].Trailer())
      ensures Stamped(h'.mem, h'.blocks[k].cs2, h'.blocks[k].addr)
    {
      if k != i {
        var j := if k < i then k else k + 1;
        assert h'.blocks[k] == h.blocks[j];
        StampsElsewhere(h.blocks, h.brk, h.mem, h'.mem, i + 1, j);
      }
    }
  }
}
