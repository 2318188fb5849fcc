/** Runs of a program that calls tools/jgraph/jmalloc.c and reaches what the theorems leave open. */
module JmallocWitness {
  import opened Options
  import opened JmallocHeap
  import opened JmallocOps
  import opened JmallocRealloc
  import opened JmallocRuns
  import opened JmallocNumbers
  import opened JmallocTheorems
  import opened JmallocCoalesce

  // ----- a run that aborts although the program stayed inside its block -----

  const ALWAYS_MORE: Os := (k, n) => Some(0)
  const A: int := 2 * HEAD
  const P: int := A + JMSZ - PTSZ
  const R: int := A + JMSZ + 104

  const WHOLE: Blk := Blk(A, CHUNK_SIZE, true, P + CHUNK_SIZE)
  const FIRST: Blk := Blk(A, 104, true, P + 104)
  const REST: Blk := Blk(R, CHUNK_SIZE - 104 - JMSZ, true, P + CHUNK_SIZE)
  const MERGED: Blk := Blk(A, CHUNK_SIZE, true, P + 104)

  lemma FirstObtain()
    ensures var (h0, r) := Obtain(ALWAYS_MORE, INITIAL, 104, CHUNK_SIZE + JMSZ);
      r == Some(A) && h0.blocks == [WHOLE] && h0.ring == [HEAD, A]
    ensures Search(INITIAL, 104) == None
  {
    hide Stamp;
    assert From([HEAD], HEAD) == [HEAD];
  }

  lemma FirstTake(h: Heap)
    requires h.blocks == [WHOLE] && h.ring == [HEAD, A]
    ensures var (h1, r) := Take(h, 0, 104);
      && r == Ptr(P) && h1.blocks == [FIRST.(free := false), REST] && h1.ring == [HEAD, R] && h1.start == R
  {
    hide Stamp;
    var hs := Split(h, 0, 104, A);
    assert hs.ring == [HEAD, A, R] && hs.blocks == [FIRST, REST];
  }

  lemma FreeFirst(h: Heap)
    requires WF(h) && h.blocks == [FIRST.(free := false), REST] && h.ring == [HEAD, R] && h.start == R
    ensures Live(h, P)
    ensures var (h1, r) := Free(h, P);
      r == Done && h1.blocks == [MERGED] && h1.ring == [HEAD, A] && h1.start == A
  {
    assert h.blocks[0].cs2 == h.blocks[0].Trailer();
    assert Stamped(h.mem, h.blocks[0].cs2, h.blocks[0].addr);
    FreeStamped(h, P);
    hide WF, Stamped;
    assert BlockOf(h.blocks, P) == 0;
    var h1 := FreeInto(h, 0);
    assert h1.ring == [HEAD, R, A] && h1.blocks == [FIRST, REST];
    assert Without(h1.ring, R) == [HEAD, A];
  }

  lemma SecondTake(h: Heap)
    requires h.blocks == [MERGED] && h.ring == [HEAD, A] && h.start == A
    ensures Search(h, CHUNK_SIZE) == Some(A) && Find(h.blocks, A) == 0
    ensures var (h1, r) := Take(h, 0, CHUNK_SIZE);
      r == Ptr(P) && h1.blocks == [MERGED.(free := false)]
  {
    assert From(h.ring, A) == [A, HEAD];
  }

  // Whether some call of a run aborts.
  ghost predicate Aborts(os: Os, h: Heap, ops: seq<Op>)
    requires WF(h) && LegalRun(os, h, ops)
    decreases ops
  {
    ops != [] &&
    var (h1, r) := Step(os, h, ops[0]);
    StepKeeps(os, h, ops[0]);
    r == Abort || Aborts(os, h1, ops[1..])
  }

  lemma Before(os: Os, h: Heap, op: Op, h1: Heap, ops: seq<Op>)
    requires WF(h) && Legal(h, op) && Step(os, h, op).0 == h1 && Step(os, h, op).1 != Abort
    requires WF(h1) && LegalRun(os, h1, ops) && Aborts(os, h1, ops)
    ensures LegalRun(os, h, [op] + ops) && Aborts(os, h, [op] + ops)
  {
    hide WF, Step, Legal;
    assert ([op] + ops)[1..] == ops;
  }

  lemma LastFree(h: Heap, v: Byte)
    requires WF(h) && h.blocks == [MERGED.(free := false)] && v != StampByte(A, 0)
    ensures var run := [Store(P, 104, v), CallFree(P)];
      LegalRun(ALWAYS_MORE, h, run) && Aborts(ALWAYS_MORE, h, run)
  {
    assert BlockOf(h.blocks, P) == 0;
    var op := Store(P, 104, v);
    var h1 := Step(ALWAYS_MORE, h, op).0;
    StepKeeps(ALWAYS_MORE, h, op);
    assert !Stamped(h1.mem, P + 104, A);
    FreeStamped(h1, P);
    hide WF, Stamped, Free;
    assert Aborts(ALWAYS_MORE, h1, [CallFree(P)]);
    Before(ALWAYS_MORE, h, op, h1, [CallFree(P)]);
  }

  lemma LastMalloc(h: Heap, v: Byte)
    requires WF(h) && h.blocks == [MERGED] && h.ring == [HEAD, A] && h.start == A && v != StampByte(A, 0)
    ensures var run := [CallMalloc(CHUNK_SIZE), Store(P, 104, v), CallFree(P)];
      LegalRun(ALWAYS_MORE, h, run) && Aborts(ALWAYS_MORE, h, run)
  {
    SecondTake(h);
    StepKeeps(ALWAYS_MORE, h, CallMalloc(CHUNK_SIZE));
    var h1 := Step(ALWAYS_MORE, h, CallMalloc(CHUNK_SIZE)).0;
    hide WF, Take, Search, LegalRun, Aborts;
    var tail := [Store(P, 104, v), CallFree(P)];
    LastFree(h1, v);
    Before(ALWAYS_MORE, h, CallMalloc(CHUNK_SIZE), h1, tail);
    assert [CallMalloc(CHUNK_SIZE)] + tail == [CallMalloc(CHUNK_SIZE), Store(P, 104, v), CallFree(P)];
  }

  lemma FirstMalloc()
    requires WF(INITIAL)
    ensures var (h1, r) := Malloc(ALWAYS_MORE, INITIAL, 100);
      && r == Ptr(P) && h1.blocks == [FIRST.(free := false), REST] && h1.ring == [HEAD, R] && h1.start == R
  {
    FirstObtain();
    var h0 := Obtain(ALWAYS_MORE, INITIAL, 104, CHUNK_SIZE + JMSZ).0;
    FirstTake(h0);
    hide WF, Take, Obtain, Search;
    assert RoundUp(100) == 104 && Want(104) == CHUNK_SIZE + JMSZ;
  }

  lemma FirstFree(h: Heap, v: Byte)
    requires WF(h) && h.blocks == [FIRST.(free := false), REST] && h.ring == [HEAD, R] && h.start == R
    requires v != StampByte(A, 0)
    ensures var run := [CallFree(P), CallMalloc(CHUNK_SIZE), Store(P, 104, v), CallFree(P)];
      LegalRun(ALWAYS_MORE, h, run) && Aborts(ALWAYS_MORE, h, run)
  {
    FreeFirst(h);
    StepKeeps(ALWAYS_MORE, h, CallFree(P));
    hide WF, Stamped, LegalRun, Aborts, Free, StampByte;
    var h1 := Step(ALWAYS_MORE, h, CallFree(P)).0;
    LastMalloc(h1, v);
    var tail := [CallMalloc(CHUNK_SIZE), Store(P, 104, v), CallFree(P)];
    Before(ALWAYS_MORE, h, CallFree(P), h1, tail);
    assert [CallFree(P)] + tail == [CallFree(P), CallMalloc(CHUNK_SIZE), Store(P, 104, v), CallFree(P)];
  }

  lemma MallocFirst(h: Heap, h1: Heap, v: Byte)
    requires WF(h) && WF(h1) && v != StampByte(A, 0) && Malloc(ALWAYS_MORE, h, 100) == (h1, Ptr(P))
    requires h1.blocks == [FIRST.(free := false), REST] && h1.ring == [HEAD, R] && h1.start == R
    ensures var run := [CallMalloc(100), CallFree(P), CallMalloc(CHUNK_SIZE), Store(P, 104, v), CallFree(P)];
      LegalRun(ALWAYS_MORE, h, run) && Aborts(ALWAYS_MORE, h, run)
  {
    hide WF, Malloc, LegalRun, Aborts, StampByte;
    FirstFree(h1, v);
    var tail := [CallFree(P), CallMalloc(CHUNK_SIZE), Store(P, 104, v), CallFree(P)];
    Before(ALWAYS_MORE, h, CallMalloc(100), h1, tail);
    assert [CallMalloc(100)] + tail ==
      [CallMalloc(100), CallFree(P), CallMalloc(CHUNK_SIZE), Store(P, 104, v), CallFree(P)];
  }

  // The program asks for 100 bytes, frees them, asks for a whole chunk, stores a byte at
  // offset 104 of it and frees it: all legal, and the last call aborts.
  lemma LegalRunAborts(v: Byte)
    requires v != StampByte(A, 0)
    ensures WF(INITIAL)
    ensures var run := [CallMalloc(100), CallFree(P), CallMalloc(CHUNK_SIZE), Store(P, 104, v), CallFree(P)];
      LegalRun(ALWAYS_MORE, INITIAL, run) && Aborts(ALWAYS_MORE, INITIAL, run)
  {
    InitialKeeps();
    FirstMalloc();
    MallocKeeps(ALWAYS_MORE, INITIAL, 100);
    hide WF, Malloc, LegalRun, Aborts;
    MallocFirst(INITIAL, Malloc(ALWAYS_MORE, INITIAL, 100).0, v);
  }

  // ----- runs of two calls, malloc and realloc -----

  // The heap after the first malloc: one used block of 104 bytes, and the rest of the chunk.
  ghost predicate AfterFirst(h: Heap) {
    WF(h) && h.blocks == [FIRST.(free := false), REST] && h.ring == [HEAD, R] && h.start == R
  }

  lemma TwoCalls(n: int) returns (h: Heap)
    ensures WF(INITIAL) && AfterFirst(h) && WF(h) && Legal(h, CallRealloc(P, n)) && Live(h, P) && BlockOf(h.blocks, P) == 0 && Stamped(h.mem, P + 104, A)
    ensures LegalRun(ALWAYS_MORE, INITIAL, [CallMalloc(100), CallRealloc(P, n)])
    ensures Run(ALWAYS_MORE, INITIAL, [CallMalloc(100), CallRealloc(P, n)]) == Step(ALWAYS_MORE, h, CallRealloc(P, n)).0
    ensures Growths(ALWAYS_MORE, INITIAL, [CallMalloc(100), CallRealloc(P, n)]) == if Grows(h, CallRealloc(P, n)) then 1 else 0
    ensures Step(ALWAYS_MORE, INITIAL, CallMalloc(100)) == (h, Ptr(P))
  {
    InitialKeeps();
    FirstMalloc();
    MallocKeeps(ALWAYS_MORE, INITIAL, 100);
    h := Malloc(ALWAYS_MORE, INITIAL, 100).0;
    FirstStamped(h);
    assert Step(ALWAYS_MORE, INITIAL, CallMalloc(100)) == (h, Ptr(P));
    hide WF, Malloc, Realloc, Stamped, Grows, Step, Legal, AfterFirst, LegalRun, Run, Growths;
    LastRun(h, CallRealloc(P, n));
    FirstOfTwo(h, CallRealloc(P, n));
  }

  lemma FirstOfTwo(h: Heap, op: Op)
    requires WF(INITIAL) && WF(h) && Step(ALWAYS_MORE, INITIAL, CallMalloc(100)) == (h, Ptr(P)) && LegalRun(ALWAYS_MORE, h, [op])
    ensures var run := [CallMalloc(100), op];
      && LegalRun(ALWAYS_MORE, INITIAL, run) && Run(ALWAYS_MORE, INITIAL, run) == Run(ALWAYS_MORE, h, [op])
      && Growths(ALWAYS_MORE, INITIAL, run) == Growths(ALWAYS_MORE, h, [op])
  {
    hide WF, Step;
    var run := [CallMalloc(100), op];
    assert run[1..] == [op];
    StepKeeps(ALWAYS_MORE, INITIAL, run[0]);
  }

  lemma FirstStamped(h: Heap)
    requires AfterFirst(h)
    ensures Live(h, P) && BlockOf(h.blocks, P) == 0 && Stamped(h.mem, P + 104, A)
  {
    assert h.blocks[0].cs2 == h.blocks[0].Trailer();
  }

  // The free rest follows the first block at once.
  lemma FirstNext(h: Heap)
    requires AfterFirst(h)
    ensures Coalesced(h.blocks) && FreeAndNext(h.blocks, 0) && h.blocks[0].size == 104 && h.blocks[0].addr == A
    ensures h.blocks[0].cs2 == P + 104
    ensures CanGrow(h.blocks, 0, 168) && GrowFails(h.blocks, 0, 168)
    ensures CanGrow(h.blocks, 0, 200) && !GrowFails(h.blocks, 0, 200)
    ensures RoundUp(8) == 8 && RoundUp(168) == 168 && RoundUp(200) == 200
  {
  }

  // A run of one operation.
  lemma LastRun(h: Heap, op: Op)
    requires WF(h) && Legal(h, op)
    ensures LegalRun(ALWAYS_MORE, h, [op]) && Run(ALWAYS_MORE, h, [op]) == Step(ALWAYS_MORE, h, op).0
    ensures Growths(ALWAYS_MORE, h, [op]) == if Grows(h, op) then 1 else 0
  {
    hide WF, Step, Legal, Grows;
    StepKeeps(ALWAYS_MORE, h, op);
    assert [op][1..] == [];
  }

  // 168 bytes are the block, its neighbour's header and nothing more: realloc asks malloc for 0
  // bytes and aborts, although the neighbour has room for much more.
  lemma ReallocRunAborts()
    ensures WF(INITIAL)
    ensures var run := [CallMalloc(100), CallRealloc(P, 168)];
      LegalRun(ALWAYS_MORE, INITIAL, run) && Aborts(ALWAYS_MORE, INITIAL, run)
  {
    hide *;
    MallocLegal(INITIAL, 100);
    var h := TwoCalls(168);
    TooTight(h);
    OneAborts(h, CallRealloc(P, 168));
    Before(ALWAYS_MORE, INITIAL, CallMalloc(100), h, [CallRealloc(P, 168)]);
    assert [CallMalloc(100)] + [CallRealloc(P, 168)] == [CallMalloc(100), CallRealloc(P, 168)];
  }

  lemma MallocLegal(h: Heap, n: int)
    ensures Legal(h, CallMalloc(n))
  {
  }

  lemma TooTight(h: Heap)
    requires AfterFirst(h) && WF(h) && Live(h, P) && BlockOf(h.blocks, P) == 0 && Legal(h, CallRealloc(P, 168))
    ensures Step(ALWAYS_MORE, h, CallRealloc(P, 168)).1 == Abort
  {
    assert HasRoom(h.blocks, h.blocks[0], REST, 168) && Tight(h.blocks[0], REST, 168);
    hide WF, Realloc, Stamped, RoundUp, AfterFirst, BlockOf, Exhausted, Live, HasRoom, Tight;
    FirstNext(h);
    ReallocAborts(ALWAYS_MORE, h, P, 168);
  }

  lemma OneAborts(h: Heap, op: Op)
    requires WF(h) && Legal(h, op) && Step(ALWAYS_MORE, h, op).1 == Abort
    ensures LegalRun(ALWAYS_MORE, h, [op]) && Aborts(ALWAYS_MORE, h, [op])
  {
    hide WF, Step, Legal;
    assert [op][1..] == [];
  }

  // 16320 bytes are the block, its neighbour's header and all of the neighbour: realloc stays in place.
  lemma FitsExactly()
    ensures WF(INITIAL)
    ensures LegalRun(ALWAYS_MORE, INITIAL, [CallMalloc(100), CallRealloc(P, 16320)])
    ensures var (h, r) := Step(ALWAYS_MORE, INITIAL, CallMalloc(100));
      && r == Ptr(P) && WF(h) && Legal(h, CallRealloc(P, 16320))
      && Step(ALWAYS_MORE, h, CallRealloc(P, 16320)).1 == Ptr(P)
  {
    hide *;
    var h := TwoCalls(16320);
    ExactFit(h);
  }

  lemma ExactFit(h: Heap)
    requires AfterFirst(h) && WF(h) && Live(h, P) && BlockOf(h.blocks, P) == 0 && Legal(h, CallRealloc(P, 16320))
    requires Stamped(h.mem, P + 104, A)
    ensures Step(ALWAYS_MORE, h, CallRealloc(P, 16320)).1 == Ptr(P)
  {
    assert HasRoom(h.blocks, h.blocks[0], REST, 16320) && !Tight(h.blocks[0], REST, 16320);
    assert RoundUp(16320) == 16320 && h.blocks[0].cs2 == P + 104 && h.blocks[0].addr == A;
    hide WF, Realloc, Stamped, RoundUp, AfterFirst, BlockOf, Live, HasRoom, Tight;
    ReallocStays(ALWAYS_MORE, h, P, 16320);
  }

  // Cutting the first block down to 8 bytes leaves two adjacent free blocks.
  lemma UnmergedRun()
    ensures WF(INITIAL)
    ensures var run := [CallMalloc(100), CallRealloc(P, 8)];
      LegalRun(ALWAYS_MORE, INITIAL, run) && !Coalesced(Run(ALWAYS_MORE, INITIAL, run).blocks)
  {
    hide *;
    var h := TwoCalls(8);
    CutShort(h);
  }

  lemma CutShort(h: Heap)
    requires AfterFirst(h) && WF(h) && Live(h, P) && BlockOf(h.blocks, P) == 0 && Legal(h, CallRealloc(P, 8))
    requires Stamped(h.mem, P + 104, A)
    ensures !Coalesced(Step(ALWAYS_MORE, h, CallRealloc(P, 8)).0.blocks)
  {
    hide WF, Realloc, Coalesced, FreeAndNext, Stamped, RoundUp, AfterFirst, BlockOf, Live;
    FirstNext(h);
    ReallocCoalesced(ALWAYS_MORE, h, P, 8);
  }

  // Growing it to 200 bytes takes the neighbour in, and from then on each counter is wrong.
  lemma GrownRun()
    ensures WF(INITIAL)
    ensures var run := [CallMalloc(100), CallRealloc(P, 200)];
      LegalRun(ALWAYS_MORE, INITIAL, run) && Growths(ALWAYS_MORE, INITIAL, run) == 1
      && var h := Run(ALWAYS_MORE, INITIAL, run);
        && h.usedMem != Weight(h.blocks, false) && h.freeMem != Weight(h.blocks, true)
        && h.usedBlocks != Num(h.blocks, false) && h.freeBlocks != Num(h.blocks, true)
  {
    var h := TwoCalls(200);
    FirstNext(h);
    hide WF, Realloc, Run, LegalRun, CanGrow, GrowFails, Stamped, RoundUp, Growths, Weight, Num;
    assert Grows(h, CallRealloc(P, 200));
    Conservation(ALWAYS_MORE, [CallMalloc(100), CallRealloc(P, 200)]);
  }
}
