/** discoverSystemTopology of tools/pcm/cpucounters.cpp: the processors that the system lists are
    entered with the fields of their APIC ids, the package numbers found are renumbered from
    0, and every socket gets a reference core. */
module Topology {

  import opened BitFields
  import opened Options

  // What the system lists: a processor's number and its APIC id.
  datatype Processor = Processor(osId: nat, apic: nat)

  datatype Entry = Entry(osId: int, threadId: int, coreId: int, tileId: int, socket: int) {
    predicate Online() {
      osId != -1 && coreId != -1 && socket != -1
    }
  }

  const OFFLINE := Entry(-1, -1, -1, -1, -1)

  // Conversions between uint32 and int32.
  function ToInt32(x: nat): int
    requires x < WRAP
  {
    if x < WRAP / 2 then x else x - WRAP
  }

  function ToUint32(x: int): nat {
    x % WRAP
  }

  // No processor has the broadcast id.
  predicate Listed(n: nat, procs: seq<Processor>) {
    && (forall j :: 0 <= j < |procs| ==> procs[j].osId < n && procs[j].apic < WRAP - 1)
    && forall i, j :: 0 <= i < j < |procs| ==> procs[i].osId != procs[j].osId
  }

  // The package number in an APIC id.
  function Package(p: Processor, smt: nat, core: nat): nat
    requires smt + core < 32
  {
    Populate(p.apic, smt, core).socket
  }

  function Packages(procs: seq<Processor>, smt: nat, core: nat): set<nat>
    requires smt + core < 32
  {
    set j | 0 <= j < |procs| :: Package(procs[j], smt, core)
  }

  // The tile is what is left of the id above the digits of those that share an L2 cache.
  function Tile(apic: nat, l2: nat): nat
    requires l2 < 32
  {
    ExtractBits(32, apic, l2, 31)
  }

  lemma TileMeans(apic: nat, l2: nat)
    requires l2 < 32 && apic < WRAP
    ensures Tile(apic, l2) == apic / Pow2(l2) <= apic
  {
    Pow32();
    SocketMeans(apic, l2);
    Quotient(apic, l2);
    ShrAtMost(apic, l2);
  }

  function NewEntry(p: Processor, smt: nat, core: nat, l2: nat): Entry
    requires smt + core < 32 && l2 < 32 && p.apic < WRAP - 1
  {
    var ids := Populate(p.apic, smt, core);
    FieldsFit(p.apic, smt, core);
    TileMeans(p.apic, l2);
    Entry(p.osId, ToInt32(ids.thread), ToInt32(ids.core), ToInt32(Tile(p.apic, l2)), ToInt32(ids.socket))
  }

  lemma Pow32()
    ensures Pow2(32) == WRAP
  {
    PowAdd(16, 16);
    PowAdd(8, 8);
    PowAdd(4, 4);
    PowAdd(2, 2);
    PowTwo();
    hide Pow2;
  }

  lemma {:induction false} LowAtMost(v: nat, n: nat)
    ensures Low(v, n) <= v
    decreases n
  {
    if n > 0 { LowAtMost(v / 2, n - 1); }
  }

  lemma {:induction false} ShrAtMost(v: nat, n: nat)
    ensures Shr(v, n) <= v
    decreases n
  {
    if n > 0 { ShrAtMost(v / 2, n - 1); }
  }

  // The fields are uint32 values, and none is -1 as an int32.
  lemma FieldsFit(apic: nat, smt: nat, core: nat)
    requires smt + core < 32 && apic < WRAP - 1
    ensures var ids := Populate(apic, smt, core); ids.thread < WRAP - 1 && ids.core < WRAP - 1 && ids.socket < WRAP - 1
  {
    hide Populate;
    Pow32();
    IdsMean(apic, smt, core);
    LowAtMost(apic, smt);
    ShrAtMost(apic, smt + core);
    ShrAtMost(apic, smt);
    LowAtMost(Shr(apic, smt), core);
    if smt > 0 {
      ShrAtMost(apic, smt - 1);
      LowAtMost(Shr(apic, smt - 1), 2);
    }
  }

  // ----- the fields as numbers -----

  function Over(v: nat, p: nat): nat
    requires p > 0
  {
    v / p
  }

  function Under(v: nat, p: nat): nat
    requires p > 0
  {
    v % p
  }

  // An id without its last n digits, apic / 2^n, and those digits, apic % 2^n.
  function Upper(apic: nat, n: nat): nat {
    Over(apic, Pow2(n))
  }

  function Lower(apic: nat, n: nat): nat {
    Under(apic, Pow2(n))
  }

  lemma Parts(v: nat, n: nat)
    ensures Upper(v, n) == Shr(v, n) && Lower(v, n) == Low(v, n)
    ensures v == Upper(v, n) * Pow2(n) + Lower(v, n)
  {
    Quotient(v, n);
    Digits(v, n);
    hide Shr, Low, Pow2;
  }

  // The core of an id; an empty core field reads two digits from the top of the thread field on.
  function CoreNumber(apic: nat, smt: nat, core: nat): nat {
    if core > 0 then Lower(Upper(apic, smt), core) else if smt > 0 then Upper(apic, smt - 1) % 4 else 0
  }

  lemma SmallInt(x: nat)
    requires x < 0x8000_0000
    ensures ToInt32(x) == x
  {
  }

  lemma BackAndForth(x: nat)
    requires x < WRAP
    ensures ToUint32(ToInt32(x)) == x
  {
  }

  lemma {:induction false} PowGrows(a: nat, b: nat)
    requires a <= b
    ensures Pow2(a) <= Pow2(b)
  {
    if a < b { PowGrows(a, b - 1); }
  }

  lemma Pow31()
    ensures Pow2(31) == 0x8000_0000
  {
    Pow32();
    assert Pow2(32) == 2 * Pow2(31);
    hide Pow2;
  }

  lemma LowSmall(v: nat, n: nat)
    requires n < 32
    ensures Low(v, n) < 0x8000_0000
  {
    Digits(v, n);
    PowGrows(n, 31);
    Pow31();
    hide Pow2, Low;
  }

  lemma CoreIs(apic: nat, smt: nat, core: nat)
    requires smt + core < 32 && apic < WRAP
    ensures Populate(apic, smt, core).thread == Lower(apic, smt) < 0x8000_0000
    ensures Populate(apic, smt, core).core == CoreNumber(apic, smt, core) < 0x8000_0000
    ensures Populate(apic, smt, core).socket == Upper(apic, smt + core) < WRAP
  {
    Pow32();
    Small();
    hide *;
    IdsMean(apic, smt, core);
    LowSmall(apic, smt);
    Parts(apic, smt);
    Parts(apic, smt + core);
    ShrAtMost(apic, smt + core);
    CoreNumberIs(apic, smt, core);
  }

  lemma Small()
    ensures WRAP == 0x1_0000_0000
  {
  }

  lemma CoreNumberIs(apic: nat, smt: nat, core: nat)
    requires smt + core < 32
    ensures CoreNumber(apic, smt, core) < 0x8000_0000
    ensures CoreNumber(apic, smt, core) ==
      if core > 0 then Low(Shr(apic, smt), core) else if smt > 0 then Low(Shr(apic, smt - 1), 2) else 0
  {
    hide Populate, Low, Shr, Pow2, Upper, Lower;
    if core > 0 {
      Parts(apic, smt);
      Parts(Shr(apic, smt), core);
      LowSmall(Shr(apic, smt), core);
    } else if smt > 0 {
      Parts(apic, smt - 1);
      LowSmall(Shr(apic, smt - 1), 2);
      Parts(Shr(apic, smt - 1), 2);
      LowerTwo(Shr(apic, smt - 1));
    }
  }

  lemma LowerTwo(v: nat)
    ensures Lower(v, 2) == v % 4
  {
    Pow2Is4();
  }

  lemma Pow2Is4()
    ensures Pow2(2) == 4
  {
    PowTwo();
  }

  // An entry has the thread, the core, the tile and the package of its APIC id.
  lemma EntryMeans(p: Processor, smt: nat, core: nat, l2: nat)
    requires smt + core < 32 && l2 < 32 && p.apic < WRAP - 1
    ensures var e := NewEntry(p, smt, core, l2);
      && e.osId == p.osId && e.threadId == Lower(p.apic, smt) && e.coreId == CoreNumber(p.apic, smt, core)
      && ToUint32(e.tileId) == Upper(p.apic, l2) && ToUint32(e.socket) == Upper(p.apic, smt + core)
    ensures Package(p, smt, core) == Upper(p.apic, smt + core)
  {
    CoreIs(p.apic, smt, core);
    TileMeans(p.apic, l2);
    var ids := Populate(p.apic, smt, core);
    SmallInt(ids.thread);
    SmallInt(ids.core);
    BackAndForth(ids.socket);
    BackAndForth(Tile(p.apic, l2));
    hide Populate, Tile, Pow2, CoreNumber, ToUint32, ToInt32;
  }

  // The package numbers of all listed ids.
  function PackageNumbers(procs: seq<Processor>, low: nat): set<nat> {
    set j | 0 <= j < |procs| :: Upper(procs[j].apic, low)
  }

  lemma PackagesAre(n: nat, procs: seq<Processor>, smt: nat, core: nat)
    requires smt + core < 32 && Listed(n, procs)
    ensures Packages(procs, smt, core) == PackageNumbers(procs, smt + core)
  {
    hide Package, Upper;
    forall j: nat | j < |procs|
      ensures Package(procs[j], smt, core) == Upper(procs[j].apic, smt + core)
    {
      EntryMeans(procs[j], smt, core, 0);
    }
  }

  // The listed ids that differ from that of processor k in the thread only.
  function Siblings(procs: seq<Processor>, smt: nat, k: nat): set<nat>
    requires k < |procs|
  {
    set j: nat | j < |procs| && Upper(procs[j].apic, smt) == Upper(procs[k].apic, smt)
  }

  // Package and core together are what is above the thread.
  lemma AboveThread(a: nat, b: nat, smt: nat, core: nat)
    requires core > 0
    ensures Upper(a, smt) == Upper(b, smt) <==>
      Upper(a, smt + core) == Upper(b, smt + core) && CoreNumber(a, smt, core) == CoreNumber(b, smt, core)
  {
    Above(a, smt, core);
    Above(b, smt, core);
    hide Pow2, Upper, CoreNumber;
  }

  lemma Above(a: nat, smt: nat, core: nat)
    requires core > 0
    ensures Upper(a, smt) == Upper(a, smt + core) * Pow2(core) + CoreNumber(a, smt, core)
  {
    Parts(a, smt);
    Parts(a, smt + core);
    ShrShr(a, smt, core);
    Parts(Shr(a, smt), core);
    hide Shr, Low, Pow2, Upper, Lower;
  }

  // ----- the number of smaller members of a set -----

  function Smaller(s: set<nat>, x: nat): set<nat> {
    set y | y in s && y < x
  }

  function Rank(s: set<nat>, x: nat): nat {
    |Smaller(s, x)|
  }

  lemma SubsetSize(a: set<nat>, b: set<nat>)
    requires a < b
    ensures |a| < |b|
  {
    assert b == a + (b - a);
    assert |b| == |a| + |b - a|;
    assert b - a != {};
  }

  // Renumbering keeps the order, so that different numbers stay different, and ends below the size.
  lemma RankOrder(s: set<nat>, x: nat, y: nat)
    requires x in s && y in s
    ensures x < y <==> Rank(s, x) < Rank(s, y)
    ensures Rank(s, x) < |s|
  {
    if x < y {
      assert x in Smaller(s, y);
      SubsetSize(Smaller(s, x), Smaller(s, y));
    } else if y < x {
      assert y in Smaller(s, x);
      SubsetSize(Smaller(s, y), Smaller(s, x));
    }
    assert x !in Smaller(s, x);
    SubsetSize(Smaller(s, x), s);
  }

  lemma {:induction false} Greatest(s: set<nat>) returns (m: nat)
    requires s != {}
    ensures m in s && forall x :: x in s ==> x <= m
    decreases |s|
  {
    m :| m in s;
    if s != {m} {
      var r := s - {m};
      assert r < s;
      SubsetSize(r, s);
      var k := Greatest(r);
      assert forall x :: x in s ==> x == m || x in r;
      m := if k < m then m else k;
    }
  }

  // Every number below the size is given.
  lemma {:induction false} RankOnto(s: set<nat>, k: nat) returns (x: nat)
    requires k < |s|
    ensures x in s && Rank(s, x) == k
    decreases |s|
  {
    var m := Greatest(s);
    var r := s - {m};
    assert Smaller(s, m) == r && |r| == |s| - 1;
    if k == |r| {
      x := m;
    } else {
      x := RankOnto(r, k);
      assert Smaller(s, x) == Smaller(r, x);
    }
  }

  lemma {:induction false} Least(s: set<nat>) returns (m: nat)
    requires s != {}
    ensures m in s && forall x :: x in s ==> m <= x
  {
    m := RankOnto(s, 0);
    forall x | x in s
      ensures m <= x
    {
      RankOrder(s, x, m);
    }
  }

  predicate Before(a: set<nat>, b: set<nat>) {
    forall x, y :: x in a && y in b ==> x < y
  }

  lemma NextRank(ids: set<nat>, rest: set<nat>, x: nat)
    requires rest <= ids && x in rest
    requires forall y :: y in rest ==> x <= y
    requires Before(ids - rest, rest)
    ensures Rank(ids, x) == |ids - rest|
  {
    assert Smaller(ids, x) == ids - rest;
  }

  // The keys that are not in rest have their ranks, and come before those in rest.
  ghost predicate Numbered(ids: set<nat>, rest: set<nat>, m: map<nat, nat>, sid: nat) {
    && rest <= ids && m.Keys == ids - rest && sid == |ids - rest| && Before(ids - rest, rest)
    && forall x :: x in m ==> m[x] == Rank(ids, x)
  }

  lemma NumberNext(ids: set<nat>, rest: set<nat>, m: map<nat, nat>, sid: nat, x: nat)
    requires Numbered(ids, rest, m, sid) && x in rest && forall y :: y in rest ==> x <= y
    ensures Numbered(ids, rest - {x}, m[x := sid], sid + 1) && |rest - {x}| < |rest|
  {
    NextRank(ids, rest, x);
    OneLess(ids, rest, x);
    hide Rank, Before;
  }

  lemma NumberAll(ids: set<nat>, m: map<nat, nat>, sid: nat)
    requires Numbered(ids, {}, m, sid)
    ensures m.Keys == ids && forall x :: x in ids ==> m[x] == Rank(ids, x)
  {
    assert ids - {} == ids;
  }

  // The loop over the map in the order of its keys.
  method NumberKeys(ids: set<nat>) returns (m: map<nat, nat>)
    ensures m.Keys == ids
    ensures forall x :: x in ids ==> m[x] == Rank(ids, x)
  {
    m := map[];
    var rest := ids;
    var sid := 0;
    Nothing(ids);
    assert Numbered(ids, rest, m, sid);
    hide *;
    while rest != {}
      invariant Numbered(ids, rest, m, sid)
      decreases |rest|
    {
      ghost var l := Least(rest);
      var x :| x in rest && forall y :: y in rest ==> x <= y;
      NumberNext(ids, rest, m, sid, x);
      m := m[x := sid];
      rest := rest - {x};
      sid := sid + 1;
    }
    NumberAll(ids, m, sid);
  }

  lemma Nothing(ids: set<nat>)
    ensures ids - ids == {} && Before({}, ids)
  {
  }

  lemma OneLess(ids: set<nat>, rest: set<nat>, x: nat)
    requires rest <= ids && x in rest && Before(ids - rest, rest)
    requires forall y :: y in rest ==> x <= y
    ensures Before(ids - (rest - {x}), rest - {x})
    ensures ids - (rest - {x}) == (ids - rest) + {x} && |ids - (rest - {x})| == |ids - rest| + 1
    ensures |rest - {x}| < |rest|
  {
    assert ids - (rest - {x}) == (ids - rest) + {x};
  }

  lemma EntryPackage(p: Processor, smt: nat, core: nat, l2: nat)
    requires smt + core < 32 && l2 < 32 && p.apic < WRAP - 1
    ensures NewEntry(p, smt, core, l2).Online() && ToUint32(NewEntry(p, smt, core, l2).socket) == Package(p, smt, core)
  {
    hide Populate;
    FieldsFit(p.apic, smt, core);
  }

  lemma NoPackages(procs: seq<Processor>, smt: nat, core: nat)
    requires smt + core < 32
    ensures Packages(procs[..0], smt, core) == {}
  {
  }

  // The loop over the listed processors.
  method Enter(topology: array<Entry>, procs: seq<Processor>, smt: nat, core: nat, l2: nat) returns (ids: set<nat>)
    requires smt + core < 32 && l2 < 32 && Listed(topology.Length, procs)
    requires forall i :: 0 <= i < topology.Length ==> topology[i] == OFFLINE
    modifies topology
    ensures ids == Packages(procs, smt, core)
    ensures forall j :: 0 <= j < |procs| ==> topology[procs[j].osId] == NewEntry(procs[j], smt, core, l2)
    ensures forall i :: 0 <= i < topology.Length ==>
      topology[i] == OFFLINE || exists j :: 0 <= j < |procs| && procs[j].osId == i
  {
    hide Populate, NewEntry, Packages, ToUint32;
    ids := {};
    NoPackages(procs, smt, core);
    for j := 0 to |procs|
      invariant ids == Packages(procs[..j], smt, core)
      invariant forall k :: 0 <= k < j ==> topology[procs[k].osId] == NewEntry(procs[k], smt, core, l2)
      invariant forall i :: 0 <= i < topology.Length ==>
        topology[i] == OFFLINE || exists k :: 0 <= k < j && procs[k].osId == i
    {
      var entry := NewEntry(procs[j], smt, core, l2);
      EntryPackage(procs[j], smt, core, l2);
      topology[procs[j].osId] := entry;
      ids := ids + {ToUint32(entry.socket)};
      MorePackages(procs, smt, core, j);
    }
    assert procs[..|procs|] == procs;
  }

  lemma MorePackages(procs: seq<Processor>, smt: nat, core: nat, j: nat)
    requires smt + core < 32 && j < |procs|
    ensures Packages(procs[..j + 1], smt, core) == Packages(procs[..j], smt, core) + {Package(procs[j], smt, core)}
  {
    hide Package;
    var a, b := procs[..j], procs[..j + 1];
    forall x | x in Packages(b, smt, core)
      ensures x in Packages(a, smt, core) || x == Package(procs[j], smt, core)
    {
      var i :| 0 <= i < |b| && x == Package(b[i], smt, core);
      if i < j { assert a[i] == b[i]; }
    }
    forall x | x in Packages(a, smt, core)
      ensures x in Packages(b, smt, core)
    {
      var i :| 0 <= i < |a| && x == Package(a[i], smt, core);
      assert b[i] == a[i];
    }
    assert b[j] == procs[j];
  }

  // The loop that gives every online entry its new socket number.
  method Renumber(topology: array<Entry>, ids: map<nat, nat>)
    requires forall i :: 0 <= i < topology.Length && topology[i].Online() ==> ToUint32(topology[i].socket) in ids
    modifies topology
    ensures forall i :: 0 <= i < topology.Length ==>
      topology[i] == if old(topology[i]).Online()
        then old(topology[i]).(socket := ids[ToUint32(old(topology[i]).socket)])
        else old(topology[i])
  {
    for i := 0 to topology.Length
      invariant forall k :: i <= k < topology.Length ==> topology[k] == old(topology[k])
      invariant forall k :: 0 <= k < i ==>
        topology[k] == if old(topology[k]).Online()
          then old(topology[k]).(socket := ids[ToUint32(old(topology[k]).socket)])
          else old(topology[k])
    {
      if topology[i].Online() {
        topology[i] := topology[i].(socket := ids[ToUint32(topology[i].socket)]);
      }
    }
  }

  // c is the last online core of socket k, or -1 if it has none.
  ghost predicate IsRefCore(topology: seq<Entry>, k: nat, c: int) {
    && -1 <= c < |topology|
    && (c >= 0 ==> topology[c].Online() && topology[c].socket == k)
    && forall i :: c < i < |topology| && topology[i].Online() ==> topology[i].socket != k
  }

  method RefCores(topology: array<Entry>, n: nat) returns (refCore: array<int>)
    requires forall i :: 0 <= i < topology.Length && topology[i].Online() ==> 0 <= topology[i].socket < n
    ensures refCore.Length == n
    ensures forall k :: 0 <= k < n ==> IsRefCore(topology[..], k, refCore[k])
  {
    refCore := new int[n](_ => -1);
    for i := 0 to topology.Length
      invariant forall k :: 0 <= k < n ==> IsRefCore(topology[..i], k, refCore[k])
    {
      assert topology[..i + 1] == topology[..i] + [topology[i]];
      if topology[i].Online() {
        refCore[topology[i].socket] := i;
      }
    }
    assert topology[..topology.Length] == topology[..];
  }

  // The processors with the socket and the core of the first one, lines 1170-1177.
  function LikeFirst(topology: seq<Entry>, n: nat): set<nat>
    requires n <= |topology|
  {
    set i: nat | i < n && topology[i].socket == topology[0].socket && topology[i].coreId == topology[0].coreId
  }

  method CountThreads(topology: array<Entry>) returns (threads: nat)
    ensures threads == |LikeFirst(topology[..], topology.Length)|
    ensures topology.Length > 0 ==> threads > 0
  {
    threads := 0;
    for i := 0 to topology.Length
      invariant threads == |LikeFirst(topology[..], i)| && (i > 0 ==> threads > 0)
    {
      var old', new' := LikeFirst(topology[..], i), LikeFirst(topology[..], i + 1);
      if topology[i].socket == topology[0].socket && topology[i].coreId == topology[0].coreId {
        assert new' == old' + {i};
        threads := threads + 1;
      } else {
        assert new' == old';
      }
    }
  }

  // What the discovery has found before it counts.
  ghost predicate Found(topology: seq<Entry>, procs: seq<Processor>, smt: nat, core: nat, l2: nat)
    requires smt + core < 32 && l2 < 32 && Listed(|topology|, procs)
  {
    && (forall j :: 0 <= j < |procs| ==>
          var p := procs[j];
          topology[p.osId] == NewEntry(p, smt, core, l2).(socket := Rank(Packages(procs, smt, core), Package(p, smt, core))))
    && (forall i :: 0 <= i < |topology| ==> (topology[i].Online() <==> exists j :: 0 <= j < |procs| && procs[j].osId == i))
    && (forall i :: 0 <= i < |topology| ==> topology[i].Online() || topology[i] == OFFLINE)
  }

  // Renumbering does it.
  lemma Enrolled(entered: seq<Entry>, topology: seq<Entry>, m: map<nat, nat>, procs: seq<Processor>, smt: nat, core: nat,
      l2: nat)
    requires smt + core < 32 && l2 < 32 && |entered| == |topology| && Listed(|topology|, procs)
    requires forall j :: 0 <= j < |procs| ==> entered[procs[j].osId] == NewEntry(procs[j], smt, core, l2)
    requires forall i :: 0 <= i < |entered| ==> entered[i] == OFFLINE || exists j :: 0 <= j < |procs| && procs[j].osId == i
    requires m.Keys == Packages(procs, smt, core)
    requires forall x :: x in m.Keys ==> m[x] == Rank(m.Keys, x)
    requires forall i :: 0 <= i < |entered| ==>
      (entered[i].Online() ==> ToUint32(entered[i].socket) in m)
      && topology[i] == if entered[i].Online() then entered[i].(socket := m[ToUint32(entered[i].socket)]) else entered[i]
    ensures Found(topology, procs, smt, core, l2)
    ensures forall i :: 0 <= i < |topology| && topology[i].Online() ==> 0 <= topology[i].socket < Max(|m.Keys|, 1)
  {
    hide Packages, Package, NewEntry, Rank, ToUint32;
    forall j: nat | j < |procs|
      ensures ToUint32(entered[procs[j].osId].socket) == Package(procs[j], smt, core) && entered[procs[j].osId].Online()
    {
      EntryPackage(procs[j], smt, core, l2);
    }
    forall i: nat | i < |topology| && topology[i].Online()
      ensures 0 <= topology[i].socket < Max(|m.Keys|, 1)
    {
      assert entered[i].Online();
      RankOrder(m.Keys, ToUint32(entered[i].socket), ToUint32(entered[i].socket));
    }
  }

  // Entering the processors and renumbering their sockets, to line 1160.
  method Enroll(n: nat, procs: seq<Processor>, smt: nat, core: nat, l2: nat)
    returns (topology: array<Entry>, numSockets: nat)
    requires smt + core < 32 && l2 < 32 && Listed(n, procs)
    ensures topology.Length == n && fresh(topology) && numSockets == Max(|Packages(procs, smt, core)|, 1)
    ensures Found(topology[..], procs, smt, core, l2)
    ensures forall i :: 0 <= i < n && topology[i].Online() ==> 0 <= topology[i].socket < numSockets
  {
    hide Packages, Package, NewEntry, Rank, ToUint32, Found;
    topology := new Entry[n](_ => OFFLINE);
    var ids := Enter(topology, procs, smt, core, l2);
    ghost var entered := topology[..];
    Keyed(entered, procs, smt, core, l2);
    var m := NumberKeys(ids);
    numSockets := Max(|m|, 1);
    assert |m| == |m.Keys|;
    Renumber(topology, m);
    Enrolled(entered, topology[..], m, procs, smt, core, l2);
  }

  // Every package that was entered is in the map.
  lemma Keyed(entered: seq<Entry>, procs: seq<Processor>, smt: nat, core: nat, l2: nat)
    requires smt + core < 32 && l2 < 32 && Listed(|entered|, procs)
    requires forall j :: 0 <= j < |procs| ==> entered[procs[j].osId] == NewEntry(procs[j], smt, core, l2)
    requires forall i :: 0 <= i < |entered| ==> entered[i] == OFFLINE || exists j :: 0 <= j < |procs| && procs[j].osId == i
    ensures forall i :: 0 <= i < |entered| && entered[i].Online() ==> ToUint32(entered[i].socket) in Packages(procs, smt, core)
  {
    hide Package, NewEntry, ToUint32;
    forall i: nat | i < |entered| && entered[i].Online()
      ensures ToUint32(entered[i].socket) in Packages(procs, smt, core)
    {
      var j :| 0 <= j < |procs| && procs[j].osId == i;
      EntryPackage(procs[j], smt, core, l2);
      assert Package(procs[j], smt, core) in Packages(procs, smt, core);
    }
  }

  // The same in numbers: every listed processor has the thread, the core and the tile of its id, and its
  // socket is the rank of its package number among those of all listed ids.
  ghost predicate InNumbers(topology: seq<Entry>, procs: seq<Processor>, smt: nat, core: nat, l2: nat)
    requires Listed(|topology|, procs)
  {
    forall j :: 0 <= j < |procs| ==>
      var p := procs[j]; var e := topology[p.osId];
      && e.osId == p.osId && e.threadId == Lower(p.apic, smt) && e.coreId == CoreNumber(p.apic, smt, core)
      && ToUint32(e.tileId) == Upper(p.apic, l2)
      && e.socket == Rank(PackageNumbers(procs, smt + core), Upper(p.apic, smt + core))
  }

  lemma FoundInNumbers(topology: seq<Entry>, procs: seq<Processor>, smt: nat, core: nat, l2: nat)
    requires smt + core < 32 && l2 < 32 && Listed(|topology|, procs) && Found(topology, procs, smt, core, l2)
    ensures InNumbers(topology, procs, smt, core, l2)
    ensures Packages(procs, smt, core) == PackageNumbers(procs, smt + core)
  {
    PackagesAre(|topology|, procs, smt, core);
    hide Upper, Lower, Pow2, NewEntry, Package, CoreNumber, Rank, ToUint32, Packages, PackageNumbers;
    forall j: nat | j < |procs|
      ensures var p := procs[j]; var e := topology[p.osId];
        && e.osId == p.osId && e.threadId == Lower(p.apic, smt) && e.coreId == CoreNumber(p.apic, smt, core)
        && ToUint32(e.tileId) == Upper(p.apic, l2)
        && e.socket == Rank(PackageNumbers(procs, smt + core), Upper(p.apic, smt + core))
    {
      EntryMeans(procs[j], smt, core, l2);
    }
  }

  // As many values as arguments, when they all differ.
  lemma {:induction false} ImageSize(js: set<nat>, procs: seq<Processor>)
    requires forall j :: j in js ==> j < |procs|
    requires forall i, j :: 0 <= i < j < |procs| ==> procs[i].osId != procs[j].osId
    ensures |set j | j in js :: procs[j].osId| == |js|
  {
    var image := set j | j in js :: procs[j].osId;
    if js == {} {
      assert image == {};
    } else {
      var x :| x in js;
      var rest := js - {x};
      ImageSize(rest, procs);
      assert image == (set j | j in rest :: procs[j].osId) + {procs[x].osId};
    }
  }

  // The threads of a core are as many as the listed ids that have the package and the core of the first
  // processor's.
  lemma ThreadsAreSiblings(topology: seq<Entry>, procs: seq<Processor>, smt: nat, core: nat, l2: nat, k: nat)
    requires smt + core < 32 && l2 < 32 && Listed(|topology|, procs) && Found(topology, procs, smt, core, l2)
    requires core > 0 && k < |procs| && procs[k].osId == 0
    ensures |LikeFirst(topology, |topology|)| == |Siblings(procs, smt, k)|
  {
    var js := Siblings(procs, smt, k);
    ThreadsMean(topology, procs, smt, core, l2);
    forall j: nat | j < |procs|
      ensures procs[j].osId in LikeFirst(topology, |topology|) <==> j in js
    {
      EntryMeans(procs[j], smt, core, l2);
      EntryMeans(procs[k], smt, core, l2);
      AboveThread(procs[j].apic, procs[k].apic, smt, core);
    }
    hide Upper, Lower, Pow2, NewEntry, Package, CoreNumber, Rank, Packages, Siblings, LikeFirst;
    ImageSize(js, procs);
    assert LikeFirst(topology, |topology|) == set j | j in js :: procs[j].osId by {
      SameMembers(topology, procs, smt, core, l2, k);
    }
  }

  lemma SameMembers(topology: seq<Entry>, procs: seq<Processor>, smt: nat, core: nat, l2: nat, k: nat)
    requires smt + core < 32 && l2 < 32 && Listed(|topology|, procs) && Found(topology, procs, smt, core, l2)
    requires k < |procs| && procs[k].osId == 0
    requires forall j :: 0 <= j < |procs| ==>
      (procs[j].osId in LikeFirst(topology, |topology|) <==> j in Siblings(procs, smt, k))
    ensures LikeFirst(topology, |topology|) == set j | j in Siblings(procs, smt, k) :: procs[j].osId
  {
    ThreadsMean(topology, procs, smt, core, l2);
    hide Pow2, NewEntry, Package, Rank, Packages;
    forall i | i in LikeFirst(topology, |topology|)
      ensures exists j :: j in Siblings(procs, smt, k) && procs[j].osId == i
    {
      assert topology[0].Online() && topology[i].Online();
      var j :| 0 <= j < |procs| && procs[j].osId == i;
    }
  }

  // The quotients of line 1178, unless one of them is by 0.
  function PerSocket(n: nat, sockets: nat, threads: nat): Option<nat> {
    if sockets == 0 || threads == 0 then None else Some(n / sockets / threads)
  }

  // The cores of a socket are the most that all sockets can have with that many threads each.
  lemma PerSocketMeans(n: nat, sockets: nat, threads: nat, cores: nat)
    ensures PerSocket(n, sockets, threads) == Some(cores) <==>
      sockets > 0 && threads > 0 && sockets * threads * cores <= n < sockets * threads * (cores + 1)
  {
    if sockets > 0 && threads > 0 {
      var q := n / sockets;
      var a, b := threads * cores, threads * (cores + 1);
      assert sockets * threads * cores == sockets * a && sockets * threads * (cores + 1) == sockets * b;
      AtMost(n, sockets, a);
      AtMost(n, sockets, b);
      AtMost(q, threads, cores);
      AtMost(q, threads, cores + 1);
    }
  }

  lemma AtMost(n: nat, d: nat, c: nat)
    requires d > 0
    ensures d * c <= n <==> c <= n / d
  {
    var q := n / d;
    assert n == d * q + n % d;
    if c <= q {
      assert d * q == d * c + d * (q - c);
    } else {
      MulMore(c - q, d);
      assert d * c == d * q + (c - q) * d;
    }
  }

  /** The whole of the discovery, for any list of processors.  A socket's new number is the
      rank of its package number among those found; the other fields stay, and each
      number has a core that is in that socket.  On a machine without processors a quotient is by 0. */
  method Discover(n: nat, procs: seq<Processor>, smt: nat, core: nat, l2: nat)
    returns (topology: array<Entry>, numSockets: nat, refCore: array<int>, threads: nat, coresPerSocket: Option<nat>)
    requires smt + core < 32 && l2 < 32 && Listed(n, procs)
    ensures topology.Length == n && refCore.Length == numSockets
    ensures numSockets == Max(|Packages(procs, smt, core)|, 1)
    ensures Found(topology[..], procs, smt, core, l2)
    ensures threads == |LikeFirst(topology[..], n)| && (n > 0 ==> threads > 0)
    ensures InNumbers(topology[..], procs, smt, core, l2)
    ensures numSockets == Max(|PackageNumbers(procs, smt + core)|, 1)
    ensures core > 0 ==> forall k: nat :: k < |procs| && procs[k].osId == 0 ==> threads == |Siblings(procs, smt, k)|
    ensures coresPerSocket == PerSocket(n, numSockets, threads)
    ensures forall k :: 0 <= k < numSockets ==> IsRefCore(topology[..], k, refCore[k])
  {
    hide Found, Packages, LikeFirst, IsRefCore, PerSocket, InNumbers, PackageNumbers, Siblings;
    topology, numSockets := Enroll(n, procs, smt, core, l2);
    threads := CountThreads(topology);
    coresPerSocket := PerSocket(n, numSockets, threads);
    refCore := RefCores(topology, numSockets);
    FoundInNumbers(topology[..], procs, smt, core, l2);
    forall k: nat | core > 0 && k < |procs| && procs[k].osId == 0
      ensures threads == |Siblings(procs, smt, k)|
    {
      ThreadsAreSiblings(topology[..], procs, smt, core, l2, k);
    }
  }

  /** The threads of a core are counted by those of the first processor: if it is listed, they are the
      listed processors with its package and its core; if not, they are all that are not listed. */
  lemma ThreadsMean(topology: seq<Entry>, procs: seq<Processor>, smt: nat, core: nat, l2: nat)
    requires smt + core < 32 && l2 < 32 && Listed(|topology|, procs) && |topology| > 0
    requires Found(topology, procs, smt, core, l2)
    ensures forall j, k :: 0 <= j < |procs| && 0 <= k < |procs| && procs[k].osId == 0 ==>
      (procs[j].osId in LikeFirst(topology, |topology|) <==>
        && Package(procs[j], smt, core) == Package(procs[k], smt, core)
        && NewEntry(procs[j], smt, core, l2).coreId == NewEntry(procs[k], smt, core, l2).coreId)
    ensures topology[0].Online() ==> forall i :: i in LikeFirst(topology, |topology|) ==> topology[i].Online()
    ensures !topology[0].Online() ==> forall i :: 0 <= i < |topology| ==>
      (i in LikeFirst(topology, |topology|) <==> !topology[i].Online())
  {
    hide Package, Rank, NewEntry, Packages;
    NumbersMean(procs, smt, core);
  }

  /** Two processors get the same number exactly when they are in the same package, in the
      order of their packages, and below the number of packages. */
  lemma NumbersMean(procs: seq<Processor>, smt: nat, core: nat)
    requires smt + core < 32
    ensures forall i, j :: 0 <= i < |procs| && 0 <= j < |procs| ==>
      var s, p, q := Packages(procs, smt, core), Package(procs[i], smt, core), Package(procs[j], smt, core);
      && (p == q <==> Rank(s, p) == Rank(s, q)) && (p < q <==> Rank(s, p) < Rank(s, q)) && Rank(s, p) < |s|
  {
    hide Package, Rank;
    var s := Packages(procs, smt, core);
    forall i, j | 0 <= i < |procs| && 0 <= j < |procs|
      ensures var p, q := Package(procs[i], smt, core), Package(procs[j], smt, core);
        && (p == q <==> Rank(s, p) == Rank(s, q)) && (p < q <==> Rank(s, p) < Rank(s, q)) && Rank(s, p) < |s|
    {
      RankOrder(s, Package(procs[i], smt, core), Package(procs[j], smt, core));
      RankOrder(s, Package(procs[j], smt, core), Package(procs[i], smt, core));
    }
  }

  // Every number is some processor's.
  lemma NumberUsed(procs: seq<Processor>, smt: nat, core: nat, k: nat) returns (j: nat)
    requires smt + core < 32 && k < |Packages(procs, smt, core)|
    ensures j < |procs| && Rank(Packages(procs, smt, core), Package(procs[j], smt, core)) == k
  {
    hide Package, Rank;
    var x := RankOnto(Packages(procs, smt, core), k);
    j :| j < |procs| && x == Package(procs[j], smt, core);
  }

  // So every socket number has a reference core: the -1 is only for an empty list.
  lemma EveryReference(topology: seq<Entry>, refCore: seq<int>, procs: seq<Processor>, smt: nat, core: nat)
    requires smt + core < 32 && Listed(|topology|, procs) && |refCore| == Max(|Packages(procs, smt, core)|, 1)
    requires forall j :: 0 <= j < |procs| ==>
      && topology[procs[j].osId].Online()
      && topology[procs[j].osId].socket == Rank(Packages(procs, smt, core), Package(procs[j], smt, core))
    requires forall k :: 0 <= k < |refCore| ==> IsRefCore(topology, k, refCore[k])
    ensures forall k :: 0 <= k < |refCore| ==> (refCore[k] == -1 ==> |procs| == 0)
  {
    hide Package, Rank;
    forall k | 0 <= k < |refCore| && |procs| > 0
      ensures refCore[k] != -1
    {
      assert Package(procs[0], smt, core) in Packages(procs, smt, core);
      var j := NumberUsed(procs, smt, core, k);
      assert topology[procs[j].osId].Online();
    }
  }
}
