/** The lists of tools/jgraph: circular doubly linked lists with a sentinel that also holds a free
    list (list.c), insertion by number (prio_list.c), and the numbered items of jgraph.c. */
module Lists {

  class Node {
    var flink: Node
    var blink: Node
    // The number of an item; the sentinel has the node size in this place.
    var prio: int

    // What make_list does with a new sentinel.
    constructor (prio: int)
      ensures flink == blink == this && this.prio == prio
    {
      flink, blink := this, this;
      this.prio := prio;
    }
  }

  // ----- the values -----

  // A number that the scan stops at, going up or down.
  predicate Stops(y: int, x: int, desc: bool) {
    if desc then y <= x else y >= x
  }

  function FirstStop(ns: seq<int>, x: int, desc: bool, i: nat): (k: nat)
    requires i <= |ns|
    ensures i <= k <= |ns|
    ensures forall j :: i <= j < k ==> !Stops(ns[j], x, desc)
    ensures k < |ns| ==> Stops(ns[k], x, desc)
    decreases |ns| - i
  {
    if i == |ns| || Stops(ns[i], x, desc) then i else FirstStop(ns, x, desc, i + 1)
  }

  // Where prio_insert puts x: at the head, else at the tail, else before the first stop.
  function Position(ns: seq<int>, x: int, desc: bool): (k: nat)
    ensures k <= |ns|
  {
    if ns == [] || Stops(ns[0], x, desc) then 0
    else if Stops(x, ns[|ns| - 1], desc) then |ns|
    else FirstStop(ns, x, desc, 1)
  }

  function Inserted<T>(s: seq<T>, k: nat, x: T): (r: seq<T>)
    requires k <= |s|
    ensures |r| == |s| + 1 && r[k] == x && r[..k] == s[..k] && r[k + 1..] == s[k..]
    ensures multiset(r) == multiset(s) + multiset{x}
  {
    assert s == s[..k] + s[k..];
    var r := s[..k] + [x] + s[k..];
    assert r[k + 1..] == s[k..];
    r
  }

  predicate Sorted(ns: seq<int>, desc: bool) {
    forall i, j :: 0 <= i < j < |ns| ==> Stops(ns[j], ns[i], desc)
  }

  predicate Strict(ns: seq<int>) {
    forall i, j :: 0 <= i < j < |ns| ==> ns[i] < ns[j]
  }

  lemma AtEnds(ns: seq<int>, x: int, desc: bool)
    ensures ns == [] || Stops(ns[0], x, desc) ==> Position(ns, x, desc) == 0
    ensures ns != [] && !Stops(ns[0], x, desc) && Stops(x, ns[|ns| - 1], desc) ==> Position(ns, x, desc) == |ns|
  {
  }

  lemma Around(ns: seq<int>, x: int, desc: bool)
    requires Sorted(ns, desc)
    ensures var k := Position(ns, x, desc);
      && (forall i :: 0 <= i < k ==> Stops(x, ns[i], desc)) && forall i :: k <= i < |ns| ==> Stops(ns[i], x, desc)
  {
  }

  predicate Before(y: int, x: int, desc: bool) {
    if desc then y > x else y < x
  }

  /** Where a number goes in a sorted list: behind everything if the last one is not behind it, unless
      it goes to the very front; otherwise behind exactly those that come before it, so in front of equal ones. */
  lemma PositionMeans(ns: seq<int>, x: int, desc: bool)
    requires Sorted(ns, desc)
    ensures var k := Position(ns, x, desc);
      if ns != [] && Before(ns[0], x, desc) && !Before(x, ns[|ns| - 1], desc) then k == |ns|
      else forall i :: 0 <= i < |ns| ==> (i < k <==> Before(ns[i], x, desc))
  {
    AtEnds(ns, x, desc);
  }

  lemma InsertedAt<T>(s: seq<T>, k: nat, x: T)
    requires k <= |s|
    ensures forall m :: 0 <= m <= |s| ==> Inserted(s, k, x)[m] == if m < k then s[m] else if m == k then x else s[m - 1]
  {
    assert s[..k] + [x] + s[k..] == Inserted(s, k, x) by { assert s == s[..k] + s[k..]; }
  }

  /** A sorted list stays sorted, in either direction and with repeated numbers. */
  lemma InsertSorted(ns: seq<int>, x: int, desc: bool)
    requires Sorted(ns, desc)
    ensures Sorted(Inserted(ns, Position(ns, x, desc), x), desc)
  {
    Around(ns, x, desc);
    var k := Position(ns, x, desc);
    InsertedAt(ns, k, x);
    hide Position, Inserted;
    var r := Inserted(ns, k, x);
    forall i, j | 0 <= i < j < |r|
      ensures Stops(r[j], r[i], desc)
    {
      if i < k && j > k {
        assert Stops(ns[j - 1], ns[i], desc);
      } else if i >= k + 1 {
        assert Stops(ns[j - 1], ns[i - 1], desc);
      } else if i == k {
        assert Stops(ns[j - 1], x, desc);
      } else if j == k {
        assert Stops(x, ns[i], desc);
      } else {
        assert Stops(ns[j], ns[i], desc);
      }
    }
  }

  lemma AroundStrict(ns: seq<int>, x: int)
    requires Strict(ns) && x !in ns
    ensures var k := Position(ns, x, false); (forall i :: 0 <= i < k ==> ns[i] < x) && forall i :: k <= i < |ns| ==> ns[i] > x
  {
    Around(ns, x, false);
  }

  lemma InsertStrict(ns: seq<int>, x: int)
    requires Strict(ns) && x !in ns
    ensures Strict(Inserted(ns, Position(ns, x, false), x))
  {
    var k := Position(ns, x, false);
    AroundStrict(ns, x);
    InsertedAt(ns, k, x);
    hide Position, Inserted;
    var r := Inserted(ns, k, x);
    forall i, j | 0 <= i < j < |r|
      ensures r[i] < r[j]
    {
      if i != k && j != k { assert ns[if i > k then i - 1 else i] < ns[if j > k then j - 1 else j]; }
    }
  }

  // ----- the nodes -----

  // Once around a list: the sentinel, the items, and the sentinel again.
  ghost predicate Linked(ring: seq<Node>)
    reads ring
  {
    && |ring| >= 2 && ring[0] == ring[|ring| - 1] && Distinct(ring)
    && (forall i :: 0 <= i < |ring| - 1 ==> NextOk(ring, i)) && forall i :: 1 <= i < |ring| ==> PrevOk(ring, i)
  }

  ghost predicate Distinct(ring: seq<Node>) {
    forall i, j :: 0 <= i < j < |ring| - 1 ==> ring[i] != ring[j]
  }

  ghost predicate NextOk(ring: seq<Node>, i: nat)
    reads ring
    requires i < |ring| - 1
  {
    ring[i].flink == ring[i + 1]
  }

  ghost predicate PrevOk(ring: seq<Node>, i: nat)
    reads ring
    requires 1 <= i < |ring|
  {
    ring[i].blink == ring[i - 1]
  }

  // A free list down to the dummy node, which is its own successor.
  ghost predicate Chain(free: Node, spare: seq<Node>, dummy: Node)
    reads spare, dummy
  {
    && dummy.flink == dummy && dummy !in spare
    && (forall i, j :: 0 <= i < j < |spare| ==> spare[i] != spare[j])
    && (if spare == [] then free == dummy else free == spare[0] && spare[|spare| - 1].flink == dummy)
    && forall i :: 0 <= i < |spare| - 1 ==> NextOk(spare, i)
  }

  ghost predicate Apart(ring: seq<Node>, spare: seq<Node>, dummy: Node) {
    dummy !in ring && forall n :: n in ring ==> n !in spare
  }

  ghost predicate New(node: Node, ring: seq<Node>, spare: seq<Node>, dummy: Node) {
    node !in ring && node !in spare && node != dummy
  }

  lemma Differ(ring: seq<Node>, i: nat, j: nat)
    requires |ring| >= 2 && ring[0] == ring[|ring| - 1] && Distinct(ring)
    requires i < |ring| && j < |ring| && i != j && !(i == 0 && j == |ring| - 1) && !(j == 0 && i == |ring| - 1)
    ensures ring[i] != ring[j]
  {
  }

  lemma InsertDistinct(ring: seq<Node>, node: Node, k: nat)
    requires Distinct(ring) && k < |ring| - 1 && node !in ring
    ensures Distinct(Inserted(ring, k + 1, node))
  {
    InsertedAt(ring, k + 1, node);
    hide Inserted;
  }

  // Linked, but for the two links between places k and k + 1.
  ghost predicate Open(ring: seq<Node>, k: nat)
    reads ring
    requires k < |ring| - 1
  {
    && ring[0] == ring[|ring| - 1] && Distinct(ring)
    && (forall i :: 0 <= i < |ring| - 1 && i != k ==> NextOk(ring, i))
    && forall i :: 1 <= i < |ring| && i != k + 1 ==> PrevOk(ring, i)
  }

  lemma OpenNext(ring: seq<Node>, k: nat, i: nat)
    requires k < |ring| - 1 && Open(ring, k) && i < |ring| - 1 && i != k
    ensures ring[i].flink == ring[i + 1]
  {
    hide Distinct;
    assert NextOk(ring, i);
  }

  lemma OpenPrev(ring: seq<Node>, k: nat, i: nat)
    requires k < |ring| - 1 && Open(ring, k) && 1 <= i < |ring| && i != k + 1
    ensures ring[i].blink == ring[i - 1]
  {
    hide Distinct;
    assert PrevOk(ring, i);
  }

  lemma InsertedOne<T>(s: seq<T>, k: nat, x: T, m: nat)
    requires k <= |s| && m <= |s|
    ensures |Inserted(s, k, x)| == |s| + 1
    ensures Inserted(s, k, x)[m] == if m < k then s[m] else if m == k then x else s[m - 1]
  {
    InsertedAt(s, k, x);
    hide Inserted;
  }

  lemma SplicedNext(ring: seq<Node>, node: Node, k: nat, i: nat)
    requires k < |ring| - 1 && Open(ring, k) && ring[k].flink == node && node.flink == ring[k + 1] && i <= |ring| - 1
    ensures NextOk(Inserted(ring, k + 1, node), i)
  {
    hide Inserted, Distinct, Open;
    InsertedOne(ring, k + 1, node, i);
    InsertedOne(ring, k + 1, node, i + 1);
    if i < k {
      OpenNext(ring, k, i);
    } else if i > k + 1 {
      OpenNext(ring, k, i - 1);
    }
  }

  lemma SplicedPrev(ring: seq<Node>, node: Node, k: nat, i: nat)
    requires k < |ring| - 1 && Open(ring, k) && ring[k + 1].blink == node && node.blink == ring[k] && 1 <= i <= |ring|
    ensures PrevOk(Inserted(ring, k + 1, node), i)
  {
    hide Inserted, Distinct, Open;
    InsertedOne(ring, k + 1, node, i);
    InsertedOne(ring, k + 1, node, i - 1);
    if i <= k {
      OpenPrev(ring, k, i);
    } else if i > k + 2 {
      OpenPrev(ring, k, i - 1);
    }
  }

  // Closing the gap with a new node between.
  lemma Spliced(ring: seq<Node>, node: Node, k: nat)
    requires k < |ring| - 1 && Open(ring, k) && node !in ring
    requires node.blink == ring[k] && node.flink == ring[k + 1] && ring[k].flink == node && ring[k + 1].blink == node
    ensures Linked(Inserted(ring, k + 1, node))
  {
    var r := Inserted(ring, k + 1, node);
    InsertedAt(ring, k + 1, node);
    InsertDistinct(ring, node, k);
    hide Inserted, Distinct, NextOk, PrevOk;
    forall i: nat | i < |r| - 1
      ensures NextOk(r, i)
    {
      SplicedNext(ring, node, k, i);
    }
    forall i: nat | 1 <= i < |r|
      ensures PrevOk(r, i)
    {
      SplicedPrev(ring, node, k, i);
    }
  }

  // Linking the two neighbours of place k past it.
  lemma Passed(ring: seq<Node>, k: nat)
    requires 0 < k < |ring| - 1 && ring[0] == ring[|ring| - 1] && Distinct(ring)
    requires forall i :: 0 <= i < |ring| - 1 && i != k - 1 ==> NextOk(ring, i)
    requires forall i :: 1 <= i < |ring| && i != k + 1 ==> PrevOk(ring, i)
    requires ring[k - 1].flink == ring[k + 1] && ring[k + 1].blink == ring[k - 1]
    ensures Linked(ring[..k] + ring[k + 1..])
  {
    var r := ring[..k] + ring[k + 1..];
    assert Distinct(r);
    hide Distinct;
    forall i: nat | i < |r| - 1
      ensures NextOk(r, i)
    {
      if i < k - 1 {
        assert NextOk(ring, i);
      } else if i > k - 1 {
        assert NextOk(ring, i + 1);
      }
    }
    forall i: nat | 1 <= i < |r|
      ensures PrevOk(r, i)
    {
      if i < k {
        assert PrevOk(ring, i);
      } else if i > k {
        assert PrevOk(ring, i + 1);
      }
    }
  }

  // The items among the places.
  function Inner(ring: seq<Node>): (s: seq<Node>)
    requires |ring| >= 2
    ensures |s| == |ring| - 2
  {
    ring[1..|ring| - 1]
  }

  lemma Away(ring: seq<Node>, spare: seq<Node>, dummy: Node, k: nat)
    requires Apart(ring, spare, dummy) && k < |ring| - 1
    ensures ring[k] !in spare && ring[k] != dummy && ring[k + 1] !in spare && ring[k + 1] != dummy
  {
  }

  lemma Joined(ring: seq<Node>, spare: seq<Node>, dummy: Node, node: Node, k: nat)
    requires |ring| >= 2 && k < |ring| - 1 && Apart(ring, spare, dummy) && New(node, ring, spare, dummy)
    ensures Apart(Inserted(ring, k + 1, node), spare, dummy)
    ensures Inner(Inserted(ring, k + 1, node)) == Inserted(Inner(ring), k, node)
    ensures Inserted(ring, k + 1, node)[0] == ring[0]
    ensures forall n :: n in Inserted(ring, k + 1, node) ==> n in ring || n == node
  {
    InsertedAt(ring, k + 1, node);
    InsertedAt(Inner(ring), k, node);
    hide Inserted;
  }

  lemma InnerAll(ring: seq<Node>)
    requires |ring| >= 2
    ensures forall i :: 0 <= i < |ring| - 2 ==> Inner(ring)[i] == ring[i + 1] && Inner(ring)[i] in ring
  {
  }

  class List {
    const head: Node
    var free: Node
    ghost const dummy: Node
    // The items, their numbers, and the nodes on the free list.
    ghost var items: seq<Node>
    ghost var nums: seq<int>
    ghost var spare: seq<Node>
    ghost var ring: seq<Node>

    ghost predicate Valid()
      reads this, ring, dummy, spare
    {
      && Linked(ring) && ring[0] == head && Chain(free, spare, dummy) && Apart(ring, spare, dummy)
      && items == Inner(ring) && Numbered(items, nums)
    }

    // make_list.
    constructor (size: int)
      ensures Valid() && items == [] && spare == [] && fresh(head) && fresh(dummy) && head.prio == size
    {
      var h := new Node(size);
      var d := new Node(0);
      head, free, dummy := h, d, d;
      ring, items, nums, spare := [h, h], [], [], [];
    }

    // get_node: the node freed last, or a new one.
    method GetNode() returns (n: Node)
      requires Valid()
      modifies this`free, this`spare
      ensures Valid() && New(n, ring, spare, dummy)
      ensures if old(spare) == [] then fresh(n) && spare == [] else n == old(spare)[0] && spare == old(spare)[1..]
    {
      hide Linked;
      ghost var sp := spare;
      assert |sp| > 1 ==> NextOk(sp, 0);
      if free.flink == free {
        assert sp == [];
        n := new Node(0);
      } else {
        n := free;
        free := n.flink;
        spare := sp[1..];
        forall i: nat | i < |spare| - 1
          ensures NextOk(spare, i)
        {
          assert NextOk(sp, i + 1);
        }
      }
    }

    // free_node, of a node that is on no list.
    method FreeNode(n: Node)
      requires Valid() && New(n, ring, spare, dummy)
      modifies this`free, this`spare, n`flink
      ensures Valid() && spare == [n] + old(spare)
    {
      hide Linked;
      ghost var sp := spare;
      n.flink := free;
      free := n;
      spare := [n] + sp;
      forall i: nat | i < |spare| - 1
        ensures NextOk(spare, i)
      {
        if i > 0 { assert old(NextOk(sp, i - 1)); }
      }
    }

    // Puts node before q, which is at place k + 1.
    method LinkBefore(node: Node, q: Node, ghost k: nat)
      requires Valid() && New(node, ring, spare, dummy) && k < |ring| - 1 && q == ring[k + 1]
      modifies this`ring, this`items, this`nums, ring, node
      ensures Valid() && |old(items)| == |old(nums)| == |old(ring)| - 2
      ensures items == Inserted(old(items), k, node) && nums == Inserted(old(nums), k, old(node.prio))
      ensures spare == old(spare) && node.prio == old(node.prio)
    {
      hide Chain, Apart, Inserted, Inner, Distinct;
      ghost var r, s, ns := ring, items, nums;
      InnerAll(r);
      Away(r, spare, dummy, k);
      assert PrevOk(r, k + 1) && NextOk(r, k);
      node.flink := q;
      node.blink := q.blink;
      q.blink.flink := node;
      q.blink := node;
      forall i: nat | i < |r| - 1 && i != k
        ensures NextOk(r, i)
      {
        Differ(r, i, k);
        assert old(NextOk(r, i));
      }
      forall i: nat | 1 <= i < |r| && i != k + 1
        ensures PrevOk(r, i)
      {
        Differ(r, i, k + 1);
        assert old(PrevOk(r, i));
      }
      assert Open(r, k);
      Spliced(r, node, k);
      Joined(r, spare, dummy, node, k);
      NumbersInserted(s, k, node, ns);
      ring, items, nums := Inserted(r, k + 1, node), Inserted(s, k, node), Inserted(ns, k, node.prio);
    }

    // Puts node after p, which is at place k.
    method LinkAfter(node: Node, p: Node, ghost k: nat)
      requires Valid() && New(node, ring, spare, dummy) && k < |ring| - 1 && p == ring[k]
      modifies this`ring, this`items, this`nums, ring, node
      ensures Valid() && |old(items)| == |old(nums)| == |old(ring)| - 2
      ensures items == Inserted(old(items), k, node) && nums == Inserted(old(nums), k, old(node.prio))
      ensures spare == old(spare) && node.prio == old(node.prio)
    {
      hide Chain, Apart, Inserted, Inner, Distinct;
      ghost var r, s, ns := ring, items, nums;
      InnerAll(r);
      Away(r, spare, dummy, k);
      assert PrevOk(r, k + 1) && NextOk(r, k);
      node.blink := p;
      node.flink := p.flink;
      p.flink.blink := node;
      p.flink := node;
      forall i: nat | i < |r| - 1 && i != k
        ensures NextOk(r, i)
      {
        Differ(r, i, k);
        assert old(NextOk(r, i));
      }
      forall i: nat | 1 <= i < |r| && i != k + 1
        ensures PrevOk(r, i)
      {
        Differ(r, i, k + 1);
        assert old(PrevOk(r, i));
      }
      assert Open(r, k);
      Spliced(r, node, k);
      Joined(r, spare, dummy, node, k);
      NumbersInserted(s, k, node, ns);
      ring, items, nums := Inserted(r, k + 1, node), Inserted(s, k, node), Inserted(ns, k, node.prio);
    }

    // insert: at the end.
    method Insert(item: Node)
      requires Valid() && New(item, ring, spare, dummy)
      modifies this`ring, this`items, this`nums, ring, item
      ensures Valid() && spare == old(spare)
      ensures items == old(items) + [item] && nums == old(nums) + [old(item.prio)]
    {
      LinkBefore(item, head, |ring| - 2);
      AtEnd(old(items), item);
      AtEnd(old(nums), item.prio);
    }

    // The two writes of delete_item.
    method Unlink(item: Node, ghost k: nat)
      requires Valid() && 0 < k < |ring| - 1 && item == ring[k]
      modifies ring
      ensures Linked(ring[..k] + ring[k + 1..]) && Chain(free, spare, dummy) && Numbered(items, nums)
    {
      hide Chain, Apart, Distinct, Inner;
      ghost var r := ring;
      Away(r, spare, dummy, k - 1);
      Away(r, spare, dummy, k);
      assert PrevOk(r, k) && NextOk(r, k);
      Differ(r, k, k + 1);
      Differ(r, k - 1, k);
      item.flink.blink := item.blink;
      item.blink.flink := item.flink;
      forall i: nat | i < |r| - 1 && i != k - 1
        ensures NextOk(r, i)
      {
        Differ(r, i, k - 1);
        assert old(NextOk(r, i));
      }
      forall i: nat | 1 <= i < |r| && i != k + 1
        ensures PrevOk(r, i)
      {
        Differ(r, i, k + 1);
        assert old(PrevOk(r, i));
      }
      Passed(r, k);
    }

    // delete_item, of the item at place k.
    method DeleteItem(item: Node, ghost k: nat)
      requires Valid() && 0 < k < |ring| - 1 && item == ring[k]
      modifies this`ring, this`items, this`nums, ring
      ensures Valid() && spare == old(spare)
      ensures |old(items)| == |old(nums)| == |old(ring)| - 2
      ensures items == old(items[..k - 1]) + old(items[k..]) && nums == old(nums[..k - 1]) + old(nums[k..])
      ensures New(item, ring, spare, dummy)
    {
      hide Chain, Apart, Distinct, Inner, NextOk, PrevOk, New;
      EndNumbers();
      Shorter(ring, spare, dummy, k);
      Unlink(item, k);
      NumbersCut(items, nums, k - 1);
      hide Numbered;
      ring := ring[..k] + ring[k + 1..];
      items, nums := items[..k - 1] + items[k..], nums[..k - 1] + nums[k..];
    }

    // The scan of prio_insert for an item to insert before, when neither end of the list is the place.
    method Scan(x: int, desc: bool) returns (p: Node)
      requires Valid() && |ring| > 2
      requires |nums| == |ring| - 2 && !Stops(nums[0], x, desc) && !Stops(x, nums[|nums| - 1], desc)
      ensures Position(nums, x, desc) < |nums| && p == ring[Position(nums, x, desc) + 1]
    {
      ghost var ns := nums;
      Ends(ring);
      InnerAll(ring);
      hide Chain, Apart, Distinct, Inner;
      assert NextOk(ring, 0) && NextOk(ring, 1);
      p := head.flink.flink;
      ghost var k := 1;
      while !Stops(p.prio, x, desc)
        invariant 1 <= k < |ns| && p == ring[k + 1]
        invariant FirstStop(ns, x, desc, 1) == FirstStop(ns, x, desc, k)
        decreases |ns| - k
      {
        assert NextOk(ring, k + 1);
        p := p.flink;
        k := k + 1;
      }
    }

    /** prio_insert.  The scan stops at an item, so that what the sentinel holds in the place of a number
        is never looked at, even when the list is not sorted. */
    method PrioInsert(node: Node, desc: bool)
      requires Valid() && New(node, ring, spare, dummy)
      modifies this`ring, this`items, this`nums, ring, node
      ensures Valid() && spare == old(spare) && |old(items)| == |old(nums)|
      ensures nums == Inserted(old(nums), Position(old(nums), old(node.prio), desc), old(node.prio))
      ensures items == Inserted(old(items), Position(old(nums), old(node.prio), desc), node)
      ensures node.prio == old(node.prio)
    {
      EndNumbers();
      AtEnds(nums, node.prio, desc);
      hide *;
      if head.flink == head || Stops(head.flink.prio, node.prio, desc) {
        LinkAfter(node, head, 0);
      } else if Stops(node.prio, head.blink.prio, desc) {
        LinkBefore(node, head, |nums|);
      } else {
        var p := Scan(node.prio, desc);
        LinkBefore(node, p, Position(nums, node.prio, desc));
      }
    }

    lemma ItemNumbers()
      requires Valid()
      ensures Numbered(items, nums)
    {
    }

    // The neighbours of the sentinel.
    lemma EndNumbers()
      requires Valid()
      ensures |ring| >= 2 && ring[0] == ring[|ring| - 1] == head && (head.flink == head <==> |ring| == 2)
      ensures |nums| == |items| == |ring| - 2
      ensures |ring| > 2 ==> nums[0] == head.flink.prio && nums[|nums| - 1] == head.blink.prio
    {
      assert NextOk(ring, 0) && PrevOk(ring, |ring| - 1);
      Ends(ring);
      InnerAll(ring);
    }

    // new_curve, new_string and new_graph as far as the list is concerned.
    method NewItem(num: int) returns (n: Node)
      requires Valid()
      modifies this`free, this`spare, this`ring, this`items, this`nums, ring, spare
      ensures Valid() && |old(items)| == |old(nums)| && n.prio == num
      ensures nums == Inserted(old(nums), Position(old(nums), num, false), num)
      ensures items == Inserted(old(items), Position(old(nums), num, false), n)
    {
      EndNumbers();
      hide *;
      n := GetNode();
      SetNumber(n, num);
      PrioInsert(n, false);
    }

    /** get_curve, get_string and get_graph: the one item with this number, which is new only if
        there was none. */
    method GetItem(num: int) returns (n: Node)
      requires Valid() && Strict(nums)
      modifies this`free, this`spare, this`ring, this`items, this`nums, ring, spare
      ensures Valid() && nums == Got(old(nums), num)
      ensures Only(items, n) && n.prio == num && Extends(old(items), items)
    {
      hide *;
      var p, k := FindBack(num);
      if p == head || p.prio < num {
        n := AddItem(num);
      } else {
        n := p;
        SameItems(k - 1, n);
      }
    }

    // The branch for a number that there is not.
    method AddItem(num: int) returns (n: Node)
      requires Valid() && Strict(nums) && num !in nums
      modifies this`free, this`spare, this`ring, this`items, this`nums, ring, spare
      ensures Valid() && nums == Got(old(nums), num)
      ensures Only(items, n) && n.prio == num && Extends(old(items), items)
    {
      ghost var s, ns := items, nums;
      NewNumber(nums, num);
      EndNumbers();
      hide *;
      n := NewItem(num);
      GotStrict(ns, num);
      Added(s, Position(ns, num, false), n);
    }

    lemma Added(s: seq<Node>, k: nat, n: Node)
      requires Valid() && k <= |s| && items == Inserted(s, k, n) && Strict(nums)
      ensures Only(items, n) && Extends(s, items)
    {
      ItemNumbers();
      InsertedAt(s, k, n);
      hide Valid, Inserted;
      OnlyOne(items, nums, k, n);
      StillIn(s, k, n);
    }

    lemma SameItems(k: nat, n: Node)
      requires Valid() && Strict(nums) && k < |items| && items[k] == n
      ensures Only(items, n) && Extends(items, items) && Got(nums, n.prio) == nums
    {
      ItemNumbers();
      hide Valid;
      OnlyOne(items, nums, k, n);
    }

    // The backward scan: k items are not above num.
    method FindBack(num: int) returns (p: Node, ghost k: nat)
      requires Valid() && Strict(nums)
      ensures k <= |items| && |nums| == |items| && p == if k == 0 then head else items[k - 1]
      ensures p == head <==> k == 0
      ensures forall j :: k <= j < |nums| ==> nums[j] > num
      ensures k > 0 ==> p.prio <= num
      ensures num in nums <==> p != head && p.prio == num
    {
      EndNumbers();
      InnerAll(ring);
      assert PrevOk(ring, |ring| - 1);
      hide Chain, Apart, Inner;
      p := head.blink;
      k := |items|;
      while p != head && p.prio > num
        invariant k <= |items| && p == ring[k]
        invariant forall j :: k <= j < |nums| ==> nums[j] > num
        decreases k
      {
        assert k > 0 && PrevOk(ring, k);
        p := p.blink;
        k := k - 1;
      }
      if k > 0 {
        Differ(ring, 0, k);
        assert nums[k - 1] == p.prio;
      }
    }

    // newcurve, newstring and newgraph: an item whose number is one above the last.
    method NextItem() returns (n: Node)
      requires Valid() && Strict(nums)
      modifies this`free, this`spare, this`ring, this`items, this`nums, ring, spare
      ensures Valid() && nums == old(nums) + [NextNumber(old(nums))]
      ensures items == old(items) + [n] && n.prio == NextNumber(old(nums))
    {
      ghost var s := items;
      EndNumbers();
      NextIsLast(nums);
      hide *;
      var num := 0;
      if head.flink != head {
        num := head.blink.prio + 1;
      }
      n := NewItem(num);
      AtEnd(s, n);
    }

    method SetNumber(n: Node, num: int)
      requires Valid() && New(n, ring, spare, dummy)
      modifies n`prio
      ensures Valid() && New(n, ring, spare, dummy) && n.prio == num
    {
      hide Chain, Linked, Apart;
      InnerAll(ring);
      InnerMember(ring, n);
      n.prio := num;
    }
  }

  // n is the one item with its number.
  ghost predicate Only(s: seq<Node>, n: Node)
    reads s
  {
    n in s && forall m :: m in s && m.prio == n.prio ==> m == n
  }

  ghost predicate Extends(s: seq<Node>, s': seq<Node>) {
    forall m :: m in s ==> m in s'
  }

  lemma OnlyOne(s: seq<Node>, ns: seq<int>, k: nat, n: Node)
    requires Numbered(s, ns) && Strict(ns) && k < |s| && s[k] == n
    ensures Only(s, n)
  {
  }

  lemma StillIn(s: seq<Node>, k: nat, n: Node)
    requires k <= |s|
    ensures Extends(s, Inserted(s, k, n))
  {
    InsertedAt(s, k, n);
    hide Inserted;
    forall m | m in s
      ensures m in Inserted(s, k, n)
    {
      var i :| 0 <= i < |s| && s[i] == m;
      assert Inserted(s, k, n)[if i < k then i else i + 1] == m;
    }
  }

  ghost predicate Numbered(s: seq<Node>, ns: seq<int>)
    reads s
  {
    |ns| == |s| && forall i :: 0 <= i < |s| ==> ns[i] == s[i].prio
  }

  lemma NumbersInserted(s: seq<Node>, k: nat, node: Node, ns: seq<int>)
    requires k <= |s| && Numbered(s, ns)
    ensures Numbered(Inserted(s, k, node), Inserted(ns, k, node.prio))
  {
    InsertedAt(s, k, node);
    InsertedAt(ns, k, node.prio);
    hide Inserted;
  }

  lemma InnerMember(ring: seq<Node>, n: Node)
    requires |ring| >= 2 && n !in ring
    ensures n !in Inner(ring)
  {
  }

  lemma AtEnd<T>(s: seq<T>, x: T)
    ensures Inserted(s, |s|, x) == s + [x]
  {
  }

  lemma Shorter(ring: seq<Node>, spare: seq<Node>, dummy: Node, k: nat)
    requires 0 < k < |ring| - 1 && ring[0] == ring[|ring| - 1] && Distinct(ring) && Apart(ring, spare, dummy)
    ensures var r := ring[..k] + ring[k + 1..];
      && Apart(r, spare, dummy) && New(ring[k], r, spare, dummy) && r[0] == ring[0]
      && Inner(r) == Inner(ring)[..k - 1] + Inner(ring)[k..]
  {
  }

  lemma NumbersCut(s: seq<Node>, ns: seq<int>, k: nat)
    requires Numbered(s, ns) && k < |s|
    ensures Numbered(s[..k] + s[k + 1..], ns[..k] + ns[k + 1..])
  {
  }

  // The first and the last item next to the sentinel.
  lemma Ends(ring: seq<Node>)
    requires |ring| >= 2 && ring[0] == ring[|ring| - 1] && Distinct(ring)
    ensures ring[1] == ring[0] <==> |ring| == 2
    ensures |ring| > 2 ==> Inner(ring)[0] == ring[1] && Inner(ring)[|ring| - 3] == ring[|ring| - 2]
  {
  }

  // The numbers after an item is asked for.
  function Got(ns: seq<int>, x: int): seq<int> {
    if x in ns then ns else Inserted(ns, Position(ns, x, false), x)
  }

  lemma NewNumber(ns: seq<int>, x: int)
    requires x !in ns
    ensures Got(ns, x) == Inserted(ns, Position(ns, x, false), x)
  {
  }

  lemma GotStrict(ns: seq<int>, x: int)
    requires Strict(ns)
    ensures Strict(Got(ns, x))
  {
    if x !in ns { InsertStrict(ns, x); }
  }

  function NextNumber(ns: seq<int>): int {
    if ns == [] then 0 else ns[|ns| - 1] + 1
  }

  lemma NextIsLast(ns: seq<int>)
    requires Strict(ns)
    ensures Position(ns, NextNumber(ns), false) == |ns|
    ensures Inserted(ns, |ns|, NextNumber(ns)) == ns + [NextNumber(ns)]
    ensures NextNumber(ns) !in ns && Strict(ns + [NextNumber(ns)])
  {
    if ns != [] {
      assert ns[0] <= ns[|ns| - 1];
    }
    assert ns[|ns|..] == [];
  }
}
