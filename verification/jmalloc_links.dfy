/** Circular doubly linked lists kept in two maps, one for each direction: what the
    four assignments that link a node in, and the two that unlink it, do to the list. */
module JmallocLinks {
  import opened JmallocHeap

  function Step(s: seq<int>, i: nat): (j: nat)
    requires i < |s|
    ensures j < |s|
  {
    if i + 1 == |s| then 0 else i + 1
  }

  predicate Linked(nx: map<int, int>, pv: map<int, int>, a: int, b: int) {
    a in nx && b in pv && nx[a] == b && pv[b] == a
  }

  // Walking nx from s[0] visits s in order and comes back, and pv is the inverse.
  predicate Circular(nx: map<int, int>, pv: map<int, int>, s: seq<int>) {
    && |s| > 0 && NoDup(s)
    && forall i :: 0 <= i < |s| ==> Linked(nx, pv, s[i], s[Step(s, i)])
  }

  function InsertAt(s: seq<int>, k: nat, y: int): seq<int>
    requires k < |s|
  {
    s[..k + 1] + [y] + s[k + 1..]
  }

  function DropAt(s: seq<int>, k: nat): seq<int>
    requires k < |s|
  {
    s[..k] + s[k + 1..]
  }

  // The successor and predecessor of s[k].
  lemma Neighbours(nx: map<int, int>, pv: map<int, int>, s: seq<int>, k: nat)
    requires Circular(nx, pv, s) && k < |s|
    ensures s[k] in nx && s[k] in pv && nx[s[k]] == s[Step(s, k)] && pv[s[k]] == if k == 0 then s[|s| - 1] else s[k - 1]
    ensures nx[s[k]] in nx && nx[s[k]] in pv && pv[s[k]] in nx && pv[s[k]] in pv
  {
    var j := if k == 0 then |s| - 1 else k - 1;
    assert Linked(nx, pv, s[k], s[Step(s, k)]) && Linked(nx, pv, s[j], s[Step(s, j)]);
    assert Linked(nx, pv, s[Step(s, k)], s[Step(s, Step(s, k))]);
    var m := if j == 0 then |s| - 1 else j - 1;
    assert Linked(nx, pv, s[m], s[Step(s, m)]);
  }

  // Links y in between s[k] and its successor.
  lemma LinkIn(nx: map<int, int>, pv: map<int, int>, s: seq<int>, k: nat, y: int)
    requires Circular(nx, pv, s) && k < |s| && y !in s
    ensures s[k] in nx
    ensures Circular(nx[y := nx[s[k]]][s[k] := y], pv[y := s[k]][nx[s[k]] := y], InsertAt(s, k, y))
  {
    Neighbours(nx, pv, s, k);
    var t := InsertAt(s, k, y);
    forall i | 0 <= i < |t|
      ensures Linked(nx[y := nx[s[k]]][s[k] := y], pv[y := s[k]][nx[s[k]] := y], t[i], t[Step(t, i)])
    {
      LinkInAt(nx, pv, s, k, y, i);
    }
  }

  lemma LinkInAt(nx: map<int, int>, pv: map<int, int>, s: seq<int>, k: nat, y: int, i: nat)
    requires Circular(nx, pv, s) && k < |s| && y !in s && i <= |s| && s[k] in nx && nx[s[k]] == s[Step(s, k)]
    ensures var t := InsertAt(s, k, y);
      Linked(nx[y := nx[s[k]]][s[k] := y], pv[y := s[k]][nx[s[k]] := y], t[i], t[Step(t, i)])
  {
    var t := InsertAt(s, k, y);
    if i < k || i > k + 1 {
      var j := if i < k then i else i - 1;
      assert t[i] == s[j] && t[Step(t, i)] == s[Step(s, j)];
      assert Linked(nx, pv, s[j], s[Step(s, j)]);
      assert s[Step(s, j)] != s[Step(s, k)];
    } else if i == k + 1 {
      assert t[Step(t, i)] == s[Step(s, k)];
    }
  }

  // Unlinks s[k], which is not the sentinel.
  lemma LinkOut(nx: map<int, int>, pv: map<int, int>, s: seq<int>, k: nat)
    requires Circular(nx, pv, s) && 0 < k < |s|
    ensures s[k] in nx && s[k] in pv
    ensures Circular(nx[pv[s[k]] := nx[s[k]]], pv[nx[s[k]] := pv[s[k]]], DropAt(s, k))
  {
    Neighbours(nx, pv, s, k);
    var t := DropAt(s, k);
    forall i | 0 <= i < |t|
      ensures Linked(nx[pv[s[k]] := nx[s[k]]], pv[nx[s[k]] := pv[s[k]]], t[i], t[Step(t, i)])
    {
      LinkOutAt(nx, pv, s, k, i);
    }
  }

  lemma LinkOutAt(nx: map<int, int>, pv: map<int, int>, s: seq<int>, k: nat, i: nat)
    requires Circular(nx, pv, s) && 0 < k < |s| && i < |s| - 1
    requires s[k] in nx && s[k] in pv && nx[s[k]] == s[Step(s, k)] && pv[s[k]] == s[k - 1]
    ensures var t := DropAt(s, k);
      Linked(nx[pv[s[k]] := nx[s[k]]], pv[nx[s[k]] := pv[s[k]]], t[i], t[Step(t, i)])
  {
    var t := DropAt(s, k);
    if i == k - 1 {
      assert t[Step(t, i)] == s[Step(s, k)];
    } else {
      var j := if i < k then i else i + 1;
      assert t[i] == s[j] && t[Step(t, i)] == s[Step(s, j)];
      assert Linked(nx, pv, s[j], s[Step(s, j)]);
      assert s[Step(s, j)] != s[Step(s, k)];
    }
  }

  // A node outside the list may hold anything.
  lemma Outside(nx: map<int, int>, pv: map<int, int>, s: seq<int>, y: int, v: int)
    requires Circular(nx, pv, s) && y !in s
    ensures Circular(nx[y := v], pv, s) && Circular(nx, pv[y := v], s)
  {
    forall i | 0 <= i < |s|
      ensures Linked(nx[y := v], pv, s[i], s[Step(s, i)]) && Linked(nx, pv[y := v], s[i], s[Step(s, i)])
    {
      assert Linked(nx, pv, s[i], s[Step(s, i)]);
    }
  }

  // Links y in last, in front of the sentinel s[0].
  lemma LinkLast(nx: map<int, int>, pv: map<int, int>, s: seq<int>, y: int)
    requires Circular(nx, pv, s) && y !in s
    ensures s[0] in pv && pv[s[0]] in nx
    ensures Circular(nx[y := s[0]][pv[s[0]] := y], pv[y := pv[s[0]]][s[0] := y], s + [y])
  {
    Neighbours(nx, pv, s, 0);
    Neighbours(nx, pv, s, |s| - 1);
    LinkIn(nx, pv, s, |s| - 1, y);
    assert InsertAt(s, |s| - 1, y) == s + [y];
  }

  // k steps along a link field from a.
  function Follow(link: map<int, int>, a: int, k: nat): int {
    if k == 0 then a
    else var b := Follow(link, a, k - 1); if b in link then link[b] else b
  }

  // k steps forwards lead to the k-th element, one round leads back, and every step
  // backwards undoes one forwards.
  lemma {:induction false} Walk(nx: map<int, int>, pv: map<int, int>, s: seq<int>, k: nat)
    requires Circular(nx, pv, s) && k <= |s|
    ensures Follow(nx, s[0], k) == if k < |s| then s[k] else s[0]
    ensures k > 0 ==> Follow(nx, s[0], k) in pv && pv[Follow(nx, s[0], k)] == Follow(nx, s[0], k - 1)
  {
    if k > 0 {
      Walk(nx, pv, s, k - 1);
      assert Linked(nx, pv, s[k - 1], s[Step(s, k - 1)]);
    }
  }
}
