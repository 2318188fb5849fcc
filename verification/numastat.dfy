/** The running mean of all/c/parse_numastat.h: one integer average for each memory node, kept up
    with a division that truncates. */
module Numastat {

  // C's division.
  function Quotient(a: int, b: int): int
    requires b > 0
  {
    if a >= 0 then a / b else -((-a) / b)
  }

  // The average after the samples, in their order.
  function Average(xs: seq<int>): int {
    if xs == [] then 0
    else
      var n := |xs| - 1;
      Average(xs[..n]) + Quotient(xs[n] - Average(xs[..n]), n + 1)
  }

  function Sum(xs: seq<int>): int {
    if xs == [] then 0 else Sum(xs[..|xs| - 1]) + xs[|xs| - 1]
  }

  // The samples of node i.
  function Node(vals: seq<seq<int>>, i: nat): (r: seq<int>)
    requires forall n :: 0 <= n < |vals| ==> i < |vals[n]|
    ensures |r| == |vals|
  {
    seq(|vals|, n requires 0 <= n < |vals| => vals[n][i])
  }

  /** The loops over the intervals of the file: nodes are as many as in the last of them,
      and none has fewer. */
  method Averages(vals: seq<seq<int>>, nodes: nat) returns (avgs: array<int>)
    requires forall n :: 0 <= n < |vals| ==> nodes <= |vals[n]|
    ensures avgs.Length == nodes
    ensures forall i :: 0 <= i < nodes ==> avgs[i] == Average(Node(vals, i))
  {
    avgs := new int[nodes](_ => 0);
    for i := 0 to nodes
      invariant forall k :: 0 <= k < i ==> avgs[k] == Average(Node(vals, k))
    {
      avgs[i] := 0;
      ghost var xs := Node(vals, i);
      for n := 0 to |vals|
        invariant avgs[i] == Average(xs[..n])
        invariant forall k :: 0 <= k < i ==> avgs[k] == Average(Node(vals, k))
      {
        assert xs[..n + 1][..n] == xs[..n];
        avgs[i] := avgs[i] + Quotient(vals[n][i] - avgs[i], n + 1);
      }
      assert xs[..|vals|] == xs;
    }
  }

  predicate Between(xs: seq<int>, low: int, high: int) {
    forall i :: 0 <= i < |xs| ==> low <= xs[i] <= high
  }

  // A part of the way, cut off toward zero.
  lemma Toward(a: int, b: int)
    requires b > 0
    ensures 0 <= a ==> 0 <= Quotient(a, b) <= a
    ensures a <= 0 ==> a <= Quotient(a, b) <= 0
    ensures -(b - 1) <= a - b * Quotient(a, b) <= b - 1
  {
    var c := if a >= 0 then a else -a;
    assert c == (c / b) * b + c % b;
    More(c / b, b);
  }

  // The quotient is cut off toward zero, and there is only one such number.
  lemma QuotientMeans(a: int, b: int, q: int)
    requires b > 0
    ensures q == Quotient(a, b) <==> if a >= 0 then b * q <= a < b * q + b else b * q - b < a <= b * q
  {
    if a >= 0 {
      DivisionMeans(a, b, q);
    } else {
      DivisionMeans(-a, b, -q);
      assert b * -q == -(b * q);
    }
  }

  lemma DivisionMeans(a: int, b: int, q: int)
    requires a >= 0 && b > 0
    ensures q == a / b <==> b * q <= a < b * q + b
  {
    var p, r := a / b, a % b;
    assert a == b * p + r;
    if q < p {
      assert b * p == b * q + (p - q) * b && (p - q) * b == b + (p - q - 1) * b;
      Positive(p - q - 1, b);
    } else if q > p {
      assert b * q == b * p + (q - p) * b && (q - p) * b == b + (q - p - 1) * b;
      Positive(q - p - 1, b);
    }
  }

  lemma Positive(a: int, b: int)
    requires a >= 0 && b > 0
    ensures a * b >= 0
  {
  }

  lemma More(q: int, b: int)
    requires q >= 0 && b > 0
    ensures q * b >= q
  {
    assert q * b == q + q * (b - 1);
  }

  /** The average lies between any bounds of the samples, so no step overflows when they do not. */
  lemma {:induction false} AverageBetween(xs: seq<int>, low: int, high: int)
    requires xs != [] && Between(xs, low, high)
    ensures low <= Average(xs) <= high
  {
    var n := |xs| - 1;
    var ys := xs[..n];
    hide Quotient;
    if ys == [] {
      Toward(xs[0], 1);
    } else {
      AverageBetween(ys, low, high);
      Toward(xs[n] - Average(ys), n + 1);
    }
  }

  /** The average differs from the exact mean by at most half of the number of earlier samples:
      both sides are multiplied by twice the number of samples here. */
  lemma {:induction false} AverageNear(xs: seq<int>)
    ensures -(|xs| * (|xs| - 1)) <= 2 * (|xs| * Average(xs) - Sum(xs)) <= |xs| * (|xs| - 1)
  {
    if xs != [] {
      var n := |xs| - 1;
      var ys := xs[..n];
      AverageNear(ys);
      Toward(xs[n] - Average(ys), n + 1);
      hide Quotient;
      OneMore(n, Average(ys), Quotient(xs[n] - Average(ys), n + 1), Sum(ys), xs[n]);
    }
  }

  lemma OneMore(n: int, a: int, q: int, sum: int, x: int)
    requires n >= 0 && -n <= (x - a) - (n + 1) * q <= n
    requires -(n * (n - 1)) <= 2 * (n * a - sum) <= n * (n - 1)
    ensures -((n + 1) * n) <= 2 * ((n + 1) * (a + q) - (sum + x)) <= (n + 1) * n
  {
    assert (n + 1) * (a + q) == n * a + a + (n + 1) * q;
    assert (n + 1) * n == n * (n - 1) + 2 * n;
  }
}
