/** Automatic hash marks of a linear axis: process_axis1 and process_axis2 of
    tools/jgraph/process.c, with real numbers for its floats. */
module AxisMarks {
  import opened Options

  // The value that stands for a number not given.
  const FSIG: real := -10010.0

  const POINTS_PER_INCH: real := 72.0

  function Pow10(k: int): (r: real)
    ensures r > 0.0
    decreases if k >= 0 then k else -k
  {
    if k == 0 then 1.0 else if k > 0 then 10.0 * Pow10(k - 1) else Pow10(k + 1) / 10.0
  }

  // One, two or five times a power of ten.
  ghost predicate Round(d: real) {
    exists k: int :: d == Pow10(k) || d == 2.0 * Pow10(k) || d == 5.0 * Pow10(k)
  }

  lemma PowStep(k: int)
    ensures Pow10(k + 1) == 10.0 * Pow10(k)
  {
  }

  lemma IsRound(d: real, k: int)
    requires d == Pow10(k) || d == 2.0 * Pow10(k) || d == 5.0 * Pow10(k)
    ensures Round(d)
  {
  }

  function Per(s: real, d: real): real
    requires d > 0.0
  {
    s / d
  }

  lemma Times(s: real, d: real, c: real)
    requires d > 0.0 && c > 0.0
    ensures d * c > 0.0 && Per(s, d * c) == Per(s, d) / c
  {
    var q := s / d;
    assert q * d == s;
    assert (q / c) * (d * c) == q * d;
  }

  lemma Positive(e: real, c: real)
    requires c > 0.0 && e * c > 0.0
    ensures e > 0.0
  {
    assert (-e) * c == -(e * c);
    if e <= 0.0 { Product(-e, c); }
  }

  lemma Over(s: real, d: real, c: real)
    requires d > 0.0 && c > 0.0
    ensures d / c > 0.0 && Per(s, d / c) == Per(s, d) * c
  {
    var e := d / c;
    assert e * c == d;
    Positive(e, c);
    Times(s, e, c);
  }

  lemma Product(a: real, b: real)
    requires a >= 0.0 && b >= 0.0
    ensures a * b >= 0.0
  {
  }

  lemma Reciprocals(s: real, d: real, q: real, p: real)
    requires s > 0.0 && d > 0.0 && q <= 2.0 && q * d == s && p * s == 4.0 * d
    ensures p >= 2.0
  {
    Cancel(q, 2.0, d);
    assert s <= 2.0 * d;
    Cancel(p, 2.0, s);
  }

  lemma Inverse(s: real, d: real)
    requires s > 0.0 && d > 0.0 && Per(s, d) <= 2.0
    ensures Per(4.0 * d, s) >= 2.0
  {
    Reciprocals(s, d, s / d, 4.0 * d / s);
  }

  lemma Tenth(s: real, d: real)
    requires s > 0.0
    ensures Per(4.0 * (d / 10.0), s) == Per(4.0 * d, s) / 10.0
  {
    var q := 4.0 * d / s;
    assert q * s == 4.0 * d;
    assert (q / 10.0) * s == 4.0 * (d / 10.0);
  }

  // A round number is at most half of a power of ten, or one, two or five times it, or ten times it
  // or more.
  lemma RoundAt(x: real, k: int)
    requires Round(x)
    ensures 0.0 < x && (2.0 * x <= Pow10(k) || x == Pow10(k) || x == 2.0 * Pow10(k) || x == 5.0 * Pow10(k) || x >= 10.0 * Pow10(k))
  {
    var j: int :| x == Pow10(j) || x == 2.0 * Pow10(j) || x == 5.0 * Pow10(j);
    if j < k {
      PowLess(j, k);
    } else if j > k {
      PowLess(k, j);
    }
    hide Pow10, Round;
  }

  // Every smaller round number goes 6 times or more into s,
  ghost predicate TooMany(s: real, d: real) {
    forall x: real :: x > 0.0 && Round(x) && x < d ==> Per(s, x) >= 6.0
  }

  // and every larger one, up to 1, twice or less.
  ghost predicate TooFew(s: real, d: real) {
    forall x: real :: x > 0.0 && Round(x) && d < x <= 1.0 ==> Per(s, x) <= 2.0
  }

  // The round numbers from one power of ten to the next.
  predicate Neighbours(a: real, b: real, k: int) {
    (a == Pow10(k) && b == 2.0 * a) || (a == 2.0 * Pow10(k) && b == 2.5 * a) || (a == 5.0 * Pow10(k) && b == 2.0 * a)
  }

  lemma NoneBetween(a: real, b: real, k: int, x: real)
    requires Neighbours(a, b, k) && Round(x)
    ensures x <= a || x >= b
  {
    RoundAt(x, k);
    hide Pow10, Round;
  }

  lemma MoreTooMany(s: real, a: real, b: real, k: int)
    requires Neighbours(a, b, k) && TooMany(s, a) && a > 0.0 && Per(s, a) >= 6.0
    ensures TooMany(s, b)
  {
    hide Neighbours, Round, Per;
    forall x: real | x > 0.0 && Round(x) && x < b
      ensures Per(s, x) >= 6.0
    {
      NoneBetween(a, b, k, x);
    }
  }

  lemma MoreTooFew(s: real, a: real, b: real, k: int)
    requires Neighbours(a, b, k) && TooFew(s, b) && b > 0.0 && Per(s, b) <= 2.0
    ensures TooFew(s, a)
  {
    hide Neighbours, Round, Per;
    forall x: real | x > 0.0 && Round(x) && a < x <= 1.0
      ensures Per(s, x) <= 2.0
    {
      NoneBetween(a, b, k, x);
    }
  }

  lemma FromOne(s: real)
    requires s > 0.0
    ensures s > 5.0 ==> TooMany(s, 1.0)
    ensures TooFew(s, 1.0)
  {
    assert Pow10(0) == 1.0;
    hide Round, Pow10;
    if s > 5.0 {
      forall x: real | x > 0.0 && Round(x) && x < 1.0
        ensures Per(s, x) >= 6.0
      {
        RoundAt(x, 0);
        AtLeastSix(s, x, s / x);
      }
    }
  }

  lemma AtLeastSix(s: real, x: real, q: real)
    requires s > 5.0 && 0.0 < x <= 0.5 && q * x == s
    ensures q >= 6.0
  {
    Cancel(q, 6.0, x);
  }

  // The search of find_reasonable_hash_interval for a span over 5: ever larger intervals.
  method Coarser(s: real) returns (d: real)
    requires s > 5.0
    ensures d > 0.0 && Round(d) && 2.0 < Per(s, d) < 6.0 && TooMany(s, d)
  {
    hide Per, Pow10, Round, TooMany;
    d := 1.0;
    ghost var k := 0;
    One(s);
    FromOne(s);
    while true
      invariant d > 0.0 && d == Pow10(k) && Per(s, d) > 2.0 && TooMany(s, d)
      decreases Per(s, d)
    {
      IsRound(d, k);
      if Per(s, d) < 6.0 { return; }
      Times(s, d, 2.0);
      MoreTooMany(s, d, d * 2.0, k);
      d := d * 2.0;
      IsRound(d, k);
      if Per(s, d) < 6.0 { return; }
      Times(s, d, 2.5);
      MoreTooMany(s, d, d * 2.5, k);
      d := d * 2.5;
      IsRound(d, k);
      if Per(s, d) < 6.0 { return; }
      Times(s, d, 2.0);
      MoreTooMany(s, d, d * 2.0, k);
      d := d * 2.0;
      PowStep(k);
      k := k + 1;
    }
  }

  // For a span of at most 5: ever smaller ones.
  method Finer(s: real) returns (d: real)
    requires 0.0 < s <= 5.0
    ensures 0.0 < d <= 1.0 && Round(d) && 2.0 < Per(s, d) < 6.0 && TooFew(s, d)
  {
    hide Per, Pow10, Round, TooFew;
    d := 1.0;
    ghost var k := 0;
    One(s);
    FromOne(s);
    while true
      invariant 0.0 < d <= 1.0 && d == Pow10(k) && Per(s, d) < 6.0 && TooFew(s, d)
      decreases Per(4.0 * d, s)
    {
      IsRound(d, k);
      if Per(s, d) > 2.0 { return; }
      Inverse(s, d);
      Tenth(s, d);
      PowStep(k - 1);
      Over(s, d, 2.0);
      MoreTooFew(s, d / 2.0, d, k - 1);
      d := d / 2.0;
      IsRound(d, k - 1);
      if Per(s, d) > 2.0 { return; }
      Over(s, d, 2.5);
      MoreTooFew(s, d / 2.5, d, k - 1);
      d := d / 2.5;
      IsRound(d, k - 1);
      if Per(s, d) > 2.0 { return; }
      Over(s, d, 2.0);
      MoreTooFew(s, d / 2.0, d, k - 1);
      d := d / 2.0;
      k := k - 1;
    }
  }

  lemma One(s: real)
    ensures Per(s, 1.0) == s && Pow10(0) == 1.0
  {
  }

  // The interval is the least round number that goes less than 6 times into a span over 5, and the
  // largest one up to 1 that goes more than twice into any other span.
  ghost predicate Reasonable(s: real, d: real) {
    && 0.0 < d && Round(d) && 2.0 < Per(s, d) < 6.0
    && if s > 5.0 then TooMany(s, d) else d <= 1.0 && TooFew(s, d)
  }

  // There is only one.
  lemma OneReasonable(s: real, a: real, b: real)
    requires Reasonable(s, a) && Reasonable(s, b)
    ensures a == b
  {
    hide Round, Per;
  }

  method FindInterval(min: real, max: real) returns (d: real)
    requires min < max
    ensures d > 0.0 && Reasonable(max - min, d)
  {
    hide Round, TooMany, TooFew;
    if max - min > 5.0 {
      d := Coarser(max - min);
    } else {
      d := Finer(max - min);
    }
  }

  // The conversion of a float to an int drops the fraction.
  function Truncated(x: real): int {
    if x >= 0.0 then x.Floor else -((-x).Floor)
  }

  // find_reasonable_hash_start.
  function FindStart(min: real, max: real, d: real): real
    requires d > 0.0
  {
    if max > 0.0 && min < 0.0 then 0.0 else Truncated(min / d) as real * d
  }

  // A multiple of d.
  function Multiple(d: real, i: int): real {
    i as real * d
  }

  // The start is a multiple of the interval, and above min less one interval.
  lemma Rest(x: real)
    ensures Truncated(x) as real > x - 1.0
  {
  }

  lemma Below(min: real, d: real, x: real, y: real)
    requires d > 0.0 && x * d == min && y > x - 1.0
    ensures y * d > min - d
  {
    Cancel(x - 1.0, y, d);
    assert (x - 1.0) * d == x * d - d;
  }

  lemma StartMeans(min: real, max: real, d: real)
    requires d > 0.0 && min < max
    ensures exists i :: FindStart(min, max, d) == Multiple(d, i)
    ensures FindStart(min, max, d) > min - d
    ensures min < 0.0 < max ==> FindStart(min, max, d) == 0.0
    ensures min >= 0.0 ==> FindStart(min, max, d) <= min
    ensures max <= 0.0 ==> min <= FindStart(min, max, d) < min + d
  {
    var x := min / d;
    assert x * d == min;
    if max > 0.0 && min < 0.0 {
      assert FindStart(min, max, d) == Multiple(d, 0);
    } else {
      var i := Truncated(x);
      Rest(x);
      assert FindStart(min, max, d) == Multiple(d, i);
      Below(min, d, x, i as real);
      Toward(x, min, d);
      hide Truncated;
      Sides(x, i as real, min, d);
    }
  }

  lemma Sides(x: real, y: real, min: real, d: real)
    requires d > 0.0 && x * d == min
    ensures y <= x ==> y * d <= min
    ensures y >= x ==> y * d >= min
    ensures y < x + 1.0 ==> y * d < min + d
  {
    Cancel(y, x, d);
    if y < x + 1.0 { Above(min, d, x, y); }
  }

  lemma Above(min: real, d: real, x: real, y: real)
    requires d > 0.0 && x * d == min && y - 1.0 < x
    ensures y * d < min + d
  {
    Cancel(y - 1.0, x, d);
    assert (y - 1.0) * d == y * d - d;
  }

  lemma Toward(x: real, min: real, d: real)
    requires d > 0.0 && x * d == min
    ensures min >= 0.0 ==> Truncated(x) as real <= x
    ensures min < 0.0 ==> x <= Truncated(x) as real < x + 1.0
  {
    Cancel(x, 0.0, d);
  }

  // find_reasonable_minor_hashes.
  method FindMinor(interval: real) returns (n: int)
    requires interval >= 0.0
    ensures n >= 0 && (interval == 0.0 ==> n == 0)
    ensures interval > 0.0 ==> MinorsOf(interval, n)
    ensures interval > 0.0 && Round(interval) ==> PowerTimes(interval, n + 1)
  {
    hide Round, PowerTimes, Pow10, MinorsOf;
    if interval == 0.0 { return 0; }
    var d := interval;
    ghost var e := 0;
    One(d);
    while d > 10.0
      invariant d > 0.0 && d * Pow10(e) == interval
      decreases d
    {
      Moved(d / 10.0, e);
      d := d / 10.0;
      e := e + 1;
    }
    while d <= 1.0
      invariant 0.0 < d <= 10.0 && d * Pow10(e) == interval
      decreases Per(2.0, d)
    {
      Moved(d, e - 1);
      Shrinks(d);
      d := d * 10.0;
      e := e - 1;
    }
    if d.Floor as real == d {
      n := d.Floor - 1;
      ItsPower(interval, n + 1, e);
    } else {
      n := 0;
      NotRound(interval, d, e);
    }
    ItsMinors(interval, d, e, n);
  }

  // Scaled by a power of ten to a number over 1 and up to 10, the interval is n + 1; n is 0 if it is no
  // whole number.
  ghost predicate MinorsOf(interval: real, n: int) {
    exists k: int :: MinorsAt(interval, n, k)
  }

  predicate MinorsAt(interval: real, n: int, k: int) {
    var d := interval / Pow10(k);
    1.0 < d <= 10.0 && (d == (n + 1) as real || (n == 0 && d != d.Floor as real))
  }

  lemma ItsMinors(interval: real, d: real, e: int, n: int)
    requires 1.0 < d <= 10.0 && d * Pow10(e) == interval
    requires n == if d.Floor as real == d then d.Floor - 1 else 0
    ensures MinorsOf(interval, n)
  {
    SameFactor(d, interval / Pow10(e), Pow10(e));
    hide Pow10;
    assert MinorsAt(interval, n, e);
  }

  lemma SameFactor(a: real, b: real, p: real)
    requires p > 0.0 && a * p == b * p
    ensures a == b
  {
    Cancel(a, b, p);
  }

  // x is a power of ten n times.
  ghost predicate PowerTimes(x: real, n: int) {
    exists k: int :: x == n as real * Pow10(k)
  }

  lemma ItsPower(x: real, n: int, k: int)
    requires x == n as real * Pow10(k)
    ensures PowerTimes(x, n)
  {
  }

  lemma Moved(d: real, e: int)
    ensures (d * 10.0) * Pow10(e) == d * Pow10(e + 1)
  {
    PowStep(e);
    hide Pow10;
    var p := Pow10(e);
    assert (d * 10.0) * p == d * (10.0 * p);
  }

  lemma Shrinks(d: real)
    requires 0.0 < d <= 1.0
    ensures Per(2.0, d * 10.0) <= Per(2.0, d) - 1.0 && Per(2.0, d) > 0.0
  {
    Times(2.0, d, 10.0);
    var q := 2.0 / d;
    assert q * d == 2.0;
    if q < 2.0 {
      Product(2.0 - q, d);
      assert (2.0 - q) * d == 2.0 * d - 2.0;
      assert (2.0 - q) * d > 0.0;
    }
  }

  lemma {:induction false} PowLess(a: int, b: int)
    requires a < b
    ensures Pow10(b) >= 10.0 * Pow10(a)
    decreases b - a
  {
    PowStep(b - 1);
    if a < b - 1 { PowLess(a, b - 1); }
  }

  lemma Cancel(d: real, c: real, p: real)
    requires p > 0.0
    ensures d < c ==> d * p < c * p
    ensures d > c ==> d * p > c * p
    ensures d == c ==> d * p == c * p
  {
    assert (c - d) * p == c * p - d * p;
    if d < c {
      assert (c - d) * p > 0.0;
    } else if d > c {
      assert (d - c) * p > 0.0;
    }
  }

  lemma Apart(d: real, c: real, p: real)
    requires p > 0.0 && d != c
    ensures d * p != c * p
  {
    Cancel(d, c, p);
  }

  lemma NoDigit(d: real)
    requires d.Floor as real != d
    ensures d != 2.0 && d != 5.0 && d != 10.0
  {
  }

  lemma Between(d: real, p: real, x: real)
    requires 1.0 < d <= 10.0 && p > 0.0 && d * p == x && d.Floor as real != d
    ensures p < x < 10.0 * p && x != 2.0 * p && x != 5.0 * p
  {
    NoDigit(d);
    assert p < x by { Cancel(d, 1.0, p); }
    assert x < 10.0 * p by { Cancel(d, 10.0, p); }
    assert x != 2.0 * p by { Apart(d, 2.0, p); }
    assert x != 5.0 * p by { Apart(d, 5.0, p); }
  }

  // Scaled to (1, 10] by a power of ten, a round number is 2, 5 or 10.
  lemma NotRound(x: real, d: real, e: int)
    requires 1.0 < d <= 10.0 && d * Pow10(e) == x && d.Floor as real != d
    ensures !Round(x)
  {
    Between(d, Pow10(e), x);
    if Round(x) {
      var k: int :| x == Pow10(k) || x == 2.0 * Pow10(k) || x == 5.0 * Pow10(k);
      NoPower(x, e, k);
    }
  }

  lemma NoPower(x: real, e: int, k: int)
    requires Pow10(e) < x < 10.0 * Pow10(e) && x != 2.0 * Pow10(e) && x != 5.0 * Pow10(e)
    ensures x != Pow10(k) && x != 2.0 * Pow10(k) && x != 5.0 * Pow10(k)
  {
    hide Pow10;
    PowStep(e);
    if k > e {
      PowLess(e, k);
    } else if k < e {
      PowLess(k, e);
    }
  }

  // ----- the marks -----

  // A hash line: the value on the axis, its place in points, and whether it is a major one, which
  // decides how long it is.
  datatype Mark = Mark(at: real, loc: real, major: bool)

  // A hash label: its place in points, the same in both directions for an automatic one, and the
  // number that an automatic one shows.
  datatype Label = Label(x: real, y: real, value: Option<real>)

  // What the loop depends on.
  datatype Scale = Scale(min: real, max: real, psize: real, factor: real) {
    function Ctop(t: real): real {
      (t - min) * factor
    }

    predicate Inside(t: real) {
      -0.05 < Ctop(t) < psize + 0.05
    }

    predicate Ok() {
      min < max && factor == psize / (max - min)
    }

    function Emit(t: real, major: bool): seq<Mark> {
      if Inside(t) then [Mark(t, Ctop(t), major)] else []
    }

    // The first n minor marks after t, with steps of w.
    function Minors(t: real, w: real, n: nat): seq<Mark> {
      if n == 0 then [] else Minors(t, w, n - 1) + Emit(Nth(t, w, n), false)
    }

    // The first n major marks from t0 with steps of d, each with the m minor marks after it.
    function Majors(t0: real, d: real, m: nat, n: nat): seq<Mark> {
      if n == 0 then [] else Majors(t0, d, m, n - 1) + Group(Nth(t0, d, n - 1), d, m)
    }

    function Group(t: real, d: real, m: nat): seq<Mark> {
      Emit(t, true) + Minors(t, d / (m + 1) as real, m)
    }
  }

  // n steps of w from t.
  function Nth(t: real, w: real, n: nat): real {
    if n == 0 then t else Nth(t, w, n - 1) + w
  }

  lemma {:induction false} NthIs(t: real, w: real, n: nat)
    ensures Nth(t, w, n) == t + Multiple(w, n)
  {
    if n > 0 {
      NthIs(t, w, n - 1);
      assert (n - 1) as real * w + w == n as real * w;
    }
  }

  lemma {:induction false} NthGrows(t: real, w: real, i: nat, j: nat)
    requires w > 0.0 && i <= j
    ensures Nth(t, w, i) <= Nth(t, w, j)
  {
    if i < j { NthGrows(t, w, i, j - 1); }
  }

  // m minor steps and one more make a major step.
  lemma WholeStep(t: real, d: real, m: nat)
    requires d > 0.0
    ensures d / (m + 1) as real > 0.0 && Nth(t, d / (m + 1) as real, m + 1) == t + d
  {
    var w := d / (m + 1) as real;
    assert w * (m + 1) as real == d;
    Positive(w, (m + 1) as real);
    NthIs(t, w, m + 1);
  }

  lemma FullWidth(s: Scale)
    requires s.Ok()
    ensures (s.max - s.min) * s.factor == s.psize && s.Ctop(s.max) == s.psize
  {
  }

  // What is on the whole axis is emitted, exactly when the axis is not too short backwards.
  lemma WholeAxis(s: Scale)
    requires s.Ok()
    ensures s.psize > -0.05 ==> forall t: real :: s.min <= t <= s.max ==> s.Inside(t)
    ensures s.psize <= -0.05 ==> !s.Inside(s.max)
  {
    FullWidth(s);
    forall t: real | s.min <= t <= s.max && s.psize > -0.05
      ensures s.Inside(t)
    {
      CtopShare(s, t);
      hide Scale.Ctop;
    }
  }

  lemma CtopShare(s: Scale, t: real)
    requires s.min <= t <= s.max && (s.max - s.min) * s.factor == s.psize
    ensures 0.0 <= s.Ctop(t) <= s.psize || s.psize <= s.Ctop(t) <= 0.0
  {
    Shared(t - s.min, s.max - s.min, s.factor, s.Ctop(t), s.psize);
  }

  // A part of a span takes its part of the size.
  lemma Shared(a: real, b: real, f: real, x: real, p: real)
    requires 0.0 <= a <= b && x == a * f && p == b * f
    ensures 0.0 <= x <= p || p <= x <= 0.0
  {
    Share(a, b, f);
  }

  lemma Share(a: real, b: real, f: real)
    requires 0.0 <= a <= b
    ensures 0.0 <= a * f <= b * f || b * f <= a * f <= 0.0
  {
    var g := if f >= 0.0 then f else -f;
    Product(a, g);
    Product(b - a, g);
    assert (b - a) * g == b * g - a * g;
  }

  predicate Ascending(ms: seq<Mark>) {
    forall i, j :: 0 <= i < j < |ms| ==> ms[i].at < ms[j].at
  }

  predicate Within(ms: seq<Mark>, low: real, high: real) {
    forall i :: 0 <= i < |ms| ==> low <= ms[i].at < high
  }

  lemma Joined(a: seq<Mark>, b: seq<Mark>, low: real, mid: real, high: real)
    requires Ascending(a) && Ascending(b) && Within(a, low, mid) && Within(b, mid, high) && low <= mid <= high
    ensures Ascending(a + b) && Within(a + b, low, high)
  {
  }

  lemma {:induction false} MinorsAscend(s: Scale, t: real, w: real, n: nat)
    requires w > 0.0
    ensures Ascending(s.Minors(t, w, n)) && Within(s.Minors(t, w, n), t + w, Nth(t, w, n + 1)) && Nth(t, w, n + 1) >= t + w
  {
    if n > 0 {
      MinorsAscend(s, t, w, n - 1);
      var a := Nth(t, w, n);
      Joined(s.Minors(t, w, n - 1), s.Emit(a, false), t + w, a, a + w);
    }
  }

  lemma GroupAscends(s: Scale, t: real, d: real, m: nat)
    requires d > 0.0
    ensures Ascending(s.Group(t, d, m)) && Within(s.Group(t, d, m), t, t + d)
  {
    var w := d / (m + 1) as real;
    WholeStep(t, d, m);
    MinorsAscend(s, t, w, m);
    hide Nth;
    Joined(s.Emit(t, true), s.Minors(t, w, m), t, t + w, t + d);
  }

  /** The marks are in ascending order, each once. */
  lemma {:induction false} MajorsAscend(s: Scale, t0: real, d: real, m: nat, n: nat)
    requires d > 0.0
    ensures Ascending(s.Majors(t0, d, m, n)) && Within(s.Majors(t0, d, m, n), t0, Nth(t0, d, n)) && Nth(t0, d, n) >= t0
  {
    if n > 0 {
      MajorsAscend(s, t0, d, m, n - 1);
      var t := Nth(t0, d, n - 1);
      GroupAscends(s, t, d, m);
      Joined(s.Majors(t0, d, m, n - 1), s.Group(t, d, m), t0, t, t + d);
    }
  }

  // Place j after major mark i.
  function Place(t0: real, d: real, m: nat, i: nat, j: nat): real {
    Nth(Nth(t0, d, i), d / (m + 1) as real, j)
  }

  lemma {:induction false} MinorsHave(s: Scale, t: real, w: real, n: nat, j: nat)
    requires 1 <= j <= n && s.Inside(Nth(t, w, j))
    ensures Mark(Nth(t, w, j), s.Ctop(Nth(t, w, j)), false) in s.Minors(t, w, n)
  {
    if j < n { MinorsHave(s, t, w, n - 1, j); }
  }

  /** Every place inside is marked, */
  lemma {:induction false} MajorsHave(s: Scale, t0: real, d: real, m: nat, n: nat, i: nat, j: nat)
    requires i < n && j <= m && s.Inside(Place(t0, d, m, i, j))
    ensures Mark(Place(t0, d, m, i, j), s.Ctop(Place(t0, d, m, i, j)), j == 0) in s.Majors(t0, d, m, n)
  {
    hide Place, Nth;
    if i < n - 1 {
      MajorsHave(s, t0, d, m, n - 1, i, j);
    } else {
      GroupHas(s, t0, d, m, i, j);
    }
  }

  lemma GroupHas(s: Scale, t0: real, d: real, m: nat, i: nat, j: nat)
    requires j <= m && s.Inside(Place(t0, d, m, i, j))
    ensures Mark(Place(t0, d, m, i, j), s.Ctop(Place(t0, d, m, i, j)), j == 0) in s.Group(Nth(t0, d, i), d, m)
  {
    var t, w := Nth(t0, d, i), d / (m + 1) as real;
    var k := Mark(Place(t0, d, m, i, j), s.Ctop(Place(t0, d, m, i, j)), j == 0);
    if j > 0 {
      MinorsHave(s, t, w, m, j);
      assert k in s.Minors(t, w, m);
    } else {
      FirstPlace(t, w, j);
      assert k in s.Emit(t, true);
    }
  }

  lemma FirstPlace(t: real, w: real, j: nat)
    requires j == 0
    ensures Nth(t, w, j) == t
  {
  }

  ghost predicate IsMark(s: Scale, t0: real, d: real, m: nat, i: nat, j: nat, k: Mark) {
    j <= m && k == Mark(Place(t0, d, m, i, j), s.Ctop(Place(t0, d, m, i, j)), j == 0) && s.Inside(k.at)
  }

  lemma {:induction false} MinorPlace(s: Scale, t: real, w: real, n: nat, k: Mark) returns (j: nat)
    requires k in s.Minors(t, w, n)
    ensures 1 <= j <= n && k == Mark(Nth(t, w, j), s.Ctop(Nth(t, w, j)), false) && s.Inside(k.at)
  {
    if k in s.Minors(t, w, n - 1) {
      j := MinorPlace(s, t, w, n - 1, k);
    } else {
      j := n;
    }
  }

  /** and nothing else. */
  lemma {:induction false} MarkPlace(s: Scale, t0: real, d: real, m: nat, n: nat, k: Mark) returns (i: nat, j: nat)
    requires k in s.Majors(t0, d, m, n)
    ensures i < n && IsMark(s, t0, d, m, i, j, k)
  {
    var t := Nth(t0, d, n - 1);
    if k in s.Majors(t0, d, m, n - 1) {
      i, j := MarkPlace(s, t0, d, m, n - 1, k);
    } else if k in s.Emit(t, true) {
      i, j := n - 1, 0;
    } else {
      i := n - 1;
      j := MinorPlace(s, t, d / (m + 1) as real, m, k);
    }
  }

  // ----- the loops -----

  lemma NotNegative(q: real, d: real)
    requires d > 0.0 && q * d >= 0.0
    ensures q >= 0.0
  {
    assert (-q) * d == -(q * d);
    if q < 0.0 { Both(-q, d); }
  }

  lemma FloorNotNegative(q: real)
    requires q >= 0.0
    ensures q.Floor >= 0
  {
  }

  lemma Both(a: real, b: real)
    requires a > 0.0 && b > 0.0
    ensures a * b > 0.0
  {
  }

  lemma OneStep(t: real, d: real)
    requires d > 0.0
    ensures (t - d) / d == t / d - 1.0
    ensures t >= 0.0 ==> (t / d).Floor >= 0
  {
    var q := t / d;
    assert q * d == t;
    assert (q - 1.0) * d == q * d - d;
    var r := (t - d) / d;
    assert r * d == t - d;
    Cancel(r, q - 1.0, d);
    if t >= 0.0 {
      NotNegative(q, d);
      FloorNotNegative(q);
    }
  }

  // The backing-up loop: the first value at or below min.
  function BackTo(t: real, min: real, d: real): real
    requires d > 0.0
    decreases if t > min then ((t - min) / d).Floor + 1 else 0
  {
    if t <= min then t
    else
      OneStep(t - min, d);
      BackTo(t - d, min, d)
  }

  // How many steps of d from t stay at or below max.
  function Count(t: real, max: real, d: real): nat
    requires d > 0.0
    decreases if t <= max then ((max - t) / d).Floor + 1 else 0
  {
    if t > max then 0
    else
      OneStep(max - t, d);
      1 + Count(t + d, max, d)
  }

  lemma NoSteps(d: real)
    ensures Multiple(d, 0) == 0.0
  {
  }

  lemma {:induction false} BackMeans(t: real, min: real, d: real) returns (c: nat)
    requires d > 0.0
    ensures BackTo(t, min, d) + Multiple(d, c) == t
    ensures BackTo(t, min, d) <= min && (c > 0 ==> BackTo(t, min, d) > min - d)
    decreases if t > min then ((t - min) / d).Floor + 1 else 0
  {
    if t <= min {
      c := 0;
      NoSteps(d);
    } else {
      OneStep(t - min, d);
      var b := BackMeans(t - d, min, d);
      c := b + 1;
      assert Multiple(d, b + 1) == Multiple(d, b) + d;
    }
  }

  lemma {:induction false} CountMeans(t: real, max: real, d: real)
    requires d > 0.0
    ensures var n := Count(t, max, d); Nth(t, d, n) > max && (n > 0 ==> Nth(t, d, n) <= max + d)
    decreases if t <= max then ((max - t) / d).Floor + 1 else 0
  {
    if t <= max {
      OneStep(max - t, d);
      CountMeans(t + d, max, d);
      NthShift(t, d, Count(t + d, max, d));
    }
  }

  lemma {:induction false} NthShift(t: real, d: real, n: nat)
    ensures Nth(t + d, d, n) == Nth(t, d, n + 1)
  {
    if n > 0 { NthShift(t, d, n - 1); }
  }

  // The marks that process_axis2 adds.
  function AutoMarks(s: Scale, start: real, d: real, m: nat): seq<Mark>
    requires d > 0.0
  {
    var t0 := BackTo(start, s.min, d);
    s.Majors(t0, d, m, Count(t0, s.max, d))
  }

  // The value i intervals and j minor steps from the start.
  function Value(start: real, d: real, m: nat, i: int, j: nat): real {
    start + Multiple(d, i) + Multiple(d / (m + 1) as real, j)
  }

  lemma PlaceIs(start: real, t0: real, d: real, m: nat, c: nat, i: nat, j: nat)
    requires t0 + Multiple(d, c) == start
    ensures Place(t0, d, m, i, j) == Value(start, d, m, i - c, j)
  {
    NthIs(t0, d, i);
    NthIs(Nth(t0, d, i), d / (m + 1) as real, j);
    assert (i - c) as real * d == i as real * d - c as real * d;
  }

  lemma AtLeast(t0: real, d: real, i: int, min: real, rest: real)
    requires d > 0.0 && t0 <= min <= t0 + Multiple(d, i) + rest && rest < d
    ensures i >= 0
  {
    assert (-i - 1) as real * d == -(i as real * d) - d;
    if i < 0 {
      Product((-i - 1) as real, d);
    }
  }

  // A minor place comes before the next major one.
  lemma MinorRest(d: real, m: nat, j: nat)
    requires d > 0.0 && j <= m
    ensures 0.0 <= Multiple(d / (m + 1) as real, j) < d
  {
    var w := d / (m + 1) as real;
    WholeStep(0.0, d, m);
    NthIs(0.0, w, m + 1);
    NthIs(0.0, w, j);
    NthGrows(0.0, w, 0, j);
    NthGrows(0.0, w, j, m);
  }

  // Where a value of the progression that is on the axis stands among the marks.
  lemma ValuePlace(s: Scale, start: real, d: real, m: nat, i: int, j: nat) returns (k: nat)
    requires d > 0.0 && j <= m && s.min <= Value(start, d, m, i, j) <= s.max
    ensures k < Count(BackTo(start, s.min, d), s.max, d)
    ensures Place(BackTo(start, s.min, d), d, m, k, j) == Value(start, d, m, i, j)
  {
    var t0 := BackTo(start, s.min, d);
    var n := Count(t0, s.max, d);
    var c := BackMeans(start, s.min, d);
    MinorRest(d, m, j);
    AddMultiples(d, i, c);
    hide Multiple, BackTo, Count, Nth, Place;
    AtLeast(t0, d, i + c, s.min, Multiple(d / (m + 1) as real, j));
    k := i + c;
    CountMeans(t0, s.max, d);
    NthIs(t0, d, k);
    if k >= n {
      NthGrows(t0, d, n, k);
    }
    PlaceIs(start, t0, d, m, c, k, j);
  }

  lemma AddMultiples(d: real, i: int, j: int)
    ensures Multiple(d, i + j) == Multiple(d, i) + Multiple(d, j)
  {
  }

  /** Every value of the progression on the axis is marked, major exactly when it is a whole number of
      intervals from the start, */
  lemma MarksAll(s: Scale, start: real, d: real, m: nat, i: int, j: nat)
    requires s.Ok() && s.psize > -0.05 && d > 0.0 && j <= m
    requires s.min <= Value(start, d, m, i, j) <= s.max
    ensures var t := Value(start, d, m, i, j); Mark(t, s.Ctop(t), j == 0) in AutoMarks(s, start, d, m)
  {
    WholeAxis(s);
    assert s.Inside(Value(start, d, m, i, j));
    hide Value, BackTo, Count, Place;
    var k := ValuePlace(s, start, d, m, i, j);
    var t0 := BackTo(start, s.min, d);
    MajorsHave(s, t0, d, m, Count(t0, s.max, d), k, j);
  }

  /** and every mark is such a value, less than .05 points outside the axis; the major ones are
      never above max. */
  lemma MarksOnly(s: Scale, start: real, d: real, m: nat, k: Mark) returns (i: int, j: nat)
    requires s.Ok() && d > 0.0 && k in AutoMarks(s, start, d, m)
    ensures j <= m && k == Mark(Value(start, d, m, i, j), s.Ctop(k.at), j == 0) && s.Inside(k.at)
    ensures k.major ==> k.at <= s.max
  {
    var t0 := BackTo(start, s.min, d);
    var n := Count(t0, s.max, d);
    var c := BackMeans(start, s.min, d);
    hide BackTo, Count;
    CountMeans(t0, s.max, d);
    i, j := MarkPlace(s, t0, d, m, n, k);
    PlaceIs(start, t0, d, m, c, i, j);
    NthGrows(t0, d, i, n - 1);
    i := i - c;
  }

  /** With an automatic start there is at most one major mark below min, and it is the last
      value of the progression there. */
  lemma OneBelow(s: Scale, start: real, d: real, m: nat, k: Mark)
    requires s.Ok() && d > 0.0 && start > s.min - d
    requires k in AutoMarks(s, start, d, m) && k.major && k.at < s.min
    ensures k.at == BackTo(start, s.min, d) > s.min - d
  {
    var t0 := BackTo(start, s.min, d);
    var n := Count(t0, s.max, d);
    var c := BackMeans(start, s.min, d);
    NoSteps(d);
    assert Nth(t0, d, 1) == t0 + d;
    hide BackTo, Count, Multiple;
    var i, j := MarkPlace(s, t0, d, m, n, k);
    if i > 0 {
      NthGrows(t0, d, 1, i);
    }
  }

  /** With the automatic start, the major marks are the multiples of the interval on the axis, and at
      most the last multiple below min, when it is less than .05 points away. */
  lemma MultiplesMarked(s: Scale, d: real, m: nat, i: int)
    requires s.Ok() && s.psize > -0.05 && d > 0.0 && s.min <= Multiple(d, i) <= s.max
    ensures Mark(Multiple(d, i), s.Ctop(Multiple(d, i)), true) in AutoMarks(s, FindStart(s.min, s.max, d), d, m)
  {
    StartMeans(s.min, s.max, d);
    var a :| FindStart(s.min, s.max, d) == Multiple(d, a);
    AddMultiples(d, a, i - a);
    NoSteps(d / (m + 1) as real);
    hide Multiple, FindStart, AutoMarks;
    MarksAll(s, FindStart(s.min, s.max, d), d, m, i - a, 0);
  }

  lemma OnlyMultiples(s: Scale, d: real, m: nat, k: Mark) returns (i: int)
    requires s.Ok() && d > 0.0 && k in AutoMarks(s, FindStart(s.min, s.max, d), d, m) && k.major
    ensures k == Mark(Multiple(d, i), s.Ctop(Multiple(d, i)), true)
    ensures s.min - d < k.at <= s.max && s.Inside(k.at)
  {
    StartMeans(s.min, s.max, d);
    var a :| FindStart(s.min, s.max, d) == Multiple(d, a);
    var j;
    i, j := MarksOnly(s, FindStart(s.min, s.max, d), d, m, k);
    AddMultiples(d, a, i);
    NoSteps(d / (m + 1) as real);
    i := i + a;
    if k.at < s.min {
      OneBelow(s, FindStart(s.min, s.max, d), d, m, k);
    }
  }

  // ----- the marks in numbers -----

  // Where a value stands in points: the ends of the axis are 0 and its length, and the rest is in proportion.
  function Points(s: Scale, t: real): real
    requires s.min < s.max
  {
    s.psize * (t - s.min) / (s.max - s.min)
  }

  lemma CtopMeans(s: Scale, t: real)
    requires s.Ok()
    ensures s.Ctop(t) == Points(s, t)
    ensures Points(s, s.min) == 0.0 && Points(s, s.max) == s.psize
  {
    var a, w, f := t - s.min, s.max - s.min, s.factor;
    assert f * w == s.psize;
    assert a * f * w == s.psize * a by { Regroup(a, f, w); }
    DivisionIs(s.psize * a, w, a * f);
    DivisionIs(s.psize * w, w, s.psize);
    DivisionIs(0.0, w, 0.0);
    assert s.psize * 0.0 == 0.0;
  }

  lemma Regroup(a: real, f: real, w: real)
    ensures a * f * w == f * w * a
  {
  }

  lemma DivisionIs(x: real, w: real, q: real)
    requires w > 0.0 && q * w == x
    ensures x / w == q
  {
    var r := x / w;
    assert r * w == x;
    Cancel(r, q, w);
  }

  // Two values of the progression that are the same have the same whole number of intervals.
  lemma SameInterval(start: real, d: real, m: nat, i: int, j: nat, i': int, j': nat)
    requires d > 0.0 && j <= m && j' <= m && Value(start, d, m, i, j) == Value(start, d, m, i', j')
    ensures i == i'
  {
    MinorRest(d, m, j);
    MinorRest(d, m, j');
    AddMultiples(d, i, i' - i);
    AddMultiples(d, i', i - i');
    hide Multiple;
    if i < i' { WholeSteps(d, i' - i); }
    if i' < i { WholeSteps(d, i - i'); }
  }

  lemma WholeSteps(d: real, n: int)
    requires d > 0.0
    ensures n > 0 ==> Multiple(d, n) >= d
    ensures n < 0 ==> Multiple(d, n) <= -d
  {
    if n > 0 { Product((n - 1) as real, d); }
    if n < 0 { Product((-n - 1) as real, d); }
  }

  // The first major mark that is considered is start, or where backing up from it by whole intervals ends.
  predicate Considered(start: real, d: real, m: nat, min: real, max: real, i: int) {
    && (if start <= min then i >= 0 else Value(start, d, m, i, 0) > min - d)
    && Value(start, d, m, i, 0) <= max
  }

  lemma ConsideredIs(start: real, d: real, m: nat, min: real, max: real, i: int, c: nat)
    requires d > 0.0 && BackTo(start, min, d) + Multiple(d, c) == start
    requires BackTo(start, min, d) <= min && (c > 0 ==> BackTo(start, min, d) > min - d)
    requires start <= min ==> c == 0
    ensures Considered(start, d, m, min, max, i) <==> i + c >= 0 && Value(start, d, m, i, 0) <= max
  {
    AddMultiples(d, i, c);
    NoSteps(d / (m + 1) as real);
    NoSteps(d);
    WholeSteps(d, i + c);
    hide BackTo, Multiple;
    assert Value(start, d, m, i, 0) == BackTo(start, min, d) + Multiple(d, i + c);
  }

  lemma NotBacked(t: real, min: real, d: real, c: nat)
    requires d > 0.0 && BackTo(t, min, d) + Multiple(d, c) == t
    ensures t <= min ==> c == 0
  {
    WholeSteps(d, c);
  }

  // A value that is marked was considered,
  lemma MarkConsidered(s: Scale, start: real, d: real, m: nat, i: int, j: nat, t0: real, n: nat, c: nat)
    requires d > 0.0 && j <= m && t0 + Multiple(d, c) == start && (n > 0 ==> Nth(t0, d, n) <= s.max + d)
    requires Mark(Value(start, d, m, i, j), s.Ctop(Value(start, d, m, i, j)), j == 0) in s.Majors(t0, d, m, n)
    ensures i + c >= 0 && Value(start, d, m, i, 0) <= s.max && s.Inside(Value(start, d, m, i, j))
  {
    hide *;
    var k := Mark(Value(start, d, m, i, j), s.Ctop(Value(start, d, m, i, j)), j == 0);
    var a, b := MarkPlace(s, t0, d, m, n, k);
    MarkIs(s, t0, d, m, a, b, k);
    PlaceIs(start, t0, d, m, c, a, b);
    SameInterval(start, d, m, i, j, a - c, b);
    MajorIs(start, t0, d, m, c, i);
    var last: nat := n - 1;
    NthGrows(t0, d, a, last);
    NthNext(t0, d, last);
  }

  // and one that was considered is marked if it is inside.
  lemma ConsideredMarked(s: Scale, start: real, d: real, m: nat, i: int, j: nat, t0: real, n: nat, c: nat)
    requires d > 0.0 && j <= m && t0 + Multiple(d, c) == start && Nth(t0, d, n) > s.max
    requires i + c >= 0 && Value(start, d, m, i, 0) <= s.max && s.Inside(Value(start, d, m, i, j))
    ensures Mark(Value(start, d, m, i, j), s.Ctop(Value(start, d, m, i, j)), j == 0) in s.Majors(t0, d, m, n)
  {
    hide *;
    MajorIs(start, t0, d, m, c, i);
    PlaceIs(start, t0, d, m, c, i + c, j);
    if i + c >= n { NthGrows(t0, d, n, i + c); }
    MajorsHave(s, t0, d, m, n, i + c, j);
  }

  /** Exactly these values are marked, each at its place in points: the major ones that are considered and
      the minor ones behind them, unless they are .05 points or more outside the axis. */
  lemma MarksExactly(s: Scale, start: real, d: real, m: nat, i: int, j: nat)
    requires s.Ok() && d > 0.0 && j <= m
    ensures var t := Value(start, d, m, i, j);
      Mark(t, Points(s, t), j == 0) in AutoMarks(s, start, d, m) <==>
        Considered(start, d, m, s.min, s.max, i) && -0.05 < Points(s, t) < s.psize + 0.05
  {
    var t := Value(start, d, m, i, j);
    CtopMeans(s, t);
    hide *;
    var t0 := BackTo(start, s.min, d);
    var n := Count(t0, s.max, d);
    var c := BackMeans(start, s.min, d);
    NotBacked(start, s.min, d, c);
    ConsideredIs(start, d, m, s.min, s.max, i, c);
    CountMeans(t0, s.max, d);
    InsideIs(s, t);
    AutoIs(s, start, d, m);
    if Mark(t, Points(s, t), j == 0) in AutoMarks(s, start, d, m) { MarkConsidered(s, start, d, m, i, j, t0, n, c); }
    if Considered(start, d, m, s.min, s.max, i) && s.Inside(t) { ConsideredMarked(s, start, d, m, i, j, t0, n, c); }
  }

  lemma MarksPlaced(s: Scale, start: real, d: real, m: nat, k: Mark)
    requires s.Ok() && d > 0.0 && k in AutoMarks(s, start, d, m)
    ensures k.loc == Points(s, k.at)
  {
    CtopMeans(s, k.at);
    hide Points, Scale.Ctop;
    var i, j := MarksOnly(s, start, d, m, k);
  }

  lemma InsideIs(s: Scale, t: real)
    ensures s.Inside(t) <==> -0.05 < s.Ctop(t) < s.psize + 0.05
  {
  }

  lemma AutoIs(s: Scale, start: real, d: real, m: nat)
    requires d > 0.0
    ensures var t0 := BackTo(start, s.min, d); AutoMarks(s, start, d, m) == s.Majors(t0, d, m, Count(t0, s.max, d))
  {
  }

  lemma MarkIs(s: Scale, t0: real, d: real, m: nat, i: nat, j: nat, k: Mark)
    requires IsMark(s, t0, d, m, i, j, k)
    ensures j <= m && k == Mark(Place(t0, d, m, i, j), s.Ctop(k.at), j == 0) && s.Inside(k.at)
  {
  }

  lemma MajorIs(start: real, t0: real, d: real, m: nat, c: nat, i: int)
    requires t0 + Multiple(d, c) == start && i + c >= 0
    ensures Value(start, d, m, i, 0) == Nth(t0, d, i + c)
  {
    PlaceIs(start, t0, d, m, c, i + c, 0);
  }

  lemma NthNext(t: real, d: real, n: nat)
    ensures Nth(t, d, n + 1) == Nth(t, d, n) + d
  {
  }

  // The marks ascend for every start and interval.
  lemma MarksAscend(s: Scale, start: real, d: real, m: nat)
    requires d > 0.0
    ensures Ascending(AutoMarks(s, start, d, m))
  {
    var t0 := BackTo(start, s.min, d);
    MajorsAscend(s, t0, d, m, Count(t0, s.max, d));
  }

  // On the axis the major marks are at the whole multiples of d, and nowhere else; one below min is at a
  // multiple as well.
  ghost predicate AtMultiples(min: real, max: real, psize: real, d: real, marks: seq<Mark>) {
    && (psize > -0.05 ==> forall t: real :: min <= t <= max ==> (MajorAt(marks, t) <==> WholeMultiple(t, d)))
    && forall k :: k in marks && k.major ==> WholeMultiple(k.at, d) && min - d < k.at <= max
  }

  ghost predicate MajorAt(marks: seq<Mark>, t: real) {
    exists k :: k in marks && k.major && k.at == t
  }

  ghost predicate WholeMultiple(t: real, d: real) {
    exists i: int :: t == Multiple(d, i)
  }

  lemma AutoAtMultiples(s: Scale, d: real, m: nat)
    requires s.Ok() && d > 0.0
    ensures AtMultiples(s.min, s.max, s.psize, d, AutoMarks(s, FindStart(s.min, s.max, d), d, m))
  {
    var marks := AutoMarks(s, FindStart(s.min, s.max, d), d, m);
    hide AutoMarks, FindStart;
    forall k | k in marks && k.major
      ensures WholeMultiple(k.at, d) && s.min - d < k.at <= s.max
    {
      var i := OnlyMultiples(s, d, m, k);
    }
    forall t: real | s.psize > -0.05 && s.min <= t <= s.max && WholeMultiple(t, d)
      ensures MajorAt(marks, t)
    {
      var i: int :| t == Multiple(d, i);
      MultiplesMarked(s, d, m, i);
      assert Mark(t, s.Ctop(t), true) in marks;
    }
  }

  // The labels: one for every major mark.
  function Labels(ms: seq<Mark>): seq<Label> {
    if ms == [] then []
    else
      var n := |ms| - 1;
      Labels(ms[..n]) + if ms[n].major then [Label(ms[n].loc, ms[n].loc, Some(ms[n].at))] else []
  }

  // The labels are those of the major marks.
  lemma {:induction false} LabelsMean(ms: seq<Mark>, l: Label)
    ensures l in Labels(ms) <==> exists k :: k in ms && k.major && l == Label(k.loc, k.loc, Some(k.at))
  {
    if ms != [] {
      var n := |ms| - 1;
      LabelsMean(ms[..n], l);
      assert ms == ms[..n] + [ms[n]];
    }
  }

  lemma LabelValue(ms: seq<Mark>, i: nat) returns (j: nat)
    requires i < |Labels(ms)|
    ensures j < |ms| && Labels(ms)[i].value == Some(ms[j].at)
  {
    var l := Labels(ms)[i];
    LabelsMean(ms, l);
    hide Labels;
    var k :| k in ms && k.major && l == Label(k.loc, k.loc, Some(k.at));
    j :| 0 <= j < |ms| && ms[j] == k;
  }

  // No mark has two labels, and they are in the order of the marks.
  lemma {:induction false} LabelsAscend(ms: seq<Mark>)
    requires Ascending(ms)
    ensures forall l :: l in Labels(ms) ==> l.value.Some?
    ensures forall i, j :: 0 <= i < j < |Labels(ms)| ==> Labels(ms)[i].value.value < Labels(ms)[j].value.value
  {
    forall i | 0 <= i < |Labels(ms)|
      ensures Labels(ms)[i].value.Some?
    {
      var j := LabelValue(ms, i);
    }
    if ms != [] {
      var n := |ms| - 1;
      var before := Labels(ms[..n]);
      LabelsAscend(ms[..n]);
      LastLabel(ms);
      hide Labels;
      if ms[n].major {
        forall i | 0 <= i < |before|
          ensures before[i].value.value < ms[n].at
        {
          var j := LabelValue(ms[..n], i);
        }
      }
    }
  }

  lemma LastLabel(ms: seq<Mark>)
    requires ms != []
    ensures var n := |ms| - 1;
      Labels(ms) == Labels(ms[..n]) + if ms[n].major then [Label(ms[n].loc, ms[n].loc, Some(ms[n].at))] else []
  {
  }

  lemma LabelOne(ms: seq<Mark>, k: Mark)
    ensures Labels(ms + [k]) == Labels(ms) + if k.major then [Label(k.loc, k.loc, Some(k.at))] else []
  {
    assert (ms + [k])[..|ms|] == ms;
  }

  class Axis {
    var min: real
    var max: real
    var pmin: real
    var pmax: real
    var size: real
    var psize: real
    var factor: real
    var hashInterval: real
    var hashStart: real
    var startGiven: bool
    var minorHashes: int
    var autoMarks: bool
    var autoLabels: bool
    var lines: seq<Mark>
    var labels: seq<Label>

    constructor (size: real, interval: real, minor: int)
      ensures lines == [] && labels == [] && hashInterval == interval && minorHashes == minor && this.size == size
      ensures min == max == pmin == pmax == FSIG && autoMarks && autoLabels && !startGiven
    {
      min, max, pmin, pmax := FSIG, FSIG, FSIG, FSIG;
      this.size, psize, factor := size, 0.0, 0.0;
      hashInterval, hashStart, startGiven, minorHashes := interval, 0.0, false, minor;
      autoMarks, autoLabels, lines, labels := true, true, [], [];
    }

    ghost function Scaled(): Scale
      reads this
    {
      Scale(min, max, psize, factor)
    }

    // process_axis1; the program ends when an end of the axis is not known.
    method Process1() returns (ok: bool)
      modifies this`min, this`max, this`psize, this`factor
      ensures ok <==> (old(min) != FSIG || pmin != FSIG) && (old(max) != FSIG || pmax != FSIG)
      ensures ok ==>
        var lo, hi := if old(min) != FSIG then old(min) else pmin, if old(max) != FSIG then old(max) else pmax;
        && (lo == hi ==> min == lo - 1.0 && max == hi + 1.0)
        && (lo < hi ==> min == lo && max == hi)
        && (lo > hi ==> min == hi && max == lo)
      ensures ok ==> min < max && psize == POINTS_PER_INCH * size && Scaled().Ok()
    {
      if min == FSIG {
        if pmin == FSIG { return false; }
        min := pmin;
      }
      if max == FSIG {
        if pmax == FSIG { return false; }
        max := pmax;
      }
      if max < min {
        max, min := min, max;
      } else if max == min {
        min := min - 1.0;
        max := max + 1.0;
      }
      psize := POINTS_PER_INCH * size;
      factor := psize / (max - min);
      ok := true;
    }

    // The first part of process_axis2: the interval, the start and the number of minor marks.
    method Choose()
      requires min < max
      modifies this`hashInterval, this`hashStart, this`minorHashes
      ensures hashInterval >= 0.0 && minorHashes >= 0
      ensures old(hashInterval) < 0.0 ==>
        hashInterval > 0.0 && Round(hashInterval) && 2.0 < (max - min) / hashInterval < 6.0
      ensures old(hashInterval) >= 0.0 ==> hashInterval == old(hashInterval)
      ensures hashStart == if startGiven then old(hashStart)
                           else if old(hashInterval) < 0.0 then FindStart(min, max, hashInterval)
                           else min
      ensures !startGiven ==> hashStart > min - hashInterval || hashStart == min
      ensures old(hashInterval) < 0.0 ==> Reasonable(max - min, hashInterval)
      ensures old(minorHashes) >= 0 ==> minorHashes == old(minorHashes)
      ensures old(minorHashes) < 0 && hashInterval > 0.0 ==> MinorsOf(hashInterval, minorHashes)
      ensures old(minorHashes) < 0 && hashInterval == 0.0 ==> minorHashes == 0
      ensures old(minorHashes) < 0 && old(hashInterval) < 0.0 ==> PowerTimes(hashInterval, minorHashes + 1)
    {
      hide Round, FindStart, PowerTimes, MinorsOf, TooMany, TooFew;
      if hashInterval < 0.0 {
        hashInterval := FindInterval(min, max);
        if !startGiven {
          StartMeans(min, max, hashInterval);
          hashStart := FindStart(min, max, hashInterval);
        }
      } else if !startGiven {
        hashStart := min;
      }
      if minorHashes < 0 {
        minorHashes := FindMinor(hashInterval);
      }
    }

    // Inserts the mark at t, if it is inside, at the end of the list.
    method Insert(t: real, major: bool)
      modifies this`lines, this`labels
      ensures lines == old(lines) + Scaled().Emit(t, major)
      ensures labels == old(labels) + (if autoLabels then Labels(Scaled().Emit(t, major)) else [])
    {
      var hloc := (t - min) * factor;
      ghost var s := Scaled();
      assert hloc == s.Ctop(t);
      if hloc > -0.05 && hloc < psize + 0.05 {
        LabelOne([], Mark(t, hloc, major));
        assert [] + [Mark(t, hloc, major)] == [Mark(t, hloc, major)] == s.Emit(t, major);
        lines := lines + [Mark(t, hloc, major)];
        if autoLabels && major {
          labels := labels + [Label(hloc, hloc, Some(t))];
        }
      }
    }

    // The minor marks after t1.
    method InsertMinors(t1: real, t2: real)
      requires minorHashes >= 0
      modifies this`lines
      ensures lines == old(lines) + Scaled().Minors(t1, t2 / (minorHashes + 1) as real, minorHashes)
    {
      var w := t2 / (minorHashes + 1) as real;
      ghost var s := Scaled();
      var t3 := t1;
      for i := 0 to minorHashes
        invariant t3 == Nth(t1, w, i)
        invariant lines == old(lines) + s.Minors(t1, w, i)
      {
        t3 := t3 + w;
        var hloc := (t3 - min) * factor;
        assert hloc == s.Ctop(t3);
        ghost var e := s.Emit(t3, false);
        assert s.Minors(t1, w, i + 1) == s.Minors(t1, w, i) + e;
        if hloc > -0.05 && hloc < psize + 0.05 {
          assert e == [Mark(t3, hloc, false)];
          lines := lines + [Mark(t3, hloc, false)];
        }
      }
    }

    // A major mark and the minor ones after it.
    method InsertGroup(t1: real)
      requires hashInterval > 0.0 && minorHashes >= 0
      modifies this`lines, this`labels
      ensures lines == old(lines) + Scaled().Group(t1, hashInterval, minorHashes)
      ensures labels == old(labels) + (if autoLabels then Labels(Scaled().Emit(t1, true)) else [])
    {
      Insert(t1, true);
      InsertMinors(t1, hashInterval);
    }

    // From the start back to the axis.
    method BackUp() returns (t1: real)
      requires min < max && hashInterval > 0.0
      ensures t1 == BackTo(hashStart, min, hashInterval)
    {
      t1 := hashStart;
      while t1 > min
        invariant BackTo(t1, min, hashInterval) == BackTo(hashStart, min, hashInterval)
        decreases if t1 > min then ((t1 - min) / hashInterval).Floor + 1 else 0
      {
        OneStep(t1 - min, hashInterval);
        t1 := t1 - hashInterval;
      }
    }

    // Major and minor marks have been added to what was there.
    ghost predicate Added(lines0: seq<Mark>, labels0: seq<Label>, ms: seq<Mark>)
      reads this
    {
      lines == lines0 + ms && labels == labels0 + (if autoLabels then Labels(ms) else [])
    }

    // One more group of marks.
    lemma AddedGroup(lines0: seq<Mark>, labels0: seq<Label>, ms: seq<Mark>, t: real, d: real, m: nat)
      requires lines == (lines0 + ms) + Scaled().Group(t, d, m)
      requires labels == (labels0 + if autoLabels then Labels(ms) else []) +
        (if autoLabels then Labels(Scaled().Emit(t, true)) else [])
      ensures Added(lines0, labels0, ms + Scaled().Group(t, d, m))
    {
      hide Labels, Scale.Group, Scale.Emit, Scaled;
      GroupLabels(ms, Scaled(), t, d, m);
    }

    // The automatic marks: back up to the axis, then major and minor marks up to max.
    method MarkAxis()
      requires min < max && hashInterval > 0.0 && minorHashes >= 0
      modifies this`lines, this`labels
      ensures lines == old(lines) + AutoMarks(Scaled(), hashStart, hashInterval, minorHashes)
      ensures labels == old(labels) +
        (if autoLabels then Labels(AutoMarks(Scaled(), hashStart, hashInterval, minorHashes)) else [])
    {
      hide Labels, Ascending, Scale.Group, Scale.Emit;
      ghost var s, d, m := Scaled(), hashInterval, minorHashes;
      var t1 := BackUp();
      ghost var t0, i := t1, 0;
      NoLabels();
      while t1 <= max
        invariant t1 == Nth(t0, d, i) && Count(t0, max, d) == i + Count(t1, max, d)
        invariant Added(old(lines), old(labels), s.Majors(t0, d, m, i))
        decreases if t1 <= max then ((max - t1) / d).Floor + 1 else 0
        modifies this`lines, this`labels
      {
        OneStep(max - t1, d);
        InsertGroup(t1);
        AddedGroup(old(lines), old(labels), s.Majors(t0, d, m, i), t1, d, m);
        t1 := t1 + hashInterval;
        i := i + 1;
      }
    }

    // The lines that were given are placed.
    method PlaceLines()
      modifies this`lines
      ensures lines == Given(Scaled(), old(lines))
    {
      ghost var s := Scaled();
      for i := 0 to |lines|
        invariant |lines| == |old(lines)| && lines == Given(s, old(lines)[..i]) + old(lines)[i..]
      {
        GivenOne(s, old(lines), i);
        assert lines[i] == old(lines)[i..][0] == old(lines)[i];
        var h := lines[i].(loc := (lines[i].at - min) * factor);
        Replace(Given(s, old(lines)[..i]), old(lines)[i..], h);
        assert old(lines)[i..][1..] == old(lines)[i + 1..];
        assert h == old(lines)[i].(loc := s.Ctop(old(lines)[i].at));
        lines := lines[i := h];
      }
      assert old(lines)[..|lines|] == old(lines);
    }

    // So are the labels that were given, in both directions.
    method PlaceLabels()
      modifies this`labels
      ensures labels == GivenLabels(Scaled(), old(labels))
    {
      ghost var s := Scaled();
      for i := 0 to |labels|
        invariant |labels| == |old(labels)| && labels == GivenLabels(s, old(labels)[..i]) + old(labels)[i..]
      {
        GivenLabel(s, old(labels), i);
        assert labels[i] == old(labels)[i..][0] == old(labels)[i];
        var l := Label((labels[i].x - min) * factor, (labels[i].y - min) * factor, labels[i].value);
        Replace(GivenLabels(s, old(labels)[..i]), old(labels)[i..], l);
        assert old(labels)[i..][1..] == old(labels)[i + 1..];
        assert l == Label(s.Ctop(old(labels)[i].x), s.Ctop(old(labels)[i].y), old(labels)[i].value);
        labels := labels[i := l];
      }
      assert old(labels)[..|labels|] == old(labels);
    }

    /** process_axis2 as far as it concerns the hash marks: the lines and labels that were given
        are placed, and the automatic ones follow. */
    method Process2()
      requires Scaled().Ok()
      modifies this`hashInterval, this`hashStart, this`minorHashes, this`lines, this`labels
      ensures hashInterval >= 0.0 && minorHashes >= 0
      ensures old(hashInterval) < 0.0 ==>
        hashInterval > 0.0 && Round(hashInterval) && 2.0 < (max - min) / hashInterval < 6.0
      ensures old(hashInterval) >= 0.0 ==> hashInterval == old(hashInterval)
      ensures old(hashInterval) < 0.0 ==> Reasonable(max - min, hashInterval)
      ensures startGiven ==> hashStart == old(hashStart)
      ensures !startGiven && old(hashInterval) >= 0.0 ==> hashStart == min
      ensures !startGiven && old(hashInterval) < 0.0 ==> hashStart == FindStart(min, max, hashInterval)
      ensures old(minorHashes) >= 0 ==> minorHashes == old(minorHashes)
      ensures old(minorHashes) < 0 && hashInterval > 0.0 ==> MinorsOf(hashInterval, minorHashes)
      ensures old(minorHashes) < 0 && hashInterval == 0.0 ==> minorHashes == 0
      ensures old(minorHashes) < 0 && old(hashInterval) < 0.0 ==> PowerTimes(hashInterval, minorHashes + 1)
      ensures |lines| >= |old(lines)|
      ensures !startGiven && old(hashInterval) < 0.0 && autoMarks ==>
        AtMultiples(min, max, psize, hashInterval, lines[|old(lines)|..])
      ensures lines == Given(Scaled(), old(lines)) +
        (if autoMarks && hashInterval > 0.0 then AutoMarks(Scaled(), hashStart, hashInterval, minorHashes) else [])
      ensures labels == GivenLabels(Scaled(), old(labels)) +
        (if autoMarks && autoLabels && hashInterval > 0.0
         then Labels(AutoMarks(Scaled(), hashStart, hashInterval, minorHashes)) else [])
    {
      hide Round, AutoMarks, Labels, FindStart, PowerTimes, MinorsOf, Reasonable, AtMultiples;
      Choose();
      PlaceLines();
      PlaceLabels();
      ghost var placed := lines;
      if hashInterval != 0.0 && autoMarks {
        MarkAxis();
        if !startGiven && old(hashInterval) < 0.0 {
          AutoAtMultiples(Scaled(), hashInterval, minorHashes);
        }
      }
      assert lines[..|placed|] == placed;
    }
  }

  function Given(s: Scale, ms: seq<Mark>): (r: seq<Mark>)
    ensures |r| == |ms|
  {
    seq(|ms|, i requires 0 <= i < |ms| => ms[i].(loc := s.Ctop(ms[i].at)))
  }

  lemma GivenOne(s: Scale, ms: seq<Mark>, i: nat)
    requires i < |ms|
    ensures Given(s, ms[..i + 1]) == Given(s, ms[..i]) + [ms[i].(loc := s.Ctop(ms[i].at))]
  {
  }

  function GivenLabels(s: Scale, ls: seq<Label>): (r: seq<Label>)
    ensures |r| == |ls|
  {
    seq(|ls|, i requires 0 <= i < |ls| => Label(s.Ctop(ls[i].x), s.Ctop(ls[i].y), ls[i].value))
  }

  lemma GivenLabel(s: Scale, ls: seq<Label>, i: nat)
    requires i < |ls|
    ensures GivenLabels(s, ls[..i + 1]) == GivenLabels(s, ls[..i]) + [Label(s.Ctop(ls[i].x), s.Ctop(ls[i].y), ls[i].value)]
  {
  }

  // A line and a label that are given keep their order and all but their places.
  lemma GivenMeans(s: Scale, ms: seq<Mark>, ls: seq<Label>)
    requires s.Ok()
    ensures forall i :: 0 <= i < |ms| ==> Given(s, ms)[i] == Mark(ms[i].at, Points(s, ms[i].at), ms[i].major)
    ensures forall i :: 0 <= i < |ls| ==> GivenLabels(s, ls)[i] == Label(Points(s, ls[i].x), Points(s, ls[i].y), ls[i].value)
  {
    hide Points, Scale.Ctop;
    forall i | 0 <= i < |ms|
      ensures Given(s, ms)[i] == Mark(ms[i].at, Points(s, ms[i].at), ms[i].major)
    {
      CtopMeans(s, ms[i].at);
    }
    forall i | 0 <= i < |ls|
      ensures GivenLabels(s, ls)[i] == Label(Points(s, ls[i].x), Points(s, ls[i].y), ls[i].value)
    {
      CtopMeans(s, ls[i].x);
      CtopMeans(s, ls[i].y);
    }
  }

  lemma Replace<T>(a: seq<T>, b: seq<T>, h: T)
    requires b != []
    ensures (a + b)[|a| := h] == (a + [h]) + b[1..]
  {
  }

  lemma NoLabels()
    ensures Labels([]) == []
  {
  }

  lemma {:induction false} MinorLabels(ms: seq<Mark>, s: Scale, t: real, w: real, n: nat)
    ensures Labels(ms + s.Minors(t, w, n)) == Labels(ms)
  {
    if n == 0 {
      assert ms + [] == ms;
    } else {
      MinorLabels(ms, s, t, w, n - 1);
      var b, e := s.Minors(t, w, n - 1), s.Emit(Nth(t, w, n), false);
      assert ms + (b + e) == (ms + b) + e;
      MinorLabel(ms + b, s, Nth(t, w, n));
    }
  }

  lemma MinorLabel(ms: seq<Mark>, s: Scale, t: real)
    ensures Labels(ms + s.Emit(t, false)) == Labels(ms)
  {
    if s.Inside(t) {
      LabelOne(ms, Mark(t, s.Ctop(t), false));
    } else {
      assert ms + [] == ms;
    }
  }

  // A major mark and the minor ones after it have one label.
  lemma GroupLabels(ms: seq<Mark>, s: Scale, t: real, d: real, m: nat)
    ensures Labels(ms + s.Group(t, d, m)) == Labels(ms) + Labels(s.Emit(t, true))
  {
    var k := Mark(t, s.Ctop(t), true);
    var b := s.Minors(t, d / (m + 1) as real, m);
    assert ms + s.Group(t, d, m) == (ms + s.Emit(t, true)) + b;
    MinorLabels(ms + s.Emit(t, true), s, t, d / (m + 1) as real, m);
    if s.Inside(t) {
      LabelOne(ms, k);
      LabelOne([], k);
      assert [] + [k] == [k];
    } else {
      assert ms + [] == ms;
    }
  }
}
