/** The open general marks of tools/jgraph/draw.c: the chunked loops of draw_mark for 'G' (lines) and
    'B' (beziers), whose points are scaled by the size of the mark.  A dash pattern begins anew with
    each chunk. */
module DrawMarks {
  import opened PostScript
  import opened DrawPaths

  function Scaled(pts: seq<Point>, sx: real, sy: real): (r: seq<Point>)
    ensures |r| == |pts| && (r == [] <==> pts == [])
  {
    seq(|pts|, i requires 0 <= i < |pts| => Point(pts[i].x * sx, pts[i].y * sy))
  }

  lemma ScaledAt(pts: seq<Point>, sx: real, sy: real, k: nat)
    requires k < |pts|
    ensures Scaled(pts, sx, sy)[k] == Point(pts[k].x * sx, pts[k].y * sy)
  {
  }

  // r is m with the segments stroked in the style of the moment, which stays, in chunks of n.
  predicate Marked(m: Machine, r: Machine, segs: seq<Seg>, n: nat)
    requires n > 0
  {
    && r.page == m.page + Chunked(segs, n, m.g.width, m.g.dash) && r.saved == m.saved && Idle(r)
    && r.g.font == m.g.font && r.g.width == m.g.width && r.g.dash == m.g.dash
  }

  // In the middle of a chunk.
  predicate Marking(m: Machine, r: Machine, segs: seq<Seg>, n: nat, at: Point, ops: seq<Point>)
    requires n > 0
  {
    Drawing(m, r, segs, m.g.width / FACTOR, m.g.dash, n, at, ops)
  }

  lemma Style(m: Machine)
    ensures m.g.width / FACTOR * FACTOR == m.g.width
  {
  }

  lemma Nothing(m: Machine, pts: seq<Point>, n: nat)
    requires Idle(m) && n > 0
    ensures Marked(m, Run(m, []), Lines(pts[..if 0 < |pts| then 1 else 0]), n) && Longest(m, []) == 0
    ensures Marked(m, Run(m, []), Curves(pts[..if 0 < |pts| then 1 else 0]), n)
  {
    assert Chunked([], n, m.g.width, m.g.dash) == [];
    assert Lines(pts[..if 0 < |pts| then 1 else 0]) == [];
    assert Curves(pts[..if 0 < |pts| then 1 else 0]) == [];
  }

  lemma Begun(m: Machine, out: seq<Cmd>, segs: seq<Seg>, n: nat, p: Point, bound: nat)
    requires n > 0 && |segs| % n == 0 && Marked(m, Run(m, out), segs, n) && Longest(m, out) <= bound
    ensures var out' := out + [MoveTo(p)]; var r := Run(m, out');
      Marking(m, r, segs, n, p, []) && r.g.path == [] && Longest(m, out') <= bound
  {
    Style(m);
    More(m, out, MoveTo(p), bound);
    assert Inked([], m.g.width, m.g.dash) == [];
  }

  lemma StrokeDone(m: Machine, out: seq<Cmd>, segs: seq<Seg>, n: nat, at: Point, bound: nat)
    requires n > 0 && Marking(m, Run(m, out), segs, n, at, []) && Longest(m, out) <= bound
    ensures var out' := out + [Stroke]; Marked(m, Run(m, out'), segs, n) && Longest(m, out') <= bound
  {
    Style(m);
    OneSubpath(Run(m, out).g);
    hide Outline, Chunked;
    More(m, out, Stroke, bound);
  }

  // One more line.
  lemma LineMade(m: Machine, out: seq<Cmd>, pts: seq<Point>, k: nat)
    requires 0 < k < |pts| && Marking(m, Run(m, out), Lines(pts[..k]), 100, pts[k - 1], [])
    requires |Run(m, out).g.path| < 100
    ensures var out' := out + [LineTo(pts[k])]; var r, r' := Run(m, out), Run(m, out');
      && Marking(m, r', Lines(pts[..k + 1]), 100, pts[k], [])
      && |r'.g.path| == |r.g.path| + 1
      && Longest(m, out') <= if Longest(m, out) < |r'.g.path| then |r'.g.path| else Longest(m, out)
  {
    hide Drawing, Run, Longest, OnePath;
    Continued(m, out, Lines(pts[..k]), m.g.width / FACTOR, m.g.dash, 100, pts[k - 1], pts[k], pts[0]);
    LinesNext(pts, k);
  }

  // A full chunk has 100 lines.
  lemma HundredLines(m: Machine, out: seq<Cmd>, pts: seq<Point>, k: nat)
    requires k < |pts| && Marking(m, Run(m, out), Lines(pts[..k + 1]), 100, pts[k], []) && |Run(m, out).g.path| == 100
    ensures k % 100 == 0
  {
    hide Inked, Chunked, Lines, Run;
  }

  // Lines 444-460: every line between neighbouring points once, in order, on paths of at most 100.
  method DrawLineMark(marks: seq<Point>, sx: real, sy: real, ghost m: Machine) returns (out: seq<Cmd>)
    requires Idle(m)
    ensures Marked(m, Run(m, out), Lines(Scaled(marks, sx, sy)), 100) && Longest(m, out) <= 100
  {
    hide Marked, Drawing, Marking, Run, Longest, Lines;
    ghost var pts := Scaled(marks, sx, sy);
    Nothing(m, pts, 100);
    out := [];
    var i := 0;
    var k := 0;
    while k < |marks|
      invariant 0 <= k <= |marks| && 0 <= i <= 100 && Longest(m, out) <= 100
      invariant i == 0 ==> k % 100 == 0 && Marked(m, Run(m, out), Lines(pts[..if k < |pts| then k + 1 else k]), 100)
      invariant i > 0 ==> k > 0 && Marking(m, Run(m, out), Lines(pts[..k]), 100, pts[k - 1], [])
      invariant i > 0 ==> |Run(m, out).g.path| == i - 1
      decreases |marks| - k, i
    {
      var p := Point(marks[k].x * sx, marks[k].y * sy);
      assert p == pts[k];
      if i == 0 {
        Begun(m, out, Lines(pts[..k + 1]), 100, p, 100);
        out := out + [MoveTo(p)];
      } else {
        LineMade(m, out, pts, k);
        out := out + [LineTo(p)];
      }
      if i == 100 {
        HundredLines(m, out, pts, k);
        StrokeDone(m, out, Lines(pts[..k + 1]), 100, p, 100);
        out := out + [Stroke];
        k := k - 1;
        i := 0;
      } else {
        i := i + 1;
      }
      k := k + 1;
    }
    assert pts[..k] == pts;
    if i != 0 {
      StrokeDone(m, out, Lines(pts), 100, pts[k - 1], 100);
      out := out + [Stroke];
    }
  }

  // Before point k > 0: the whole curves, and control points on the operand stack.
  predicate Bent(m: Machine, r: Machine, pts: seq<Point>, k: nat)
    requires 0 < k <= |pts|
  {
    Bezier(m, r, pts, k, m.g.width / FACTOR, m.g.dash, 29)
  }

  lemma FirstBent(m: Machine, out: seq<Cmd>, pts: seq<Point>, k: nat, bound: nat)
    requires k < |pts| && k % 3 == 0 && (k / 3) % 29 == 0 && Marked(m, Run(m, out), Curves(pts[..k + 1]), 29)
    requires Longest(m, out) <= bound
    ensures var out' := out + [MoveTo(pts[k])]; var r := Run(m, out');
      Bent(m, r, pts, k + 1) && r.g.path == [] && Longest(m, out') <= bound
  {
    hide Run, Longest, Drawing, Marked;
    Begun(m, out, Curves(pts[..k + 1]), 29, pts[k], bound);
    assert Whole(k + 1) == k / 3 && 3 * (k / 3) == k && pts[k + 1..k + 1] == [];
  }

  lemma LastBent(m: Machine, out: seq<Cmd>, pts: seq<Point>, k: nat, bound: nat)
    requires 0 < k <= |pts| && k % 3 == 1 && Bent(m, Run(m, out), pts, k) && Longest(m, out) <= bound
    ensures var out' := out + [Stroke]; Marked(m, Run(m, out'), Curves(pts[..k]), 29) && Longest(m, out') <= bound
  {
    hide Run, Longest, Drawing, Marked;
    assert 3 * Whole(k) + 1 == k && pts[k..k] == [];
    StrokeDone(m, out, Curves(pts[..k]), 29, pts[k - 1], bound);
  }

  lemma NextBent(m: Machine, out: seq<Cmd>, pts: seq<Point>, k: nat)
    requires 0 < k < |pts| && Bent(m, Run(m, out), pts, k) && (k % 3 == 0 ==> |Run(m, out).g.path| < 29)
    ensures var out' := out + [Push(pts[k])] + (if k % 3 == 0 then [CurveTo] else []);
      var r, r' := Run(m, out), Run(m, out');
      && Bent(m, r', pts, k + 1)
      && |r'.g.path| == |r.g.path| + (if k % 3 == 0 then 1 else 0)
      && Longest(m, out') <= if Longest(m, out) < |r'.g.path| then |r'.g.path| else Longest(m, out)
  {
    hide Run, Longest, Bezier, Figure;
    if k % 3 == 0 {
      EndPoint(m, out, pts, k, m.g.width / FACTOR, m.g.dash, 29);
    } else {
      ControlPoint(m, out, pts, k, m.g.width / FACTOR, m.g.dash, 29);
      assert out + [Push(pts[k])] + [] == out + [Push(pts[k])];
    }
  }

  // The loop before point k: i counts the control points, j the commands of the chunk.
  predicate Between(m: Machine, out: seq<Cmd>, pts: seq<Point>, k: nat, i: nat, j: nat) {
    && k <= |pts| && i == k % 3 && j <= 29 && Longest(m, out) <= 29
    && (j == 0 ==> i == 0 && (k < |pts| || k == 0) && (k / 3) % 29 == 0)
    && (j == 0 ==> Marked(m, Run(m, out), Curves(pts[..if k < |pts| then k + 1 else k]), 29))
    && (j > 0 ==> k > 0 && Bent(m, Run(m, out), pts, k) && |Run(m, out).g.path| == j - 1)
  }

  // After point k - 1, before it is seen whether the chunk is full.
  predicate After(m: Machine, out: seq<Cmd>, pts: seq<Point>, k: nat, j: nat) {
    && 0 < k <= |pts| && 0 < j <= 30 && (j == 30 ==> k % 3 == 1) && Longest(m, out) <= 29
    && Bent(m, Run(m, out), pts, k) && |Run(m, out).g.path| == j - 1
  }

  lemma NonePlaced(m: Machine, pts: seq<Point>)
    requires Idle(m)
    ensures Between(m, [], pts, 0, 0, 0)
  {
    Nothing(m, pts, 29);
  }

  lemma FirstPlaced(m: Machine, out: seq<Cmd>, pts: seq<Point>, k: nat)
    requires k < |pts| && Between(m, out, pts, k, 0, 0)
    ensures After(m, out + [MoveTo(pts[k])], pts, k + 1, 1)
  {
    FirstBent(m, out, pts, k, 29);
  }

  lemma NextPlaced(m: Machine, out: seq<Cmd>, pts: seq<Point>, k: nat, i: nat, j: nat)
    requires k < |pts| && j > 0 && Between(m, out, pts, k, i, j)
    ensures i != 0 ==> After(m, out + [Push(pts[k])], pts, k + 1, j)
    ensures i == 0 ==> After(m, out + [Push(pts[k])] + [CurveTo], pts, k + 1, j + 1)
  {
    hide Bent, Longest, Run;
    NextBent(m, out, pts, k);
    assert out + [Push(pts[k])] + [] == out + [Push(pts[k])];
  }

  lemma FullBent(m: Machine, out: seq<Cmd>, pts: seq<Point>, k: nat)
    requires After(m, out, pts, k, 30)
    ensures (k - 1) % 3 == 0 && ((k - 1) / 3) % 29 == 0
  {
    hide Longest, Run, Bezier;
    ChunkCount(m, Run(m, out), pts, k - 1, m.g.width / FACTOR, m.g.dash);
  }

  lemma ChunkFull(m: Machine, out: seq<Cmd>, pts: seq<Point>, k: nat)
    requires After(m, out, pts, k, 30)
    ensures Between(m, out + [Stroke], pts, k - 1, 0, 0)
  {
    FullBent(m, out, pts, k);
    hide Bent, Longest, Run, Bezier;
    LastBent(m, out, pts, k, 29);
  }

  lemma ChunkGoes(m: Machine, out: seq<Cmd>, pts: seq<Point>, k: nat, i: nat, j: nat)
    requires k > 0 && i == (k - 1) % 3 && After(m, out, pts, k, j) && !(j == 30 && i == 0)
    ensures Between(m, out, pts, k, (i + 1) % 3, j)
  {
  }

  lemma Counted(m: Machine, out: seq<Cmd>, pts: seq<Point>, k: nat, i: nat, j: nat)
    requires Between(m, out, pts, k, i, j)
    ensures i == k % 3 && j <= 29 && (j == 0 ==> i == 0)
  {
  }

  // The three ways to emit a point, and the count of commands.
  method PlaceBezierPoint(before: seq<Cmd>, p: Point, i: nat, j: nat, ghost m: Machine, ghost pts: seq<Point>, ghost k: nat)
    returns (out: seq<Cmd>, count: nat)
    requires k < |pts| && p == pts[k] && Between(m, before, pts, k, i, j)
    ensures After(m, out, pts, k + 1, count) && i == k % 3
    ensures j <= count <= j + 1
  {
    hide *;
    Counted(m, before, pts, k, i, j);
    count := j;
    if j == 0 && i == 0 {
      FirstPlaced(m, before, pts, k);
      out := before + [MoveTo(p)];
      count := count + 1;
    } else if i != 0 {
      NextPlaced(m, before, pts, k, i, j);
      out := before + [Push(p)];
    } else {
      NextPlaced(m, before, pts, k, i, j);
      out := before + [Push(p)] + [CurveTo];
      count := count + 1;
    }
  }

  lemma AllSeen(m: Machine, out: seq<Cmd>, pts: seq<Point>, i: nat, j: nat)
    requires Between(m, out, pts, |pts|, i, j)
    ensures i == |pts| % 3 && Longest(m, out) <= 29
    ensures j == 0 ==> pts == [] && Marked(m, Run(m, out), Curves(pts), 29)
    ensures j > 0 ==> pts != [] && Longest(m, out + [Stroke]) <= 29
    ensures j > 0 && i == 1 ==> Marked(m, Run(m, out + [Stroke]), Curves(pts), 29)
  {
    hide Bent, Longest, Run, Marked;
    assert pts[..|pts|] == pts;
    if j > 0 {
      Unbounded(m, out, Stroke, 29);
      if i == 1 { LastBent(m, out, pts, |pts|, 29); }
    }
  }

  /** Lines 461-488: with no points, or 3n + 1 of them, every curve once, in order, on paths of at most
      29; with any other number the program ends. */
  method DrawBezierMark(marks: seq<Point>, sx: real, sy: real, ghost m: Machine) returns (out: seq<Cmd>, ok: bool)
    requires Idle(m)
    ensures ok <==> marks == [] || |marks| % 3 == 1
    ensures ok ==> Marked(m, Run(m, out), Curves(Scaled(marks, sx, sy)), 29)
    ensures Longest(m, out) <= 29
  {
    hide *;
    ghost var pts := Scaled(marks, sx, sy);
    NonePlaced(m, pts);
    out := [];
    var i: nat, j: nat := 0, 0;
    var k := 0;
    while k < |marks|
      invariant 0 <= k <= |marks| && Between(m, out, pts, k, i, j)
      decreases |marks| - k, j
    {
      var p := Point(marks[k].x * sx, marks[k].y * sy);
      ScaledAt(marks, sx, sy, k);
      out, j := PlaceBezierPoint(out, p, i, j, m, pts, k);
      if j == 30 && i == 0 {
        ChunkFull(m, out, pts, k + 1);
        out := out + [Stroke];
        k := k - 1;
        j := 0;
        i := 0;
      } else {
        ChunkGoes(m, out, pts, k + 1, i, j);
        i := (i + 1) % 3;
      }
      k := k + 1;
    }
    AllSeen(m, out, pts, i, j);
    ok := i == 1 || (i == 0 && j == 0);
    if j != 0 {
      out := out + [Stroke];
    }
  }

  // Stroking makes no path longer.
  lemma Unbounded(m: Machine, out: seq<Cmd>, c: Cmd, bound: nat)
    requires Longest(m, out) <= bound && c == Stroke
    ensures Longest(m, out + [c]) <= bound
  {
    More(m, out, c, bound);
  }
}
