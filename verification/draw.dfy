/** The path loops of tools/jgraph/draw.c.  Old PostScript printers bound the length of a
    path, so curves are emitted in chunks; interpreted, the chunks draw the same segments.  A dash
    pattern begins anew with each chunk. */
module DrawPaths {
  import opened Options
  import opened PostScript

  // LINEWIDTHFACTOR
  const FACTOR: real := 0.7

  // The straight segments of a sequence of points.
  function Lines(pts: seq<Point>): (r: seq<Seg>)
    ensures |r| == if pts == [] then 0 else |pts| - 1
    ensures forall i :: 0 <= i < |r| ==> r[i] == Line(pts[i], pts[i + 1])
  {
    seq(if pts == [] then 0 else |pts| - 1, i requires 0 <= i < |pts| - 1 => Line(pts[i], pts[i + 1]))
  }

  // The bezier curves of 3n + 1 points.
  function Curves(pts: seq<Point>): (r: seq<Seg>)
    ensures |r| == if pts == [] then 0 else (|pts| - 1) / 3
    ensures forall i :: 0 <= i < |r| ==> r[i] == Curve(pts[3 * i], pts[3 * i + 1], pts[3 * i + 2], pts[3 * i + 3])
  {
    seq(if pts == [] then 0 else (|pts| - 1) / 3,
        i requires 0 <= i < (|pts| - 1) / 3 => Curve(pts[3 * i], pts[3 * i + 1], pts[3 * i + 2], pts[3 * i + 3]))
  }

  lemma LinesNext(pts: seq<Point>, k: nat)
    requires 0 < k < |pts|
    ensures Lines(pts[..k + 1]) == Lines(pts[..k]) + [Line(pts[k - 1], pts[k])]
  {
  }

  lemma CurvesNext(pts: seq<Point>, k: nat)
    requires 3 * k + 3 < |pts|
    ensures Curves(pts[..3 * k + 4]) ==
      Curves(pts[..3 * k + 1]) + [Curve(pts[3 * k], pts[3 * k + 1], pts[3 * k + 2], pts[3 * k + 3])]
  {
  }

  // setlinestyle: no command for an unknown style, which ends the program, and no offset for '0'.
  function LineStyle(style: char, glist: seq<real>): Option<Cmd> {
    match style
    case '0' => Some(BareDash([0.0, 2.0]))
    case 's' => Some(Dash([]))
    case '.' => Some(Dash([1.0, 3.2]))
    case '-' => Some(Dash([4.0]))
    case 'l' => Some(Dash([7.0, 2.0]))
    case 'd' => Some(Dash([5.0, 3.0, 1.0, 3.0]))
    case 'D' => Some(Dash([5.0, 3.0, 1.0, 2.0, 1.0, 3.0]))
    case '2' => Some(Dash([5.0, 3.0, 5.0, 3.0, 1.0, 2.0, 1.0, 3.0]))
    case 'g' => Some(Dash(glist))
    case _ => None
  }

  // The styles with which the interpreter draws.
  predicate Draws(style: char, glist: seq<real>) {
    var c := LineStyle(style, glist);
    c.Some? && c.value.Dash? && DashOk(c.value.dash)
  }

  // Of the known styles only none, and a general one with a negative number or with nothing but
  // zeros, make setdash fail.
  lemma DrawsMeans(style: char, glist: seq<real>)
    requires LineStyle(style, glist).Some?
    ensures Draws(style, glist) <==> style != '0' && (style == 'g' ==> DashOk(glist))
  {
    var c := LineStyle(style, glist).value;
    if c.Dash? && style != 'g' && style != 's' {
      assert c.dash[0] > 0.0;
    }
  }

  // start_line, with the command of the line style
  function StartLine(p: Point, width: real, style: Cmd): seq<Cmd> {
    [LineWidth(width * FACTOR), style, MoveTo(p)]
  }

  // end_line
  function EndLine(): seq<Cmd> {
    [Stroke, LineWidth(1.0 * FACTOR), Dash([])]
  }

  // Nothing is under construction, and nothing went wrong.
  predicate Idle(m: Machine) {
    m.g.path == [] && m.operands == [] && !m.failed
  }

  // The ink of segments that are drawn in chunks of n: a dash pattern begins anew with each chunk.
  function Chunked(segs: seq<Seg>, n: nat, width: real, dash: seq<real>): (r: seq<Ink>)
    requires n > 0
    ensures |r| == |segs|
    ensures forall i :: 0 <= i < |r| ==> r[i] == Stroked(segs[i], width, dash, if dash == [] then 0 else i % n)
  {
    seq(|segs|, i requires 0 <= i < |segs| => Stroked(segs[i], width, dash, if dash == [] then 0 else i % n))
  }

  // The chunks are drawn as one path would be exactly when the line is solid or there is one chunk.
  lemma ChunksDiffer(segs: seq<Seg>, n: nat, width: real, dash: seq<real>)
    requires n > 0
    ensures Chunked(segs, n, width, dash) == Inked(segs, width, dash) <==> dash == [] || |segs| <= n
  {
    if dash != [] && |segs| > n {
      assert Chunked(segs, n, width, dash)[n].lead == 0 && Inked(segs, width, dash)[n].lead == n;
    } else {
      forall i | 0 <= i < |segs|
        ensures Chunked(segs, n, width, dash)[i] == Inked(segs, width, dash)[i]
      {
        if dash != [] { SmallMod(i, n); }
      }
    }
  }

  lemma SmallMod(i: nat, n: nat)
    requires i < n
    ensures i % n == i
  {
  }

  // What a whole number of chunks leaves.
  lemma SameMod(a: nat, b: nat, n: nat)
    requires b <= a && b < n && (a - b) % n == 0
    ensures a % n == b
  {
    var k := (a - b) / n;
    var q := a / n;
    assert n * k + b == a == n * q + a % n;
    assert n * (q - k) == b - a % n;
    if q > k { Least(n, q - k); }
    if q < k { Least(n, k - q); }
  }

  lemma Least(n: nat, d: nat)
    requires d > 0
    ensures n * d >= n
  {
  }

  // r is m with the segments inked in chunks of n behind what was on the page, and no path.
  predicate Drew(m: Machine, r: Machine, segs: seq<Seg>, width: real, dash: seq<real>, n: nat)
    requires n > 0
  {
    r.page == m.page + Chunked(segs, n, width * FACTOR, dash) && r.saved == m.saved && Idle(r) && r.g.font == m.g.font
  }

  // In the middle of a chunk: segs are on the page or in the path, at is the last point, and
  // ops are the control points waiting on the operand stack.
  predicate Drawing(m: Machine, r: Machine, segs: seq<Seg>, width: real, dash: seq<real>, n: nat, at: Point,
      ops: seq<Point>)
    requires n > 0
  {
    && r.page + Inked(r.g.path, width * FACTOR, dash) == m.page + Chunked(segs, n, width * FACTOR, dash)
    && |r.g.path| <= |segs| && (|segs| - |r.g.path|) % n == 0 && r.g.begins == {0}
    && r.saved == m.saved && r.g.font == m.g.font && r.operands == ops && !r.failed
    && r.g.at == Some(at) && r.g.width == width * FACTOR && r.g.dash == dash
  }

  // A closed figure is one path, from its first point.
  predicate OnePath(m: Machine, r: Machine, segs: seq<Seg>, first: Point) {
    r.page == m.page && r.g.path == segs && r.g.from == Some(first)
  }

  lemma Started(m: Machine, out: seq<Cmd>, segs: seq<Seg>, width: real, dash: seq<real>, n: nat, p: Point, bound: nat)
    requires n > 0 && |segs| % n == 0 && DashOk(dash)
    requires Drew(m, Run(m, out), segs, width, dash, n) && Longest(m, out) <= bound
    ensures var out' := out + StartLine(p, width, Dash(dash)); var r := Run(m, out');
      && Drawing(m, r, segs, width, dash, n, p, []) && r.g.path == [] && Longest(m, out') <= bound
      && (segs == [] ==> OnePath(m, r, segs, p))
  {
    hide DashOk;
    MoreThree(m, out, LineWidth(width * FACTOR), Dash(dash), MoveTo(p), bound);
    assert Inked([], width * FACTOR, dash) == [];
  }

  lemma Ended(m: Machine, out: seq<Cmd>, segs: seq<Seg>, width: real, dash: seq<real>, n: nat, at: Point, bound: nat)
    requires n > 0 && Drawing(m, Run(m, out), segs, width, dash, n, at, []) && Longest(m, out) <= bound
    ensures var out' := out + EndLine(); Drew(m, Run(m, out'), segs, width, dash, n) && Longest(m, out') <= bound
  {
    OneSubpath(Run(m, out).g);
    hide Outline;
    MoreThree(m, out, Stroke, LineWidth(1.0 * FACTOR), Dash([]), bound);
  }

  lemma Continued(m: Machine, out: seq<Cmd>, segs: seq<Seg>, width: real, dash: seq<real>, n: nat, at: Point, p: Point,
      first: Point)
    requires n > 0 && Drawing(m, Run(m, out), segs, width, dash, n, at, []) && |Run(m, out).g.path| < n
    ensures var out' := out + [LineTo(p)]; var r, r' := Run(m, out), Run(m, out');
      && Drawing(m, r', segs + [Line(at, p)], width, dash, n, p, [])
      && |r'.g.path| == |r.g.path| + 1
      && (|r'.g.path| <= Longest(m, out) ==> Longest(m, out') == Longest(m, out))
      && (|r'.g.path| > Longest(m, out) ==> Longest(m, out') == |r'.g.path|)
      && (OnePath(m, r, segs, first) ==> OnePath(m, r', segs + [Line(at, p)], first))
  {
    RunMore(m, out, LineTo(p));
    assert (out + [LineTo(p)])[..|out|] == out;
    InkGrows(m, Run(m, out), segs, width * FACTOR, dash, n, Line(at, p));
  }

  // The same segment at the end of the path and of what is to be drawn.
  lemma InkGrows(m: Machine, r: Machine, segs: seq<Seg>, width: real, dash: seq<real>, n: nat, s: Seg)
    requires n > 0 && |r.g.path| < n && |r.g.path| <= |segs| && (|segs| - |r.g.path|) % n == 0
    requires r.page + Inked(r.g.path, width, dash) == m.page + Chunked(segs, n, width, dash)
    ensures r.page + Inked(r.g.path + [s], width, dash) == m.page + Chunked(segs + [s], n, width, dash)
  {
    SameMod(|segs|, |r.g.path|, n);
    var a, b := Inked(r.g.path, width, dash), Chunked(segs, n, width, dash);
    var c := Stroked(s, width, dash, if dash == [] then 0 else |r.g.path|);
    assert Inked(r.g.path + [s], width, dash) == a + [c];
    assert Chunked(segs + [s], n, width, dash) == b + [c];
    assert r.page + (a + [c]) == (r.page + a) + [c];
    assert m.page + (b + [c]) == (m.page + b) + [c];
  }

  // A control point waits on the operand stack.
  lemma Controlled(m: Machine, out: seq<Cmd>, segs: seq<Seg>, width: real, dash: seq<real>, n: nat, at: Point,
      ops: seq<Point>, p: Point, first: Point)
    requires n > 0 && Drawing(m, Run(m, out), segs, width, dash, n, at, ops)
    ensures var out' := out + [Push(p)]; var r, r' := Run(m, out), Run(m, out');
      && Drawing(m, r', segs, width, dash, n, at, ops + [p])
      && r'.g.path == r.g.path && Longest(m, out') == Longest(m, out)
      && (OnePath(m, r, segs, first) ==> OnePath(m, r', segs, first))
  {
    RunMore(m, out, Push(p));
    assert (out + [Push(p)])[..|out|] == out;
    AtMost(m, out);
  }

  // The third point completes the curve.
  lemma Curved(m: Machine, out: seq<Cmd>, segs: seq<Seg>, width: real, dash: seq<real>, n: nat, at: Point,
      a: Point, b: Point, p: Point, first: Point)
    requires n > 0 && Drawing(m, Run(m, out), segs, width, dash, n, at, [a, b]) && |Run(m, out).g.path| < n
    ensures var out' := out + [Push(p)] + [CurveTo]; var r, r' := Run(m, out), Run(m, out');
      && Drawing(m, r', segs + [Curve(at, a, b, p)], width, dash, n, p, [])
      && |r'.g.path| == |r.g.path| + 1
      && (|r'.g.path| <= Longest(m, out) ==> Longest(m, out') == Longest(m, out))
      && (|r'.g.path| > Longest(m, out) ==> Longest(m, out') == |r'.g.path|)
      && (OnePath(m, r, segs, first) ==> OnePath(m, r', segs + [Curve(at, a, b, p)], first))
  {
    Controlled(m, out, segs, width, dash, n, at, [a, b], p, first);
    var out1 := out + [Push(p)];
    RunMore(m, out1, CurveTo);
    assert (out1 + [CurveTo])[..|out1|] == out1;
    assert [a, b] + [p] == [a, b, p] && [a, b, p][..0] == [];
    hide Inked, Chunked;
    InkGrows(m, Run(m, out1), segs, width * FACTOR, dash, n, Curve(at, a, b, p));
  }

  // setfill for a closed figure: nothing, or a fill that leaves the path for the stroke.
  function SetFill(fill: Option<char>): seq<Cmd> {
    match fill
    case None => []
    case Some(p) => [Gsave] + (if p == 's' || p == '/' || p == 'e' then [Fill(p)] else []) + [Grestore]
  }

  function FillInk(segs: seq<Seg>, fill: Option<char>): seq<Ink> {
    if fill == None then []
    else if fill.value == 's' || fill.value == '/' || fill.value == 'e' then [Filled(segs, fill.value)]
    else []
  }

  // r is m with one closed figure on the page: its area, then its outline.
  predicate DrewFigure(m: Machine, r: Machine, segs: seq<Seg>, at: Point, first: Point, width: real, dash: seq<real>,
      fill: Option<char>)
  {
    var all := segs + [Line(at, first)];
    r.page == m.page + FillInk(all, fill) + Inked(all, width * FACTOR, dash) && r.saved == m.saved && Idle(r)
  }

  lemma Closed(m: Machine, out: seq<Cmd>, segs: seq<Seg>, width: real, dash: seq<real>, n: nat, at: Point, first: Point,
      fill: Option<char>)
    requires n > 0 && Drawing(m, Run(m, out), segs, width, dash, n, at, []) && OnePath(m, Run(m, out), segs, first)
    ensures DrewFigure(m, Run(m, out + [ClosePath] + SetFill(fill) + EndLine()), segs, at, first, width, dash, fill)
  {
    hide Run, SetFill, FillInk, Inked, Chunked, Outline;
    var all := segs + [Line(at, first)];
    var r := Run(m, out);
    var r1 := r.(g := r.g.(at := r.g.from, path := all, begins := {0} + {|all|}));
    RunMore(m, out, ClosePath);
    assert Run(m, out + [ClosePath]) == r1;
    var r2 := r1.(page := m.page + FillInk(all, fill));
    RunConcat(m, out + [ClosePath], SetFill(fill));
    FillOnly(r1, fill);
    RunConcat(m, out + [ClosePath] + SetFill(fill), EndLine());
    Outlined(r2);
  }

  // end_line inks the path in the current style.
  lemma Outlined(r: Machine)
    requires Single(r.g.begins, |r.g.path|) && !r.failed
    ensures var r' := Run(r, EndLine());
      r'.page == r.page + Inked(r.g.path, r.g.width, r.g.dash) && r'.saved == r.saved && r'.operands == r.operands
      && r'.g.path == [] && r'.g.font == r.g.font && !r'.failed
  {
    OneSubpath(r.g);
    hide Run, Inked, Outline;
    RunThree(r, Stroke, LineWidth(1.0 * FACTOR), Dash([]));
  }

  lemma FillOnly(m: Machine, fill: Option<char>)
    requires !m.failed
    ensures Run(m, SetFill(fill)) == m.(page := m.page + FillInk(m.g.path, fill))
  {
    assert m.page + [] == m.page;
    if fill.Some? {
      var s := m.saved + [m.g];
      assert s[..|m.saved|] == m.saved;
      if fill.value == 's' || fill.value == '/' || fill.value == 'e' {
        assert SetFill(fill) == [Gsave, Fill(fill.value), Grestore];
        RunThree(m, Gsave, Fill(fill.value), Grestore);
      } else {
        assert SetFill(fill) == [Gsave] + [Grestore];
        RunMore(m, [Gsave], Grestore);
        assert [Gsave][..0] == [];
      }
    }
  }

  lemma RunThree(m: Machine, a: Cmd, b: Cmd, c: Cmd)
    ensures Run(m, [a, b, c]) == Exec(Exec(Exec(m, a), b), c)
  {
    hide Exec;
    RunMore(m, [a, b], c);
    RunMore(m, [a], b);
    RunMore(m, [], a);
    assert [a, b] + [c] == [a, b, c] && [a] + [b] == [a, b] && [] + [a] == [a];
  }

  lemma NothingDrawn(m: Machine, pts: seq<Point>, width: real, dash: seq<real>, n: nat)
    requires Idle(m) && n > 0
    ensures Drew(m, Run(m, []), [], width, dash, n) && Longest(m, []) == 0
    ensures Drew(m, Run(m, [NewPath]), [], width, dash, n) && Longest(m, [NewPath]) == 0
    ensures Lines(pts[..if 0 < |pts| then 1 else 0]) == [] && Curves(pts[..if 0 < |pts| then 1 else 0]) == []
  {
    assert Chunked([], n, width * FACTOR, dash) == [];
    assert [NewPath][..0] == [];
  }

  // What is printed before the first point.
  function Opening(poly: bool): seq<Cmd> {
    if poly then [NewPath] else []
  }

  // The first start_line fails where the interpreter does not accept the style, and nothing of what
  // follows is executed.
  lemma StartFails(m: Machine, poly: bool, p: Point, width: real, style: char, glist: seq<real>, out: seq<Cmd>)
    requires Idle(m) && LineStyle(style, glist).Some? && !Draws(style, glist)
    requires Opening(poly) + StartLine(p, width, LineStyle(style, glist).value) <= out
    ensures var r := Run(m, out); r.failed && r.page == m.page && Longest(m, out) == 0
  {
    var c := LineStyle(style, glist).value;
    var first := Opening(poly) + StartLine(p, width, c);
    NothingDrawn(m, [], width, [], 1);
    hide LineStyle, DashOk, Drew;
    MoreThree(m, Opening(poly), LineWidth(width * FACTOR), c, MoveTo(p), 0);
    hide Exec;
    PrefixFails(m, first, out);
  }

  // A closed curve of line type none, which is what a new curve has, is not drawn, and neither is
  // anything behind it.
  lemma ClosedWithoutLine(m: Machine, p: Point, width: real, rest: seq<Cmd>)
    requires Idle(m)
    ensures LineStyle('0', []).Some?
    ensures var r := Run(m, Opening(true) + StartLine(p, width, LineStyle('0', []).value) + rest);
      r.failed && r.page == m.page
  {
    var first := Opening(true) + StartLine(p, width, LineStyle('0', []).value);
    StartFails(m, true, p, width, '0', [], first + rest);
  }

  // Whether draw_curve draws a line at all, line 247.
  predicate HasLine(pts: seq<Point>, style: char, poly: bool) {
    pts != [] && (style != '0' || poly)
  }

  // The dash array of a style that is drawn.
  function DashOf(style: char, glist: seq<real>): (d: seq<real>)
    ensures Draws(style, glist) ==> DashOk(d) && LineStyle(style, glist) == Some(Dash(d))
  {
    if Draws(style, glist) then LineStyle(style, glist).value.dash else []
  }

  // The outcome of drawing a curve with these segments in chunks of n.  The program ends at a style
  // that it does not know; without a line nothing happens; where setdash fails, so does all that
  // follows; otherwise the segments are stroked, or the figure is filled and stroked.
  predicate Outcome(m: Machine, out: seq<Cmd>, ok: bool, pts: seq<Point>, segs: seq<Seg>, n: nat, width: real,
      style: char, glist: seq<real>, poly: bool, fill: Option<char>)
    requires n > 0
  {
    var r := Run(m, out);
    && (ok <==> pts == [] || LineStyle(style, glist).Some?)
    && (ok ==> (r.failed <==> HasLine(pts, style, poly) && !Draws(style, glist)))
    && (r.failed || !ok ==> r.page == m.page)
    && (ok && !HasLine(pts, style, poly) ==> Drew(m, r, [], width, [], n))
    && (HasLine(pts, style, poly) && Draws(style, glist) ==>
          if poly then DrewFigure(m, r, segs, pts[|pts| - 1], pts[0], width, DashOf(style, glist), fill)
          else Drew(m, r, segs, width, DashOf(style, glist), n))
    && (poly || Longest(m, out) <= n)
  }

  // The case without a line.
  lemma NoLine(m: Machine, pts: seq<Point>, segs: seq<Seg>, n: nat, width: real, style: char, glist: seq<real>,
      poly: bool, fill: Option<char>)
    requires Idle(m) && n > 0 && !HasLine(pts, style, poly)
    ensures Outcome(m, Opening(poly), true, pts, segs, n, width, style, glist, poly, fill)
    ensures style == '0' && !poly ==> Outcome(m, [], true, pts, segs, n, width, style, glist, poly, fill)
  {
    NothingDrawn(m, pts, width, [], n);
    hide Run, Longest, Chunked;
  }

  // How long a chunk of a curve with this many points can get: a closed figure is one path.
  function Chunk(pts: seq<Point>, poly: bool, n: nat): (r: nat)
    requires n > 0
    ensures r > 0
  {
    if poly then |pts| + 1 else n
  }

  // The loop of draw_curve without bezier before point k, with i points in the chunk.
  predicate Before(m: Machine, out: seq<Cmd>, pts: seq<Point>, k: nat, i: nat, width: real, dash: seq<real>, poly: bool) {
    var n := Chunk(pts, poly, 100);
    && k <= |pts| && (poly || i <= 100) && i <= k
    && (i == 0 ==> Drew(m, Run(m, out), Lines(pts[..if k < |pts| then k + 1 else k]), width, dash, n))
    && (i == 0 ==> (k < |pts| || k == 0) && k % n == 0)
    && (i > 0 ==> Drawing(m, Run(m, out), Lines(pts[..k]), width, dash, n, pts[k - 1], []) && |Run(m, out).g.path| == i - 1)
    && (poly && i == 0 ==> k == 0 && Longest(m, out) == 0)
    && (poly && i > 0 ==> OnePath(m, Run(m, out), Lines(pts[..k]), pts[0]))
    && (!poly ==> Longest(m, out) <= 100)
  }

  // After point k - 1 has been placed, as the i-th of its chunk.
  predicate Placed(m: Machine, out: seq<Cmd>, pts: seq<Point>, k: nat, i: nat, width: real, dash: seq<real>, poly: bool) {
    var n := Chunk(pts, poly, 100);
    && 0 < i <= k <= |pts| && (poly || i <= 101)
    && Drawing(m, Run(m, out), Lines(pts[..k]), width, dash, n, pts[k - 1], []) && |Run(m, out).g.path| == i - 1
    && (poly ==> OnePath(m, Run(m, out), Lines(pts[..k]), pts[0]))
    && (!poly ==> Longest(m, out) <= 100)
  }

  lemma LoopBegins(m: Machine, pts: seq<Point>, width: real, dash: seq<real>, poly: bool)
    requires Idle(m)
    ensures Before(m, Opening(poly), pts, 0, 0, width, dash, poly)
  {
    NothingDrawn(m, pts, width, dash, Chunk(pts, poly, 100));
    hide Run, Longest, Drew;
  }

  lemma FirstPlaced(m: Machine, out: seq<Cmd>, pts: seq<Point>, k: nat, width: real, dash: seq<real>, poly: bool)
    requires k < |pts| && DashOk(dash) && Before(m, out, pts, k, 0, width, dash, poly)
    ensures Placed(m, out + StartLine(pts[k], width, Dash(dash)), pts, k + 1, 1, width, dash, poly)
  {
    hide Run, Longest, Drew, Drawing, StartLine, OnePath, DashOk;
    Started(m, out, Lines(pts[..k + 1]), width, dash, Chunk(pts, poly, 100), pts[k], if poly then Longest(m, out) else 100);
  }

  lemma NextPlaced(m: Machine, out: seq<Cmd>, pts: seq<Point>, k: nat, i: nat, width: real, dash: seq<real>, poly: bool)
    requires k < |pts| && i > 0 && Before(m, out, pts, k, i, width, dash, poly)
    ensures Placed(m, out + [LineTo(pts[k])], pts, k + 1, i + 1, width, dash, poly)
  {
    hide Run, Longest, Drew, Drawing, OnePath;
    Continued(m, out, Lines(pts[..k]), width, dash, Chunk(pts, poly, 100), pts[k - 1], pts[k], pts[0]);
    LinesNext(pts, k);
  }

  lemma ChunkEnds(m: Machine, out: seq<Cmd>, pts: seq<Point>, k: nat, width: real, dash: seq<real>)
    requires k < |pts| && Placed(m, out, pts, k + 1, 101, width, dash, false)
    ensures Before(m, out + EndLine(), pts, k, 0, width, dash, false)
  {
    assert (|Lines(pts[..k + 1])| - |Run(m, out).g.path|) % 100 == 0;
    hide Run, Longest, Drew, Drawing, EndLine;
    Ended(m, out, Lines(pts[..k + 1]), width, dash, 100, pts[k], 100);
  }

  lemma ChunkGoesOn(m: Machine, out: seq<Cmd>, pts: seq<Point>, k: nat, i: nat, width: real, dash: seq<real>, poly: bool)
    requires Placed(m, out, pts, k, i, width, dash, poly) && (poly || i <= 100)
    ensures Before(m, out, pts, k, i, width, dash, poly)
  {
    hide Run, Longest, Drew, Drawing, OnePath;
  }

  // What is printed behind the last point.
  function Closing(poly: bool, fill: Option<char>): seq<Cmd> {
    (if poly then [ClosePath] + SetFill(fill) else []) + EndLine()
  }

  // All points have been placed.
  lemma AllPlaced(m: Machine, out: seq<Cmd>, pts: seq<Point>, i: nat, width: real, dash: seq<real>, poly: bool)
    requires i > 0 && Before(m, out, pts, |pts|, i, width, dash, poly)
    ensures pts != [] && Drawing(m, Run(m, out), Lines(pts), width, dash, Chunk(pts, poly, 100), pts[|pts| - 1], [])
    ensures if poly then OnePath(m, Run(m, out), Lines(pts), pts[0]) else Longest(m, out) <= 100
  {
    assert pts[..|pts|] == pts;
    hide Run, Longest, Drew, Drawing, OnePath, Lines;
  }

  // The end of a curve whose segments are drawn or under construction.
  lemma Finished(m: Machine, out: seq<Cmd>, pts: seq<Point>, segs: seq<Seg>, n: nat, width: real, style: char,
      glist: seq<real>, poly: bool, fill: Option<char>)
    requires n > 0 && Draws(style, glist) && HasLine(pts, style, poly)
    requires Drawing(m, Run(m, out), segs, width, DashOf(style, glist), Chunk(pts, poly, n), pts[|pts| - 1], [])
    requires if poly then OnePath(m, Run(m, out), segs, pts[0]) else Longest(m, out) <= n
    ensures Outcome(m, out + Closing(poly, fill), true, pts, segs, n, width, style, glist, poly, fill)
  {
    hide *;
    Cases(pts, width, style, glist, poly, fill);
    var dash, c := DashOf(style, glist), Chunk(pts, poly, n);
    if poly {
      Closed(m, out, segs, width, dash, c, pts[|pts| - 1], pts[0], fill);
      assert out + Closing(poly, fill) == out + [ClosePath] + SetFill(fill) + EndLine();
      FigureOutcome(m, out + Closing(poly, fill), pts, segs, n, width, style, glist, fill);
    } else {
      ChunkIs(pts, n);
      Ended(m, out, segs, width, dash, c, pts[|pts| - 1], n);
      assert out + Closing(poly, fill) == out + EndLine();
      StrokedOutcome(m, out + Closing(poly, fill), pts, segs, n, width, style, glist, fill);
    }
  }

  lemma ChunkIs(pts: seq<Point>, n: nat)
    requires n > 0
    ensures Chunk(pts, false, n) == n
  {
  }

  lemma FigureOutcome(m: Machine, out: seq<Cmd>, pts: seq<Point>, segs: seq<Seg>, n: nat, width: real, style: char,
      glist: seq<real>, fill: Option<char>)
    requires n > 0 && Draws(style, glist) && HasLine(pts, style, true)
    requires DrewFigure(m, Run(m, out), segs, pts[|pts| - 1], pts[0], width, DashOf(style, glist), fill)
    ensures Outcome(m, out, true, pts, segs, n, width, style, glist, true, fill)
  {
    FigureIdle(m, Run(m, out), segs, pts[|pts| - 1], pts[0], width, DashOf(style, glist), fill);
    hide Run, Longest, DrewFigure, DashOf, LineStyle, DashOk, Drew;
  }

  lemma StrokedOutcome(m: Machine, out: seq<Cmd>, pts: seq<Point>, segs: seq<Seg>, n: nat, width: real, style: char,
      glist: seq<real>, fill: Option<char>)
    requires n > 0 && Draws(style, glist) && HasLine(pts, style, false)
    requires Drew(m, Run(m, out), segs, width, DashOf(style, glist), n) && Longest(m, out) <= n
    ensures Outcome(m, out, true, pts, segs, n, width, style, glist, false, fill)
  {
    DrewIdle(m, Run(m, out), segs, width, DashOf(style, glist), n);
    hide Run, Longest, DrewFigure, DashOf, LineStyle, DashOk, Drew;
  }

  lemma FigureIdle(m: Machine, r: Machine, segs: seq<Seg>, at: Point, first: Point, width: real, dash: seq<real>,
      fill: Option<char>)
    requires DrewFigure(m, r, segs, at, first, width, dash, fill)
    ensures !r.failed
  {
  }

  lemma DrewIdle(m: Machine, r: Machine, segs: seq<Seg>, width: real, dash: seq<real>, n: nat)
    requires n > 0 && Drew(m, r, segs, width, dash, n)
    ensures !r.failed
  {
  }

  lemma Failed(m: Machine, out: seq<Cmd>, pts: seq<Point>, segs: seq<Seg>, n: nat, width: real, style: char,
      glist: seq<real>, poly: bool, fill: Option<char>)
    requires Idle(m) && n > 0 && HasLine(pts, style, poly) && LineStyle(style, glist).Some? && !Draws(style, glist)
    requires Opening(poly) + StartLine(pts[0], width, LineStyle(style, glist).value) <= out
    ensures Outcome(m, out, true, pts, segs, n, width, style, glist, poly, fill)
  {
    hide LineStyle, Draws, StartLine, Run, Longest;
    StartFails(m, poly, pts[0], width, style, glist, out);
  }

  // The program ends before anything is drawn.
  lemma Unknown(m: Machine, pts: seq<Point>, segs: seq<Seg>, n: nat, width: real, style: char, glist: seq<real>,
      poly: bool, fill: Option<char>)
    requires Idle(m) && n > 0 && pts != [] && LineStyle(style, glist).None?
    ensures Outcome(m, Opening(poly), false, pts, segs, n, width, style, glist, poly, fill)
  {
    NothingDrawn(m, pts, width, [], n);
    hide Run, Longest, Chunked;
  }

  // The first commands of a curve with a line.
  function First(pts: seq<Point>, width: real, style: char, glist: seq<real>, poly: bool): seq<Cmd>
    requires pts != [] && LineStyle(style, glist).Some?
  {
    Opening(poly) + StartLine(pts[0], width, LineStyle(style, glist).value)
  }

  lemma Cases(pts: seq<Point>, width: real, style: char, glist: seq<real>, poly: bool, fill: Option<char>)
    ensures HasLine(pts, style, poly) <==> pts != [] && (style != '0' || poly)
    ensures pts != [] && LineStyle(style, glist).Some? ==>
      First(pts, width, style, glist, poly) == Opening(poly) + StartLine(pts[0], width, LineStyle(style, glist).value)
    ensures Closing(poly, fill) == (if poly then [ClosePath] + SetFill(fill) else []) + EndLine()
    ensures Opening(poly) == if poly then [NewPath] else []
    ensures Draws(style, glist) ==> LineStyle(style, glist) == Some(Dash(DashOf(style, glist))) && DashOk(DashOf(style, glist))
  {
    hide StartLine, SetFill, EndLine, LineStyle, DashOk, Draws;
  }

  // draw_curve without bezier, lines 247 and 277-299: every segment between neighbouring points is
  // stroked once, in order, in the style of the curve, on paths of at most 100 segments; a closed
  // figure is filled and stroked as one path.
  method DrawPolyline(pts: seq<Point>, width: real, style: char, glist: seq<real>, poly: bool, fill: Option<char>,
      ghost m: Machine)
    returns (out: seq<Cmd>, ok: bool)
    requires Idle(m)
    ensures Outcome(m, out, ok, pts, Lines(pts), 100, width, style, glist, poly, fill)
  {
    hide *;
    Cases(pts, width, style, glist, poly, fill);
    if style == '0' && !poly {
      NoLine(m, pts, Lines(pts), 100, width, style, glist, poly, fill);
      return [], true;
    }
    ghost var draws, dash := Draws(style, glist), DashOf(style, glist);
    out := if poly then [NewPath] else [];
    LoopBegins(m, pts, width, dash, poly);
    var i: nat := 0;
    var k := 0;
    while k < |pts|
      invariant 0 <= k <= |pts| && (k > 0 ==> LineStyle(style, glist).Some? && First(pts, width, style, glist, poly) <= out)
      invariant (k == 0 ==> i == 0 && out == Opening(poly)) && (k == |pts| > 0 ==> i > 0) && (i <= 100 || poly)
      invariant draws ==> Before(m, out, pts, k, i, width, dash, poly)
      decreases |pts| - k, i
    {
      ghost var was := out;
      if i == 0 {
        var c := LineStyle(style, glist);
        if c.None? {
          Unknown(m, pts, Lines(pts), 100, width, style, glist, poly, fill);
          return out, false;
        }
        if draws { FirstPlaced(m, out, pts, k, width, dash, poly); }
        out := out + StartLine(pts[k], width, c.value);
      } else {
        if draws { NextPlaced(m, out, pts, k, i, width, dash, poly); }
        out := out + [LineTo(pts[k])];
      }
      assert was <= out;
      if !poly && i == 100 {
        if draws { ChunkEnds(m, out, pts, k, width, dash); }
        out := out + EndLine();
        k := k - 1;
        i := 0;
      } else {
        if draws { ChunkGoesOn(m, out, pts, k + 1, i + 1, width, dash, poly); }
        i := i + 1;
      }
      k := k + 1;
    }
    ok := true;
    if i != 0 {
      if draws {
        AllPlaced(m, out, pts, i, width, dash, poly);
        Finished(m, out, pts, Lines(pts), 100, width, style, glist, poly, fill);
      }
      ghost var was := out;
      if poly {
        out := out + [ClosePath];
        out := out + SetFill(fill);
      }
      out := out + EndLine();
      assert out == was + Closing(poly, fill);
      if !draws { Failed(m, out, pts, Lines(pts), 100, width, style, glist, poly, fill); }
    } else {
      NoLine(m, pts, Lines(pts), 100, width, style, glist, poly, fill);
    }
  }

  // The number of whole curves among the first k points.
  function Whole(k: nat): nat
    requires k > 0
  {
    (k - 1) / 3
  }

  // The state before point k > 0: the whole curves are drawn, the rest are control points.
  predicate Bezier(m: Machine, r: Machine, pts: seq<Point>, k: nat, width: real, dash: seq<real>, n: nat)
    requires 0 < k <= |pts| && n > 0
  {
    var w := Whole(k);
    Drawing(m, r, Curves(pts[..3 * w + 1]), width, dash, n, pts[3 * w], pts[3 * w + 1..k])
  }

  // All whole curves are one path.
  predicate Figure(m: Machine, r: Machine, pts: seq<Point>, k: nat)
    requires 0 < k <= |pts|
  {
    OnePath(m, r, Curves(pts[..3 * Whole(k) + 1]), pts[0])
  }

  lemma WholeNext(k: nat)
    requires k > 0
    ensures 3 * Whole(k) + 1 <= k <= 3 * Whole(k) + 3
    ensures k % 3 == 0 ==> k == 3 * Whole(k) + 3 && Whole(k + 1) == Whole(k) + 1
    ensures k % 3 != 0 ==> Whole(k + 1) == Whole(k)
  {
  }

  lemma ControlPoint(m: Machine, out: seq<Cmd>, pts: seq<Point>, k: nat, width: real, dash: seq<real>, n: nat)
    requires 0 < k < |pts| && k % 3 != 0 && n > 0 && Bezier(m, Run(m, out), pts, k, width, dash, n)
    ensures var out' := out + [Push(pts[k])]; var r, r' := Run(m, out), Run(m, out');
      && Bezier(m, r', pts, k + 1, width, dash, n)
      && r'.g.path == r.g.path && Longest(m, out') == Longest(m, out)
      && (Figure(m, r, pts, k) ==> Figure(m, r', pts, k + 1))
  {
    hide Run, Longest, Drawing, OnePath;
    WholeNext(k);
    var w := Whole(k);
    Controlled(m, out, Curves(pts[..3 * w + 1]), width, dash, n, pts[3 * w], pts[3 * w + 1..k], pts[k], pts[0]);
    assert pts[3 * w + 1..k] + [pts[k]] == pts[3 * w + 1..k + 1];
  }

  lemma EndPoint(m: Machine, out: seq<Cmd>, pts: seq<Point>, k: nat, width: real, dash: seq<real>, n: nat)
    requires 0 < k < |pts| && k % 3 == 0 && n > 0 && Bezier(m, Run(m, out), pts, k, width, dash, n)
    requires |Run(m, out).g.path| < n
    ensures var out' := out + [Push(pts[k])] + [CurveTo]; var r, r' := Run(m, out), Run(m, out');
      && Bezier(m, r', pts, k + 1, width, dash, n) && pts[3 * Whole(k + 1) + 1..k + 1] == []
      && |r'.g.path| == |r.g.path| + 1
      && (|r'.g.path| <= Longest(m, out) ==> Longest(m, out') == Longest(m, out))
      && (|r'.g.path| > Longest(m, out) ==> Longest(m, out') == |r'.g.path|)
      && (Figure(m, r, pts, k) ==> Figure(m, r', pts, k + 1))
  {
    hide Run, Longest, Drawing, OnePath, Curves;
    WholeNext(k);
    var w := Whole(k);
    assert pts[3 * w + 1..k] == [pts[3 * w + 1], pts[3 * w + 2]];
    Curved(m, out, Curves(pts[..3 * w + 1]), width, dash, n, pts[3 * w], pts[3 * w + 1], pts[3 * w + 2], pts[k], pts[0]);
    CurvesNext(pts, w);
    assert pts[3 * w + 4..k + 1] == [];
  }

  lemma FirstPoint(m: Machine, out: seq<Cmd>, pts: seq<Point>, k: nat, width: real, dash: seq<real>, n: nat, bound: nat)
    requires k < |pts| && k % 3 == 0 && n > 0 && (k / 3) % n == 0 && DashOk(dash)
    requires Drew(m, Run(m, out), Curves(pts[..k + 1]), width, dash, n) && Longest(m, out) <= bound
    ensures var out' := out + StartLine(pts[k], width, Dash(dash)); var r := Run(m, out');
      && Bezier(m, r, pts, k + 1, width, dash, n) && r.g.path == [] && Longest(m, out') <= bound
      && (k == 0 ==> Figure(m, r, pts, 1))
  {
    hide Run, Longest, Drawing, OnePath, StartLine, DashOk, Drew;
    assert 3 * Whole(1) + 1 == 1;
    Started(m, out, Curves(pts[..k + 1]), width, dash, n, pts[k], bound);
    assert Whole(k + 1) == k / 3 && 3 * (k / 3) == k && pts[k + 1..k + 1] == [];
  }

  lemma ChunkDone(m: Machine, out: seq<Cmd>, pts: seq<Point>, k: nat, width: real, dash: seq<real>, n: nat, bound: nat)
    requires 0 < k <= |pts| && k % 3 == 1 && n > 0 && Bezier(m, Run(m, out), pts, k, width, dash, n) && Longest(m, out) <= bound
    ensures var out' := out + EndLine(); Drew(m, Run(m, out'), Curves(pts[..k]), width, dash, n) && Longest(m, out') <= bound
  {
    hide Run, Longest, Drawing, EndLine, Drew;
    assert 3 * Whole(k) + 1 == k && pts[k..k] == [];
    Ended(m, out, Curves(pts[..k]), width, dash, n, pts[k - 1], bound);
  }

  // The loop of draw_curve with bezier before point k, with j commands in the chunk.
  predicate BeforeBezier(m: Machine, out: seq<Cmd>, pts: seq<Point>, k: nat, j: nat, width: real, dash: seq<real>, poly: bool) {
    var n := Chunk(pts, poly, 29);
    && k <= |pts| && (poly || j <= 29) && j <= k
    && (j == 0 ==> k < |pts| && k % 3 == 0 && (k / 3) % n == 0 && Drew(m, Run(m, out), Curves(pts[..k + 1]), width, dash, n))
    && (j > 0 ==> Bezier(m, Run(m, out), pts, k, width, dash, n) && |Run(m, out).g.path| == j - 1)
    && (poly && j == 0 ==> k == 0 && Longest(m, out) == 0)
    && (poly && j > 0 ==> Figure(m, Run(m, out), pts, k))
    && (!poly ==> Longest(m, out) <= 29)
  }

  // After point k - 1 has been placed.
  predicate PlacedBezier(m: Machine, out: seq<Cmd>, pts: seq<Point>, k: nat, j: nat, width: real, dash: seq<real>, poly: bool) {
    && 0 < j <= k <= |pts| && (poly || j <= 30)
    && Bezier(m, Run(m, out), pts, k, width, dash, Chunk(pts, poly, 29)) && |Run(m, out).g.path| == j - 1
    && (poly ==> Figure(m, Run(m, out), pts, k))
    && (!poly ==> Longest(m, out) <= 29 && (j == 30 ==> k % 3 == 1))
  }

  lemma BezierBegins(m: Machine, pts: seq<Point>, width: real, dash: seq<real>, poly: bool)
    requires Idle(m) && pts != []
    ensures BeforeBezier(m, Opening(poly), pts, 0, 0, width, dash, poly)
  {
    NothingDrawn(m, pts, width, dash, Chunk(pts, poly, 29));
    hide Run, Longest, Drew, Curves;
  }

  lemma BezierFirst(m: Machine, out: seq<Cmd>, pts: seq<Point>, k: nat, width: real, dash: seq<real>, poly: bool)
    requires k < |pts| && DashOk(dash) && BeforeBezier(m, out, pts, k, 0, width, dash, poly)
    ensures PlacedBezier(m, out + StartLine(pts[k], width, Dash(dash)), pts, k + 1, 1, width, dash, poly)
  {
    hide Run, Longest, Drew, Bezier, StartLine, Figure, DashOk;
    FirstPoint(m, out, pts, k, width, dash, Chunk(pts, poly, 29), if poly then Longest(m, out) else 29);
  }

  lemma BezierControl(m: Machine, out: seq<Cmd>, pts: seq<Point>, k: nat, j: nat, width: real, dash: seq<real>, poly: bool)
    requires k < |pts| && j > 0 && k % 3 != 0 && BeforeBezier(m, out, pts, k, j, width, dash, poly)
    ensures PlacedBezier(m, out + [Push(pts[k])], pts, k + 1, j, width, dash, poly)
  {
    hide Run, Longest, Drew, Bezier, Figure;
    ControlPoint(m, out, pts, k, width, dash, Chunk(pts, poly, 29));
  }

  lemma BezierEnd(m: Machine, out: seq<Cmd>, pts: seq<Point>, k: nat, j: nat, width: real, dash: seq<real>, poly: bool)
    requires k < |pts| && j > 0 && k % 3 == 0 && BeforeBezier(m, out, pts, k, j, width, dash, poly)
    ensures PlacedBezier(m, out + [Push(pts[k])] + [CurveTo], pts, k + 1, j + 1, width, dash, poly)
  {
    hide Run, Longest, Drew, Bezier, Figure;
    EndPoint(m, out, pts, k, width, dash, Chunk(pts, poly, 29));
  }

  lemma BezierChunk(m: Machine, out: seq<Cmd>, pts: seq<Point>, k: nat, width: real, dash: seq<real>)
    requires k < |pts| && k % 3 == 0 && PlacedBezier(m, out, pts, k + 1, 30, width, dash, false)
    ensures BeforeBezier(m, out + EndLine(), pts, k, 0, width, dash, false)
  {
    ChunkCount(m, Run(m, out), pts, k, width, dash);
    hide Run, Longest, Drew, Bezier, EndLine, Curves;
    ChunkDone(m, out, pts, k + 1, width, dash, 29, 29);
  }

  lemma ChunkCount(m: Machine, r: Machine, pts: seq<Point>, k: nat, width: real, dash: seq<real>)
    requires k < |pts| && k % 3 == 0 && Bezier(m, r, pts, k + 1, width, dash, 29) && |r.g.path| == 29
    ensures (k / 3) % 29 == 0
  {
    assert Whole(k + 1) == k / 3;
    assert |Curves(pts[..3 * (k / 3) + 1])| == k / 3;
    hide Inked, Chunked, Curves;
  }

  lemma BezierGoesOn(m: Machine, out: seq<Cmd>, pts: seq<Point>, k: nat, j: nat, width: real, dash: seq<real>, poly: bool)
    requires PlacedBezier(m, out, pts, k, j, width, dash, poly) && (poly || j <= 29)
    ensures BeforeBezier(m, out, pts, k, j, width, dash, poly)
  {
    hide Run, Longest, Drew, Bezier, Figure;
  }

  lemma BezierAll(m: Machine, out: seq<Cmd>, pts: seq<Point>, j: nat, width: real, dash: seq<real>, poly: bool)
    requires j > 0 && |pts| % 3 == 1 && BeforeBezier(m, out, pts, |pts|, j, width, dash, poly)
    ensures pts != [] && Drawing(m, Run(m, out), Curves(pts), width, dash, Chunk(pts, poly, 29), pts[|pts| - 1], [])
    ensures if poly then OnePath(m, Run(m, out), Curves(pts), pts[0]) else Longest(m, out) <= 29
  {
    hide Run, Longest, Drew, OnePath, Drawing, Bezier, Figure, Curves;
    AllPoints(m, out, pts, width, dash, Chunk(pts, poly, 29));
  }

  lemma AllPoints(m: Machine, out: seq<Cmd>, pts: seq<Point>, width: real, dash: seq<real>, n: nat)
    requires |pts| >= 1 && |pts| % 3 == 1 && n > 0 && Bezier(m, Run(m, out), pts, |pts|, width, dash, n)
    ensures 3 * Whole(|pts|) + 1 == |pts| && pts[..|pts|] == pts
    ensures Drawing(m, Run(m, out), Curves(pts), width, dash, n, pts[|pts| - 1], [])
    ensures Figure(m, Run(m, out), pts, |pts|) ==> OnePath(m, Run(m, out), Curves(pts), pts[0])
  {
    hide Run, Drawing, Curves;
    assert pts[|pts|..|pts|] == [];
  }

  // draw_curve with bezier, lines 247-275, on the 3n + 1 points that process_curve insists on:
  // every curve is stroked once, in order, on paths of at most 29.
  method DrawBezier(pts: seq<Point>, width: real, style: char, glist: seq<real>, poly: bool, fill: Option<char>,
      ghost m: Machine)
    returns (out: seq<Cmd>, ok: bool)
    requires Idle(m) && |pts| >= 4 && |pts| % 3 == 1
    ensures Outcome(m, out, ok, pts, Curves(pts), 29, width, style, glist, poly, fill)
  {
    hide *;
    Cases(pts, width, style, glist, poly, fill);
    if style == '0' && !poly {
      NoLine(m, pts, Curves(pts), 29, width, style, glist, poly, fill);
      return [], true;
    }
    ghost var draws, dash := Draws(style, glist), DashOf(style, glist);
    out := if poly then [NewPath] else [];
    BezierBegins(m, pts, width, dash, poly);
    var i: nat, j: nat := 0, 0;
    var k := 0;
    while k < |pts|
      invariant 0 <= k <= |pts| && (k > 0 ==> LineStyle(style, glist).Some? && First(pts, width, style, glist, poly) <= out)
      invariant (k == 0 ==> j == 0 && out == Opening(poly)) && (k == |pts| ==> j > 0) && (j <= 29 || poly)
      invariant i == k % 3 && (j == 0 ==> i == 0)
      invariant draws ==> BeforeBezier(m, out, pts, k, j, width, dash, poly)
      decreases |pts| - k, j
    {
      ghost var was := out;
      if j == 0 && i == 0 {
        var c := LineStyle(style, glist);
        if c.None? {
          Unknown(m, pts, Curves(pts), 29, width, style, glist, poly, fill);
          return out, false;
        }
        if draws { BezierFirst(m, out, pts, k, width, dash, poly); }
        out := out + StartLine(pts[k], width, c.value);
        j := j + 1;
      } else if i != 0 {
        if draws { BezierControl(m, out, pts, k, j, width, dash, poly); }
        out := out + [Push(pts[k])];
      } else {
        if draws { BezierEnd(m, out, pts, k, j, width, dash, poly); }
        out := out + [Push(pts[k])] + [CurveTo];
        j := j + 1;
      }
      assert was <= out;
      if !poly && j == 30 && i == 0 {
        if draws { BezierChunk(m, out, pts, k, width, dash); }
        out := out + EndLine();
        k := k - 1;
        j := 0;
        i := 0;
      } else {
        if draws { BezierGoesOn(m, out, pts, k + 1, j, width, dash, poly); }
        i := (i + 1) % 3;
      }
      k := k + 1;
    }
    ok := true;
    if j != 0 {
      if draws {
        BezierAll(m, out, pts, j, width, dash, poly);
        Finished(m, out, pts, Curves(pts), 29, width, style, glist, poly, fill);
      }
      ghost var was := out;
      if poly {
        out := out + [ClosePath];
        out := out + SetFill(fill);
      }
      out := out + EndLine();
      assert out == was + Closing(poly, fill);
      if !draws { Failed(m, out, pts, Curves(pts), 29, width, style, glist, poly, fill); }
    }
  }
}
