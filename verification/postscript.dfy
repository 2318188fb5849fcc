/** A small PostScript machine: the graphics state with its stack (section 4.2 of the
    PostScript Language Reference, third edition), path construction (section 4.4) and
    painting, as far as tools/jgraph emits them. */
module PostScript {
  import opened Options

  datatype Point = Point(x: real, y: real)

  datatype Seg = Line(a: Point, b: Point) | Curve(a: Point, b: Point, c: Point, d: Point)

  datatype Font = Font(name: string, size: real)

  /** The ink on the page: a stroked segment with line width and dash array, or a filled area.  A
      dash pattern begins with each subpath and runs on from segment to segment; lead is how many
      segments of its subpath come before this one, and 0 in a line without dashes. */
  datatype Ink = Stroked(seg: Seg, width: real, dash: seq<real>, lead: nat) | Filled(area: seq<Seg>, pattern: char)

  datatype Cmd =
    | Gsave
    | Grestore
    | SelectFont(font: Font)
    | LineWidth(width: real)
    | Dash(dash: seq<real>)
    | BareDash(dash: seq<real>)
    | NewPath
    | MoveTo(p: Point)
    | LineTo(p: Point)
    | Push(p: Point)
    | CurveTo
    | ClosePath
    | Fill(pattern: char)
    | Stroke

  /** from is where the current subpath began, at is the current point, and begins tells which
      segments of the path are the first of their subpaths. */
  datatype Graphics = Graphics(font: Option<Font>, width: real, dash: seq<real>,
    from: Option<Point>, at: Option<Point>, path: seq<Seg>, begins: set<nat>)
  {
    function NoPath(): Graphics {
      this.(from := None, at := None, path := [], begins := {})
    }
  }

  /** operands is the operand stack, saved the graphics state stack; failed says that an operator
      was in error, which ends the program. */
  datatype Machine = Machine(g: Graphics, saved: seq<Graphics>, operands: seq<Point>, page: seq<Ink>, failed: bool)

  // How many segments of its subpath come before segment i.
  function Since(begins: set<nat>, i: nat): nat {
    if i == 0 || i in begins then 0 else Since(begins, i - 1) + 1
  }

  // The ink of a path.
  function Outline(g: Graphics): (r: seq<Ink>)
    ensures |r| == |g.path|
  {
    seq(|g.path|, i requires 0 <= i < |g.path| =>
      Stroked(g.path[i], g.width, g.dash, if g.dash == [] then 0 else Since(g.begins, i)))
  }

  // The ink of a path that is one subpath.
  function Inked(path: seq<Seg>, width: real, dash: seq<real>): (r: seq<Ink>)
    ensures |r| == |path|
    ensures forall i :: 0 <= i < |r| ==> r[i] == Stroked(path[i], width, dash, if dash == [] then 0 else i)
  {
    seq(|path|, i requires 0 <= i < |path| => Stroked(path[i], width, dash, if dash == [] then 0 else i))
  }

  // Only the first of n segments begins a subpath.
  predicate Single(begins: set<nat>, n: nat) {
    forall b :: b in begins && b > 0 ==> b >= n
  }

  lemma {:induction false} SinceSingle(begins: set<nat>, n: nat, i: nat)
    requires Single(begins, n) && i < n
    ensures Since(begins, i) == i
  {
    if i > 0 { SinceSingle(begins, n, i - 1); }
  }

  lemma OneSubpath(g: Graphics)
    requires Single(g.begins, |g.path|)
    ensures Outline(g) == Inked(g.path, g.width, g.dash)
  {
    hide Single, Since;
    forall i: nat | i < |g.path|
      ensures Outline(g)[i] == Inked(g.path, g.width, g.dash)[i]
    {
      SinceSingle(g.begins, |g.path|, i);
    }
  }

  // What setdash accepts as an array.
  predicate DashOk(dash: seq<real>) {
    (forall i :: 0 <= i < |dash| ==> dash[i] >= 0.0) && (dash == [] || exists i :: 0 <= i < |dash| && dash[i] > 0.0)
  }

  // One command.  After an error nothing is executed any more.
  function Exec(m: Machine, c: Cmd): Machine {
    if m.failed then m else Do(m, c)
  }

  // An operator is in error when its operands are missing or wrong, or there is no current point;
  // BareDash is setdash without its second operand.
  function Do(m: Machine, c: Cmd): Machine {
    match c
    case Gsave => m.(saved := m.saved + [m.g])
    case Grestore =>
      if m.saved == [] then m else m.(g := m.saved[|m.saved| - 1], saved := m.saved[..|m.saved| - 1])
    case SelectFont(f) => m.(g := m.g.(font := Some(f)))
    case LineWidth(w) => m.(g := m.g.(width := w))
    case Dash(d) => if DashOk(d) then m.(g := m.g.(dash := d)) else m.(failed := true)
    case BareDash(d) => m.(failed := true)
    case NewPath => m.(g := m.g.NoPath())
    case MoveTo(p) =>
      m.(g := m.g.(from := Some(p), at := Some(p), begins := if m.g.path == [] then {0} else m.g.begins + {|m.g.path|}))
    case LineTo(p) =>
      if m.g.at == None then m.(failed := true)
      else m.(g := m.g.(at := Some(p), path := m.g.path + [Line(m.g.at.value, p)]))
    case Push(p) => m.(operands := m.operands + [p])
    case CurveTo =>
      var n := |m.operands|;
      if m.g.at == None || n < 3 then m.(failed := true)
      else
        var s := Curve(m.g.at.value, m.operands[n - 3], m.operands[n - 2], m.operands[n - 1]);
        m.(g := m.g.(at := Some(m.operands[n - 1]), path := m.g.path + [s]), operands := m.operands[..n - 3])
    case ClosePath =>
      if m.g.at == None || m.g.from == None then m
      else
        var path := m.g.path + [Line(m.g.at.value, m.g.from.value)];
        m.(g := m.g.(at := m.g.from, path := path, begins := m.g.begins + {|path|}))
    case Fill(pattern) => m.(page := m.page + [Filled(m.g.path, pattern)], g := m.g.NoPath())
    case Stroke => m.(page := m.page + Outline(m.g), g := m.g.NoPath())
  }

  function Run(m: Machine, cs: seq<Cmd>): Machine
    decreases |cs|
  {
    if cs == [] then m else Exec(Run(m, cs[..|cs| - 1]), cs[|cs| - 1])
  }

  lemma RunMore(m: Machine, cs: seq<Cmd>, c: Cmd)
    ensures Run(m, cs + [c]) == Exec(Run(m, cs), c)
  {
    assert (cs + [c])[..|cs|] == cs;
  }

  lemma {:induction false} RunConcat(m: Machine, a: seq<Cmd>, b: seq<Cmd>)
    ensures Run(m, a + b) == Run(Run(m, a), b)
    decreases |b|
  {
    if b == [] {
      assert a + b == a;
    } else {
      var n := |b| - 1;
      RunConcat(m, a, b[..n]);
      assert (a + b)[..|a + b| - 1] == a + b[..n];
    }
  }

  // After an error the machine stands still.
  lemma {:induction false} RunFailed(m: Machine, cs: seq<Cmd>)
    requires m.failed
    ensures Run(m, cs) == m
    decreases |cs|
  {
    if cs != [] { RunFailed(m, cs[..|cs| - 1]); }
  }

  // What fails at the beginning fails as a whole, and changes nothing behind that.
  lemma {:induction false} PrefixFails(m: Machine, a: seq<Cmd>, cs: seq<Cmd>)
    requires a <= cs && Run(m, a).failed
    ensures Run(m, cs) == Run(m, a) && Longest(m, cs) == Longest(m, a)
    decreases |cs|
  {
    hide Do;
    if |cs| == |a| {
      assert cs == a;
    } else {
      var n := |cs| - 1;
      PrefixFails(m, a, cs[..n]);
      AtMost(m, a);
    }
  }

  lemma AtMost(m: Machine, cs: seq<Cmd>)
    ensures |Run(m, cs).g.path| <= Longest(m, cs)
  {
  }

  // The longest path that is ever built.
  function Longest(m: Machine, cs: seq<Cmd>): nat
    decreases |cs|
  {
    if cs == [] then |m.g.path|
    else
      var before := Longest(m, cs[..|cs| - 1]);
      var now := |Run(m, cs).g.path|;
      if now > before then now else before
  }

  // One more command: what it does, and what it does to the length of paths.
  lemma More(m: Machine, cs: seq<Cmd>, c: Cmd, bound: nat)
    requires Longest(m, cs) <= bound && |Exec(Run(m, cs), c).g.path| <= bound
    ensures Run(m, cs + [c]) == Exec(Run(m, cs), c) && Longest(m, cs + [c]) <= bound
  {
    RunMore(m, cs, c);
    assert (cs + [c])[..|cs|] == cs;
  }

  lemma MoreThree(m: Machine, cs: seq<Cmd>, a: Cmd, b: Cmd, c: Cmd, bound: nat)
    requires Longest(m, cs) <= bound
    requires var r := Exec(Run(m, cs), a);
      |r.g.path| <= bound && |Exec(r, b).g.path| <= bound && |Exec(Exec(r, b), c).g.path| <= bound
    ensures Run(m, cs + [a, b, c]) == Exec(Exec(Exec(Run(m, cs), a), b), c) && Longest(m, cs + [a, b, c]) <= bound
  {
    hide Exec;
    More(m, cs, a, bound);
    More(m, cs + [a], b, bound);
    More(m, cs + [a] + [b], c, bound);
    assert cs + [a] + [b] + [c] == cs + [a, b, c];
  }
}
