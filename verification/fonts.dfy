/** The font cache of tools/jgraph/printline.c: setfont prints nothing when the PostScript
    interpreter has that font already, across gsave and grestore. */
module FontCache {
  import opened Options
  import opened PostScript

  // struct fontlist: the font and the gsave level at which it was selected.
  datatype Entry = Entry(level: int, font: Font)

  /** The static variables: the level is -100 before the first gsave. */
  datatype Cache = Cache(level: int, fonts: seq<Entry>)

  const FRESH: Cache := Cache(-100, [])

  /** What jgraph prints around a page: gsave and grestore, setfont, and commands of the user's own.
      The preamble comes behind the first setfont, a mark from a file between gsave and grestore,
      and the epilogue in front of the last grestore. */
  datatype Op = Save | Restore | Select(font: Font) | Inline(cmds: seq<Cmd>)

  function Saved(c: Cache): Cache {
    if c.level == -100 then Cache(1, []) else c.(level := c.level + 1)
  }

  function Restored(c: Cache): Cache {
    var n := |c.fonts|;
    Cache(c.level - 1, if n > 0 && c.fonts[n - 1].level == c.level then c.fonts[..n - 1] else c.fonts)
  }

  // Whether setfont prints: the last entry is for another font, or there is none.
  predicate Prints(c: Cache, f: Font) {
    c.fonts == [] || c.fonts[|c.fonts| - 1].font != f
  }

  function Selected(c: Cache, f: Font): Cache {
    var n := |c.fonts|;
    if !Prints(c, f) then c
    else c.(fonts := (if n > 0 then c.fonts[..n - 1] else []) + [Entry(c.level, f)])
  }

  function Next(c: Cache, op: Op): Cache {
    match op
    case Save => Saved(c)
    case Restore => Restored(c)
    case Select(f) => Selected(c, f)
    case Inline(cmds) => c
  }

  // What is printed for one operation, with the cache and without.
  function Printed(c: Cache, op: Op, cached: bool): seq<Cmd> {
    match op
    case Save => [Gsave]
    case Restore => [Grestore]
    case Select(f) => if !cached || Prints(c, f) then [SelectFont(f)] else []
    case Inline(cmds) => cmds
  }

  // gsave and grestore are nested, starting inside depth of them.
  predicate Nested(cs: seq<Cmd>, depth: nat) {
    if cs == [] then depth == 0
    else if cs[0] == Gsave then Nested(cs[1..], depth + 1)
    else if cs[0] == Grestore then depth > 0 && Nested(cs[1..], depth - 1)
    else Nested(cs[1..], depth)
  }

  // The list exists after the first gsave, and only what was saved is restored.
  predicate Legal(c: Cache, op: Op) {
    match op
    case Save => true
    case Restore => c.level > 0
    case Select(f) => c.level != -100
    case Inline(cmds) => c.level != -100
  }

  predicate LegalOps(c: Cache, ops: seq<Op>)
    decreases |ops|
  {
    ops == [] || (Legal(c, ops[0]) && LegalOps(Next(c, ops[0]), ops[1..]))
  }

  function Stream(c: Cache, ops: seq<Op>, cached: bool): seq<Cmd>
    decreases |ops|
  {
    if ops == [] then [] else Printed(c, ops[0], cached) + Stream(Next(c, ops[0]), ops[1..], cached)
  }

  lemma {:induction false} NestedRuns(m: Machine, cs: seq<Cmd>, depth: nat)
    requires Nested(cs, depth) && depth <= |m.saved|
    ensures var r := Run(m, cs); r.failed || r.saved == m.saved[..|m.saved| - depth]
    decreases |cs|
  {
    hide Do, Run;
    if cs == [] {
      RunNone(m);
    } else if m.failed {
      RunFailed(m, cs);
    } else {
      var m1 := Exec(m, cs[0]);
      RunConcat(m, [cs[0]], cs[1..]);
      assert [cs[0]] + cs[1..] == cs;
      RunOne(m, cs[0]);
      SavedBy(m, cs[0]);
      hide Exec;
      NestedRuns(m1, cs[1..], if cs[0] == Gsave then depth + 1 else if cs[0] == Grestore then depth - 1 else depth);
    }
  }

  lemma RunNone(m: Machine)
    ensures Run(m, []) == m
  {
  }

  lemma SavedBy(m: Machine, c: Cmd)
    requires !m.failed
    ensures c == Gsave ==> Exec(m, c).saved == m.saved + [m.g]
    ensures c == Grestore && m.saved != [] ==> Exec(m, c).saved == m.saved[..|m.saved| - 1]
    ensures c != Gsave && c != Grestore ==> Exec(m, c).saved == m.saved
  {
  }

  lemma RunOne(m: Machine, c: Cmd)
    ensures Run(m, [c]) == Exec(m, c)
  {
    RunMore(m, [], c);
    assert [] + [c] == [c];
  }

  // base is the machine's graphics state stack when jgraph began; the cache holds at most one
  // font, and that is the font of every saved level from its own up,
  predicate Levels(c: Cache, m: Machine, base: nat) {
    && |c.fonts| <= 1
    && (c.level == -100 ==> c.fonts == [] && |m.saved| == base)
    && (c.level != -100 ==> c.level >= 0 && |m.saved| == base + c.level)
    && (c.fonts != [] ==>
          var e := c.fonts[0];
          && 0 <= e.level <= c.level
          && forall j :: base + e.level <= j < |m.saved| ==> m.saved[j].font == Some(e.font))
  }

  // and of the current one.
  predicate Current(c: Cache, m: Machine) {
    c.fonts != [] ==> m.g.font == Some(c.fonts[0].font)
  }

  // PostScript of the user's own between gsave and grestore leaves the graphics state as it was exactly
  // when it leaves the saved states as they were (or has dropped all of them, and there were none);
  // when its own gsave and grestore nest, it does.
  lemma ForeignRuns(m: Machine, inner: seq<Cmd>)
    ensures var q := Run(Exec(m, Gsave), inner); var r := Run(m, [Gsave] + inner + [Grestore]);
      && (q.failed ==> r == q)
      && (!q.failed ==>
            (r.saved == m.saved && r.g == m.g <==>
              q.saved == m.saved + [m.g] || (q.saved == m.saved == [] && q.g == m.g))
            && (Nested(inner, 0) ==> q.saved == m.saved + [m.g]))
  {
    var m1 := Exec(m, Gsave);
    RunOne(m, Gsave);
    RunConcat(m, [Gsave], inner);
    RunMore(m, [Gsave] + inner, Grestore);
    var q := Run(m1, inner);
    if m.failed {
      RunFailed(m, inner);
    } else if !q.failed {
      if Nested(inner, 0) {
        NestedRuns(m1, inner, 0);
        assert m1.saved[..|m1.saved|] == m1.saved;
      }
      hide Run, Nested;
      Popped(m, q);
    }
  }

  lemma Popped(m: Machine, q: Machine)
    requires !q.failed
    ensures var r := Exec(q, Grestore);
      r.saved == m.saved && r.g == m.g <==> q.saved == m.saved + [m.g] || (q.saved == m.saved == [] && q.g == m.g)
  {
    if q.saved != [] {
      var n := |q.saved| - 1;
      assert q.saved == q.saved[..n] + [q.saved[n]];
      assert (m.saved + [m.g])[..|m.saved|] == m.saved;
    }
  }

  // One operation of jgraph's own: both streams leave the machine in the same state, and the cache
  // is right about it.  Only grestore puts up with a wrong current font.
  lemma StepSound(c: Cache, op: Op, m: Machine, base: nat)
    requires Levels(c, m, base) && Legal(c, op) && !op.Inline? && !m.failed && (Current(c, m) || op.Restore?)
    ensures Run(m, Printed(c, op, true)) == Run(m, Printed(c, op, false))
    ensures var r := Run(m, Printed(c, op, true));
      && Levels(Next(c, op), r, base) && Current(Next(c, op), r) && !r.failed
      && (op.Select? ==> r.g.font == Some(op.font))
  {
    match op
    case Save => RunOne(m, Gsave);
    case Restore => RunOne(m, Grestore);
    case Select(f) => RunOne(m, SelectFont(f));
  }

  // Commands of the user's own leave the cache right exactly when they leave the font and those of
  // the saved levels as they were, from the level of the entry up.
  lemma InlineSound(c: Cache, m: Machine, r: Machine, base: nat)
    requires Levels(c, m, base) && Current(c, m)
    ensures Levels(c, r, base) && Current(c, r) <==>
      && |r.saved| == |m.saved|
      && (c.fonts != [] ==>
            && r.g.font == m.g.font
            && forall j :: base + c.fonts[0].level <= j < |m.saved| ==> r.saved[j].font == m.saved[j].font)
  {
  }

  // In particular, commands whose gsave and grestore nest keep the saved levels.
  lemma NestedLevels(c: Cache, m: Machine, cmds: seq<Cmd>, base: nat)
    requires Levels(c, m, base) && Nested(cmds, 0)
    ensures Run(m, cmds).failed || Levels(c, Run(m, cmds), base)
  {
    NestedRuns(m, cmds, 0);
    assert m.saved[..|m.saved|] == m.saved;
    hide Run, Nested;
  }

  // The commands of the user's own in a sequence of operations keep the saved levels, and the
  // current font unless grestore follows at once or nothing follows, or fail.
  predicate Tame(c: Cache, ops: seq<Op>, m: Machine, base: nat)
    decreases |ops|
  {
    ops == [] ||
    (var r := Run(m, Printed(c, ops[0], true));
     && (ops[0].Inline? && !r.failed ==>
           Levels(c, r, base) && (Current(c, r) || |ops| == 1 || ops[1].Restore?))
     && Tame(Next(c, ops[0]), ops[1..], r, base))
  }

  // For every such sequence of operations, the stream with the cache leaves the machine
  // exactly where the stream that always selects the font leaves it: the same fonts at
  // every saved level, and the same page.
  lemma {:induction false} CacheSound(c: Cache, ops: seq<Op>, m: Machine, base: nat)
    requires m.failed || Levels(c, m, base)
    requires m.failed || Current(c, m) || ops == [] || ops[0].Restore?
    requires LegalOps(c, ops) && Tame(c, ops, m, base)
    ensures Run(m, Stream(c, ops, true)) == Run(m, Stream(c, ops, false))
    decreases |ops|
  {
    hide Levels, Current, Next, Legal, Exec, Run;
    if m.failed {
      RunFailed(m, Stream(c, ops, true));
      RunFailed(m, Stream(c, ops, false));
    } else if ops != [] {
      var a, b := Printed(c, ops[0], true), Printed(c, ops[0], false);
      var c1 := Next(c, ops[0]);
      if ops[0].Inline? {
        InlineNext(c, ops[0]);
      } else {
        StepSound(c, ops[0], m, base);
      }
      hide Printed;
      CacheSound(c1, ops[1..], Run(m, a), base);
      RunConcat(m, a, Stream(c1, ops[1..], true));
      RunConcat(m, b, Stream(c1, ops[1..], false));
    }
  }

  lemma InlineNext(c: Cache, op: Op)
    requires op.Inline?
    ensures Next(c, op) == c && Printed(c, op, true) == Printed(c, op, false)
  {
  }

  // In particular from the start of the program, and after each setfont the font is the one
  // that was asked for.
  lemma FontsFromStart(ops: seq<Op>, font: Font, m: Machine)
    requires LegalOps(FRESH, ops + [Select(font)]) && Tame(FRESH, ops + [Select(font)], m, |m.saved|)
    ensures Run(m, Stream(FRESH, ops, true)) == Run(m, Stream(FRESH, ops, false))
    ensures var r := Run(m, Stream(FRESH, ops + [Select(font)], true)); r.failed || r.g.font == Some(font)
  {
    LegalPrefix(FRESH, ops, Select(font));
    TamePrefix(FRESH, ops, Select(font), m, |m.saved|);
    CacheSound(FRESH, ops, m, |m.saved|);
    LastSelect(FRESH, ops, font, m, |m.saved|);
  }

  lemma {:induction false} LegalPrefix(c: Cache, ops: seq<Op>, op: Op)
    requires LegalOps(c, ops + [op])
    ensures LegalOps(c, ops)
    decreases |ops|
  {
    if ops != [] {
      assert (ops + [op])[1..] == ops[1..] + [op];
      LegalPrefix(Next(c, ops[0]), ops[1..], op);
    }
  }

  lemma {:induction false} TamePrefix(c: Cache, ops: seq<Op>, op: Op, m: Machine, base: nat)
    requires Tame(c, ops + [op], m, base)
    ensures Tame(c, ops, m, base)
    decreases |ops|
  {
    if ops != [] {
      var all := ops + [op];
      hide Levels, Current, Run, Printed;
      assert all[0] == ops[0] && all[1..] == ops[1..] + [op];
      assert |ops| > 1 ==> all[1] == ops[1];
      TamePrefix(Next(c, ops[0]), ops[1..], op, Run(m, Printed(c, ops[0], true)), base);
    }
  }

  lemma {:induction false} LastSelect(c: Cache, ops: seq<Op>, font: Font, m: Machine, base: nat)
    requires m.failed || Levels(c, m, base)
    requires m.failed || Current(c, m) || (ops != [] && ops[0].Restore?)
    requires LegalOps(c, ops + [Select(font)]) && Tame(c, ops + [Select(font)], m, base)
    ensures var r := Run(m, Stream(c, ops + [Select(font)], true)); r.failed || r.g.font == Some(font)
    decreases |ops|
  {
    hide Levels, Current, Next, Legal, Exec, Run;
    var all := ops + [Select(font)];
    if m.failed {
      RunFailed(m, Stream(c, all, true));
    } else {
      var a := Printed(c, all[0], true);
      if all[0].Inline? {
        InlineNext(c, all[0]);
      } else {
        StepSound(c, all[0], m, base);
      }
      RunConcat(m, a, Stream(Next(c, all[0]), all[1..], true));
      hide Printed;
      if ops == [] {
        assert all[1..] == [];
        RunNone(Run(m, a));
      } else {
        assert all[1..] == ops[1..] + [Select(font)];
        assert ops[0].Inline? && |ops| == 1 ==> all[1] == Select(font);
        assert ops[0].Inline? && |ops| > 1 ==> all[1] == ops[1];
        LastSelect(Next(c, ops[0]), ops[1..], font, Run(m, a), base);
      }
    }
  }

  // Behind a preamble every setfont is right exactly when the preamble leaves the font as it was.
  lemma PreambleFonts(c: Cache, cmds: seq<Cmd>, m: Machine, base: nat)
    requires Levels(c, m, base) && Current(c, m) && c.fonts != [] && !Run(m, cmds).failed
    ensures (forall f :: Run(m, Stream(c, [Inline(cmds), Select(f)], true)).g.font == Some(f)) <==>
      Run(m, cmds).g.font == m.g.font
  {
    var r, e := Run(m, cmds), c.fonts[0].font;
    forall f
      ensures Run(m, Stream(c, [Inline(cmds), Select(f)], true)).g.font == if f == e then r.g.font else Some(f)
    {
      SelectBehind(c, cmds, f, m);
    }
    assert Run(m, Stream(c, [Inline(cmds), Select(e)], true)).g.font == r.g.font;
  }

  lemma SelectBehind(c: Cache, cmds: seq<Cmd>, f: Font, m: Machine)
    requires |c.fonts| == 1 && !Run(m, cmds).failed
    ensures Run(m, Stream(c, [Inline(cmds), Select(f)], true)).g.font ==
      if f == c.fonts[0].font then Run(m, cmds).g.font else Some(f)
  {
    var r := Run(m, cmds);
    var a := Printed(c, Select(f), true);
    var ops := [Inline(cmds), Select(f)];
    assert ops[1..] == [Select(f)] && [Select(f)][1..] == [];
    assert Stream(c, [Select(f)], true) == a + [] == a;
    assert Stream(c, ops, true) == cmds + a;
    RunConcat(m, cmds, a);
    RunOne(r, SelectFont(f));
    RunNone(r);
    hide Run;
  }

  // A preamble that selects another font: the next setfont of the font that jgraph has selected
  // last prints nothing, and the interpreter keeps that of the preamble.
  lemma PreambleWitness(m: Machine, f: Font, g: Font)
    requires !m.failed && f != g
    ensures var ops := [Save, Select(f), Inline([SelectFont(g)]), Select(f)];
      LegalOps(FRESH, ops) && Run(m, Stream(FRESH, ops, true)).g.font == Some(g)
  {
    WitnessStream(f, g);
    var cs := [Gsave, SelectFont(f), SelectFont(g)];
    hide Stream, Next, LegalOps;
    assert cs == [] + [Gsave] + [SelectFont(f)] + [SelectFont(g)];
    RunMore(m, [] + [Gsave] + [SelectFont(f)], SelectFont(g));
    RunMore(m, [] + [Gsave], SelectFont(f));
    RunMore(m, [], Gsave);
    RunNone(m);
    hide Run;
  }

  lemma WitnessStream(f: Font, g: Font)
    requires f != g
    ensures var ops := [Save, Select(f), Inline([SelectFont(g)]), Select(f)];
      LegalOps(FRESH, ops) && Stream(FRESH, ops, true) == [Gsave, SelectFont(f), SelectFont(g)]
  {
    hide *;
    var c1, c2 := Cache(1, []), Cache(1, [Entry(1, f)]);
    var last := Inline([SelectFont(g)]);
    WitnessSteps(f, g);
    StreamStep(c2, Select(f), []);
    StreamStep(c2, last, [Select(f)]);
    StreamStep(c1, Select(f), [last, Select(f)]);
    StreamStep(FRESH, Save, [Select(f), last, Select(f)]);
    assert [Save] + [Select(f), last, Select(f)] == [Save, Select(f), last, Select(f)];
    assert [Select(f), last, Select(f)] == [Select(f)] + [last, Select(f)];
    assert [last, Select(f)] == [last] + [Select(f)] && [Select(f)] + [] == [Select(f)];
  }

  lemma WitnessSteps(f: Font, g: Font)
    requires f != g
    ensures var c1, c2 := Cache(1, []), Cache(1, [Entry(1, f)]); var last := Inline([SelectFont(g)]);
      && Next(FRESH, Save) == c1 && Next(c1, Select(f)) == c2 && Next(c2, last) == c2 && Next(c2, Select(f)) == c2
      && Legal(FRESH, Save) && Legal(c1, Select(f)) && Legal(c2, last) && Legal(c2, Select(f))
      && Printed(FRESH, Save, true) == [Gsave] && Printed(c1, Select(f), true) == [SelectFont(f)]
      && Printed(c2, last, true) == [SelectFont(g)] && Printed(c2, Select(f), true) == []
  {
  }

  lemma StreamStep(c: Cache, op: Op, ops: seq<Op>)
    ensures Stream(c, [op] + ops, true) == Printed(c, op, true) + Stream(Next(c, op), ops, true)
    ensures LegalOps(c, [op] + ops) <==> Legal(c, op) && LegalOps(Next(c, op), ops)
    ensures ops == [] ==> Stream(Next(c, op), ops, true) == [] && LegalOps(Next(c, op), ops)
  {
    assert ([op] + ops)[1..] == ops;
    hide Next, Legal, Printed;
  }

  // ----- the functions of printline.c -----

  class Printer {
    var level: int
    var fonts: seq<Entry>
    var out: seq<Cmd>

    constructor ()
      ensures Cache(level, fonts) == FRESH && out == []
    {
      level, fonts, out := -100, [], [];
    }

    // gsave, lines 95-103
    method GsaveCall()
      modifies this
      ensures Cache(level, fonts) == Next(Cache(old(level), old(fonts)), Save)
      ensures out == old(out) + Printed(Cache(old(level), old(fonts)), Save, true)
    {
      if level == -100 {
        level := 0;
        fonts := [];
      }
      level := level + 1;
      out := out + [Gsave];
    }

    // grestore, lines 105-118
    method GrestoreCall()
      requires level != -100
      modifies this
      ensures Cache(level, fonts) == Next(Cache(old(level), old(fonts)), Restore)
      ensures out == old(out) + Printed(Cache(old(level), old(fonts)), Restore, true)
    {
      if fonts != [] {
        var l := fonts[|fonts| - 1];
        if l.level == level {
          fonts := fonts[..|fonts| - 1];
        }
      }
      level := level - 1;
      out := out + [Grestore];
    }

    // setfont, lines 120-145
    method SetFont(f: Font)
      requires level != -100
      modifies this
      ensures Cache(level, fonts) == Next(Cache(old(level), old(fonts)), Select(f))
      ensures out == old(out) + Printed(Cache(old(level), old(fonts)), Select(f), true)
    {
      var ins := true;
      if fonts != [] {
        var l := fonts[|fonts| - 1];
        ins := l.font != f;
        if ins {
          fonts := fonts[..|fonts| - 1];
        }
      }
      if ins {
        fonts := fonts + [Entry(level, f)];
        out := out + [SelectFont(f)];
      }
    }
  }
}
