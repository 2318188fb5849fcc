/** Labels of several lines: process_label of tools/jgraph/process.c and print_label of
    tools/jgraph/printline.c cut the text at its newlines in place, and restore it. */
module LabelLines {
  import opened CStrings

  predicate OneLine(s: string) {
    '\n' !in s
  }

  function Lines(t: string): (ls: seq<string>)
    ensures |ls| > 0
  {
    if t == "" then [""]
    else
      var ls := Lines(t[1..]);
      if t[0] == '\n' then [""] + ls else [[t[0]] + ls[0]] + ls[1..]
  }

  function Together(ls: seq<string>): string
    requires ls != []
  {
    if |ls| == 1 then ls[0] else ls[0] + "\n" + Together(ls[1..])
  }

  function Newlines(t: string): nat {
    if t == "" then 0 else Newlines(t[1..]) + (if t[0] == '\n' then 1 else 0)
  }

  /** The lines are the text, cut at every newline, and nothing else is. */
  lemma {:induction false} LinesMean(t: string)
    ensures Together(Lines(t)) == t
    ensures forall i :: 0 <= i < |Lines(t)| ==> OneLine(Lines(t)[i])
    ensures |Lines(t)| == Newlines(t) + 1
  {
    if t != "" {
      LinesMean(t[1..]);
      var ls, ms := Lines(t[1..]), Lines(t);
      if t[0] == '\n' {
        assert ms[1..] == ls;
        assert "" + "\n" + t[1..] == t;
      } else {
        assert ms[1..] == ls[1..];
        assert Together(ms) == [t[0]] + Together(ls);
        assert [t[0]] + t[1..] == t;
      }
    }
  }

  lemma {:induction false} LinesUnique(ls: seq<string>)
    requires ls != [] && forall i :: 0 <= i < |ls| ==> OneLine(ls[i])
    ensures Lines(Together(ls)) == ls
    decreases |ls|, |ls[0]|
  {
    if ls[0] != "" {
      var ms := [ls[0][1..]] + ls[1..];
      assert OneLine(ms[0]);
      LinesUnique(ms);
      assert ms[1..] == ls[1..];
      var t := Together(ls);
      assert t[0] == ls[0][0] && t[1..] == Together(ms);
      assert t[0] in ls[0];
      assert [ls[0][0]] + ls[0][1..] == ls[0];
      assert ls == [ls[0]] + ls[1..];
    } else if |ls| == 1 {
      assert ls == [""];
    } else {
      LinesUnique(ls[1..]);
      var t := Together(ls);
      assert t[0] == '\n' && t[1..] == Together(ls[1..]);
      assert ls == [""] + ls[1..];
    }
  }

  // A buffer with a string: its first NUL is at n.
  predicate Holds(buf: seq<char>, t: string) {
    |t| < |buf| && buf[..|t|] == t && buf[|t|] == NUL && NUL !in t
  }

  // The text with a NUL in place of every newline.
  function Cut(t: string): (r: string)
    ensures |r| == |t|
  {
    seq(|t|, i requires 0 <= i < |t| => if t[i] == '\n' then NUL else t[i])
  }

  // strlen of the string at s.
  method StrLen(buf: array<char>, s: nat, ghost line: string) returns (f: nat)
    requires s + |line| < buf.Length && buf[s..s + |line|] == line && NUL !in line && buf[s + |line|] == NUL
    ensures f == |line|
  {
    assert forall k :: 0 <= k < |line| ==> line[k] in line;
    f := 0;
    while buf[s + f] != NUL
      invariant 0 <= f <= |line| && (f < |line| ==> buf[s + f] == line[f])
      decreases |line| - f
    {
      f := f + 1;
      assert f < |line| ==> buf[s..s + |line|][f] == line[f];
    }
  }

  // The first i characters are cut, the others as they were.
  ghost predicate CutTo(buf: seq<char>, whole: seq<char>, t: string, i: nat) {
    i <= |t| && Holds(whole, t) && buf == Cut(t)[..i] + whole[i..]
  }

  lemma CutNext(buf: seq<char>, whole: seq<char>, t: string, i: nat)
    requires CutTo(buf, whole, t, i)
    ensures i < |buf| == |whole| && (buf[i] == NUL <==> i == |t|)
    ensures i < |t| ==> buf[i] == t[i] && CutTo(if t[i] == '\n' then buf[i := NUL] else buf, whole, t, i + 1)
  {
    assert buf[i] == whole[i];
    if i < |t| {
      assert whole[..|t|][i] == t[i] && t[i] in t;
      var b := if t[i] == '\n' then buf[i := NUL] else buf;
      assert b == Cut(t)[..i + 1] + whole[i + 1..];
    }
  }

  lemma CutAll(buf: seq<char>, whole: seq<char>, t: string)
    requires CutTo(buf, whole, t, |t|)
    ensures buf == Cut(t) + whole[|t|..] && Newlines(t[|t|..]) == 0
  {
    assert Cut(t)[..|t|] == Cut(t);
  }

  lemma CutNone(whole: seq<char>, t: string)
    requires Holds(whole, t)
    ensures CutTo(whole, whole, t, 0) && t[0..] == t
  {
  }

  lemma NewlinesNext(t: string, i: nat)
    requires i < |t|
    ensures Newlines(t[i..]) == Newlines(t[i + 1..]) + (if t[i] == '\n' then 1 else 0)
  {
    assert t[i..][1..] == t[i + 1..];
  }

  // The loop that cuts the lines apart; its last pass reads the NUL at the end.
  method CutLines(buf: array<char>, ghost t: string) returns (nlines: nat)
    requires Holds(buf[..], t)
    modifies buf
    ensures nlines == Newlines(t)
    ensures buf[..] == Cut(t) + old(buf[..])[|t|..]
  {
    hide *;
    ghost var whole := buf[..];
    CutNone(whole, t);
    nlines := 0;
    var i := 0;
    CutNext(buf[..], whole, t, i);
    while buf[i] != NUL
      invariant 0 <= i <= |t| && i < buf.Length && CutTo(buf[..], whole, t, i)
      invariant buf[i] == NUL <==> i == |t|
      invariant nlines + Newlines(t[i..]) == Newlines(t)
      decreases |t| - i
    {
      ghost var before := buf[..];
      CutNext(before, whole, t, i);
      NewlinesNext(t, i);
      if buf[i] == '\n' {
        buf[i] := NUL;
        nlines := nlines + 1;
      }
      assert buf[..] == if t[i] == '\n' then before[i := NUL] else before;
      i := i + 1;
      CutNext(buf[..], whole, t, i);
    }
    CutAll(buf[..], whole, t);
  }

  // The lines from place s on are still cut, those before it are restored.
  ghost predicate Half(buf: seq<char>, t: string, rest: seq<char>, s: nat) {
    && s <= |t| && |buf| == |t| + |rest|
    && (forall k :: 0 <= k < |t| ==> buf[k] == if k >= s && t[k] == '\n' then NUL else t[k])
    && buf[|t|..] == rest
  }

  lemma {:induction false} FirstLine(t: string)
    ensures var l := Lines(t)[0];
      && |l| <= |t| && t[..|l|] == l
      && (|Lines(t)| == 1 ==> l == t)
      && (|Lines(t)| > 1 ==> |l| < |t| && t[|l|] == '\n' && Lines(t[|l| + 1..]) == Lines(t)[1..])
  {
    if t != "" && t[0] != '\n' {
      FirstLine(t[1..]);
      var l := Lines(t)[0];
      assert l == [t[0]] + Lines(t[1..])[0];
      assert t == [t[0]] + t[1..];
      if |Lines(t)| > 1 {
        assert t[1..][|l|..] == t[|l| + 1..];
      }
    }
  }

  // The first line of the text from s on.
  lemma LineAt(t: string, s: nat)
    requires s <= |t|
    ensures var f := |Lines(t[s..])[0]|;
      && s + f <= |t| && t[s..s + f] == Lines(t[s..])[0] && '\n' !in t[s..s + f]
      && (|Lines(t[s..])| == 1 ==> s + f == |t|)
      && (|Lines(t[s..])| > 1 ==> s + f < |t| && t[s + f] == '\n' && Lines(t[s + f + 1..]) == Lines(t[s..])[1..])
  {
    FirstLine(t[s..]);
    LinesMean(t[s..]);
    var l := Lines(t[s..])[0];
    assert OneLine(l);
    assert t[s..][..|l|] == t[s..s + |l|];
    if |Lines(t[s..])| > 1 {
      assert t[s..][|l| + 1..] == t[s + |l| + 1..];
    }
  }

  // In a half restored buffer the string at s is the first line of the rest.
  lemma NextLine(buf: seq<char>, t: string, rest: seq<char>, s: nat)
    requires Half(buf, t, rest, s) && NUL !in t && rest != [] && rest[0] == NUL
    ensures var l := Lines(t[s..])[0];
      s + |l| <= |t| && s + |l| < |buf| && buf[s..s + |l|] == l && NUL !in l && buf[s + |l|] == NUL
  {
    LineAt(t, s);
    hide Lines;
    var f := |Lines(t[s..])[0]|;
    assert forall k :: s <= k < s + f ==> t[s..s + f][k - s] == t[k] && t[k] in t[s..s + f];
    assert forall k :: s <= k < s + f ==> t[k] in t;
    assert buf[s..s + f] == t[s..s + f];
    assert buf[|t|] == buf[|t|..][0];
  }

  lemma Restored(b: seq<char>, t: string, rest: seq<char>, s: nat, f: nat)
    requires Half(b, t, rest, s) && s + f < |t| && t[s + f] == '\n'
    requires forall k :: s <= k < s + f ==> t[k] != '\n'
    ensures Half(b[s + f := '\n'], t, rest, s + f + 1)
  {
    assert b[s + f := '\n'][|t|..] == b[|t|..];
  }

  // Line i of the text stands at s, cut off like those behind it; behind the last line there is no other.
  ghost predicate Cutting(buf: seq<char>, t: string, rest: seq<char>, s: nat, i: nat) {
    && Half(buf, t, rest, s) && NUL !in t && rest != [] && rest[0] == NUL
    && i <= Newlines(t) + 1 == |Lines(t)|
    && Lines(t[s..]) == Lines(t)[if i <= Newlines(t) then i else Newlines(t)..]
  }

  lemma StartCutting(buf: seq<char>, t: string, rest: seq<char>)
    requires buf == Cut(t) + rest && NUL !in t && rest != [] && rest[0] == NUL
    ensures Cutting(buf, t, rest, 0, 0)
  {
    assert t[0..] == t;
    assert buf[|t|..] == rest;
    LinesMean(t);
    assert Lines(t)[0..] == Lines(t);
    hide Lines;
  }

  lemma CuttingLine(buf: seq<char>, t: string, rest: seq<char>, s: nat, i: nat)
    requires Cutting(buf, t, rest, s, i) && i <= Newlines(t)
    ensures i < |Lines(t)| && var l := Lines(t)[i];
      s + |l| < |buf| && buf[s..s + |l|] == l && NUL !in l && buf[s + |l|] == NUL
  {
    hide Half, Lines, Newlines;
    NextLine(buf, t, rest, s);
    assert Lines(t[s..])[0] == Lines(t)[i];
  }

  // Restoring the newline after that line.
  method Restore(buf: array<char>, s: nat, f: nat, ghost t: string, ghost rest: seq<char>, ghost i: nat)
    returns (next: nat)
    requires Cutting(buf[..], t, rest, s, i) && i < Newlines(t) && i < |Lines(t)| && f == |Lines(t)[i]|
    modifies buf
    ensures Cutting(buf[..], t, rest, next, i + 1)
  {
    CuttingLine(buf[..], t, rest, s, i);
    hide Lines, Half;
    InText(buf[..], t, rest, s);
    LineAt(t, s);
    ghost var b := buf[..];
    assert forall k :: s <= k < s + f ==> t[k] in t[s..s + f];
    assert Lines(t)[i..][1..] == Lines(t)[i + 1..];
    buf[s + f] := '\n';
    next := s + f + 1;
    assert buf[..] == b[s + f := '\n'];
    Restored(b, t, rest, s, f);
  }

  lemma CuttingLast(buf: seq<char>, t: string, rest: seq<char>, s: nat)
    requires Cutting(buf, t, rest, s, Newlines(t))
    ensures Cutting(buf, t, rest, s, Newlines(t) + 1)
  {
    hide Half, Lines, Newlines;
  }

  lemma LastRestored(buf: seq<char>, t: string, rest: seq<char>, s: nat)
    requires Half(buf, t, rest, s) && |Lines(t[s..])| == 1
    ensures buf == t + rest
  {
    LineAt(t, s);
    hide Lines;
    assert forall k :: s <= k < |t| ==> t[k] in t[s..|t|];
    assert buf == buf[..|t|] + buf[|t|..];
  }

  // After the last line everything is restored.
  lemma AllRestored(buf: seq<char>, t: string, rest: seq<char>, s: nat)
    requires Cutting(buf, t, rest, s, Newlines(t) + 1)
    ensures buf == t + rest && Lines(t)[..Newlines(t) + 1] == Lines(t)
  {
    hide Half, Lines, Newlines;
    InText(buf, t, rest, s);
    LastRestored(buf, t, rest, s);
  }

  lemma InText(buf: seq<char>, t: string, rest: seq<char>, s: nat)
    requires Half(buf, t, rest, s)
    ensures s <= |t|
  {
  }

  lemma Parts(buf: seq<char>, t: string)
    requires Holds(buf, t)
    ensures buf == t + buf[|t|..] && buf[|t|..] != [] && buf[|t|..][0] == NUL && NUL !in t
  {
  }

  function Longest(ls: seq<string>): nat {
    if ls == [] then 0
    else
      var m := Longest(ls[..|ls| - 1]);
      if |ls[|ls| - 1]| > m then |ls[|ls| - 1]| else m
  }

  // The longest line is one of the lines, and none is longer.
  lemma {:induction false} LongestMeans(ls: seq<string>)
    ensures forall l :: l in ls ==> |l| <= Longest(ls)
    ensures ls != [] ==> exists l :: l in ls && |l| == Longest(ls)
  {
    if ls != [] {
      var n := |ls| - 1;
      LongestMeans(ls[..n]);
      assert ls == ls[..n] + [ls[n]];
      if |ls[n]| > Longest(ls[..n]) || n == 0 {
        assert ls[n] in ls;
      } else {
        var l :| l in ls[..n] && |l| == Longest(ls[..n]);
        assert l in ls;
      }
    }
  }

  lemma LongestNext(ls: seq<string>, i: nat)
    requires i < |ls|
    ensures Longest(ls[..i + 1]) == if |ls[i]| > Longest(ls[..i]) then |ls[i]| else Longest(ls[..i])
  {
    assert ls[..i + 1][..i] == ls[..i];
  }

  // The width of a line of n characters, which is not taken if it is negative.
  function Width(unit: real, n: nat): real {
    if unit >= 0.0 then unit * n as real else 0.0
  }

  lemma Wider(unit: real, m: nat, n: nat)
    requires m <= n
    ensures unit >= 0.0 ==> unit * m as real <= unit * n as real
  {
    var d := (n - m) as real;
    assert unit * n as real == unit * m as real + unit * d;
  }

  // The maximum of the widths so far and the one of a line of n characters.
  method Widen(len: real, unit: real, n: nat, ghost longest: nat) returns (r: real)
    requires len == Width(unit, longest)
    ensures r == Width(unit, if n > longest then n else longest)
  {
    if n > longest {
      Wider(unit, longest, n);
    } else {
      Wider(unit, n, longest);
    }
    Narrow(unit, n);
    var tmp := unit * n as real;
    r := if len > tmp then len else tmp;
  }

  lemma Narrow(unit: real, n: nat)
    ensures unit < 0.0 ==> unit * n as real <= 0.0
  {
  }

  lemma NoWidth(unit: real)
    ensures Longest([]) == 0 && Width(unit, 0) == 0.0
  {
  }

  /** process_label: the number of newlines and the width of the longest line, at a fixed width for
      each character; the text is as before. */
  method ProcessLabel(buf: array<char>, unit: real, ghost t: string) returns (nlines: nat, len: real)
    requires Holds(buf[..], t)
    modifies buf
    ensures buf[..] == old(buf[..])
    ensures nlines == Newlines(t)
    ensures len == Width(unit, Longest(Lines(t)))
  {
    hide *;
    Parts(buf[..], t);
    ghost var rest := buf[..][|t|..];
    nlines := CutLines(buf, t);
    StartCutting(buf[..], t, rest);
    NoWidth(unit);
    len := 0.0;
    var s: nat := 0;
    assert Lines(t)[..0] == [];
    for i := 0 to nlines + 1
      invariant Cutting(buf[..], t, rest, s, i) && i <= |Lines(t)|
      invariant len == Width(unit, Longest(Lines(t)[..i]))
    {
      CuttingLine(buf[..], t, rest, s, i);
      var n := StrLen(buf, s, Lines(t)[i]);
      LongestNext(Lines(t), i);
      len := Widen(len, unit, n, Longest(Lines(t)[..i]));
      if i != nlines {
        var f := StrLen(buf, s, Lines(t)[i]);
        s := Restore(buf, s, f, t, rest, i);
      } else {
        CuttingLast(buf[..], t, rest, s);
      }
    }
    AllRestored(buf[..], t, rest, s);
  }

  /** print_label emits the lines of the text, in order, and leaves the text as before. */
  method PrintLabel(buf: array<char>, ghost t: string) returns (shown: seq<string>)
    requires Holds(buf[..], t)
    modifies buf
    ensures buf[..] == old(buf[..])
    ensures shown == Lines(t)
  {
    hide *;
    Parts(buf[..], t);
    ghost var rest := buf[..][|t|..];
    var nlines := CutLines(buf, t);
    StartCutting(buf[..], t, rest);
    shown := [];
    var s: nat := 0;
    for i := 0 to nlines + 1
      invariant Cutting(buf[..], t, rest, s, i) && i <= |Lines(t)| && shown == Lines(t)[..i]
    {
      CuttingLine(buf[..], t, rest, s, i);
      var f := StrLen(buf, s, Lines(t)[i]);
      shown := shown + [buf[s..s + f]];
      if i != nlines {
        s := Restore(buf, s, f, t, rest, i);
      } else {
        CuttingLast(buf[..], t, rest, s);
      }
    }
    AllRestored(buf[..], t, rest, s);
  }
}
