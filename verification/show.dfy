/** The printers of tools/jgraph/show.c and the readers of tools/jgraph/token.c that take
    their output back: multi-line strings and labels.  Strings hold no NUL. */
module ShowStrings {
  import opened CStrings
  import opened Options
  import opened TokenText

  // What show_mltiline prints of s in front of the final newline.
  function Shown(s: string): string {
    if s == "" then "" else (if s[0] == '\n' then "\\\n" else [s[0]]) + Shown(s[1..])
  }

  lemma ShownTail(s: string, i: nat)
    requires i < |s|
    ensures Shown(s[i..]) == (if s[i] == '\n' then "\\\n" else [s[i]]) + Shown(s[i + 1..])
  {
    assert s[i..][1..] == s[i + 1..];
  }

  lemma ShownEnd(s: string)
    ensures Shown(s[|s|..]) == ""
  {
  }

  method ShowMltiline(s: string) returns (out: string)
    ensures out == Shown(s) + "\n"
  {
    hide Shown;
    out := "";
    var i := 0;
    assert s[0..] == s;
    while i < |s|
      invariant 0 <= i <= |s|
      invariant out + Shown(s[i..]) == Shown(s)
    {
      ShownTail(s, i);
      ghost var was, c := out, if s[i] == '\n' then "\\\n" else [s[i]];
      if s[i] == '\n' { out := out + ['\\']; }
      out := out + [s[i]];
      assert out == was + c;
      assert out + Shown(s[i + 1..]) == was + (c + Shown(s[i + 1..]));
      i := i + 1;
    }
    ShownEnd(s);
    out := out + ['\n'];
  }

  predicate Special(c: char) {
    c == '\\' || c == ')' || c == '('
  }

  // A label as it is stored: ready to stand in parentheses in PostScript.
  function Printable(s: string): string {
    if s == "" then "" else Escape(s[0]) + Printable(s[1..])
  }

  function Specials(s: string): nat {
    if s == "" then 0 else (if Special(s[0]) then 1 else 0) + Specials(s[1..])
  }

  lemma {:induction false} PrintableLength(s: string)
    ensures |Printable(s)| == |s| + Specials(s)
  {
    if s != "" { PrintableLength(s[1..]); }
  }

  function Escape(c: char): string {
    if Special(c) then ['\\', c] else [c]
  }

  lemma {:induction false} PrintableNext(s: string, i: nat)
    requires i < |s|
    ensures Printable(s[..i + 1]) == Printable(s[..i]) + Escape(s[i])
    ensures Specials(s[..i + 1]) == Specials(s[..i]) + (if Special(s[i]) then 1 else 0)
  {
    var t := s[1..];
    if i == 0 {
      assert s[..1][1..] == "";
    } else {
      PrintableNext(t, i - 1);
      assert s[..i + 1][1..] == t[..i] && s[..i][1..] == t[..i - 1];
    }
  }

  // The first loop of new_printable_text: the chars that need a backslash.
  method CountSpecials(s: string) returns (pad: nat)
    ensures pad == Specials(s)
  {
    pad := 0;
    var i := 0;
    while i < |s|
      invariant 0 <= i <= |s| && pad == Specials(s[..i])
    {
      PrintableNext(s, i);
      if s[i] == '\\' || s[i] == ')' || s[i] == '(' { pad := pad + 1; }
      i := i + 1;
    }
    assert s[..|s|] == s;
  }

  lemma EscapeIs(c: char)
    ensures Escape(c) == if c == '\\' || c == ')' || c == '(' then ['\\', c] else [c]
  {
  }

  lemma NothingPrinted(s: string)
    ensures Printable(s[..0]) == ""
  {
  }

  // new_printable_text: the buffer is large enough for the text and its NUL.
  method NewPrintableText(s: string) returns (a: array<char>)
    ensures fresh(a) && a.Length % 8 == 0
    ensures |Printable(s)| < a.Length && a[..|Printable(s)|] == Printable(s) && a[|Printable(s)|] == NUL
  {
    hide *;
    var pad := CountSpecials(s);
    PrintableLength(s);
    var j := |s| + pad + 2;
    if j % 8 != 0 { j := j + 8 - j % 8; }
    a := new char[j](_ => NUL);
    j := 0;
    var i := 0;
    NothingPrinted(s);
    while i < |s|
      invariant 0 <= i <= |s| && j == |Printable(s[..i])|
      invariant j <= |Printable(s)| < a.Length
      invariant a[..j] == Printable(s[..i])
    {
      PrintableNext(s, i);
      PrintablePrefix(s, i + 1);
      EscapeIs(s[i]);
      ghost var from := j;
      if s[i] == '\\' || s[i] == ')' || s[i] == '(' {
        a[j] := '\\';
        j := j + 1;
      }
      a[j] := s[i];
      j := j + 1;
      assert a[from..j] == Escape(s[i]);
      assert a[..j] == a[..from] + a[from..j];
      i := i + 1;
    }
    assert s[..|s|] == s;
    a[j] := NUL;
  }

  lemma {:induction false} PrintablePrefix(s: string, i: nat)
    requires i <= |s|
    ensures |Printable(s[..i])| <= |Printable(s)|
    decreases |s| - i
  {
    if i < |s| {
      PrintableNext(s, i);
      PrintablePrefix(s, i + 1);
    } else {
      assert s[..i] == s;
    }
  }

  // Every backslash of a label stands in front of a special char.
  predicate Escaped(l: string) {
    l == "" ||
    if l[0] == '\\' then |l| > 1 && Special(l[1]) && Escaped(l[2..]) else Escaped(l[1..])
  }

  // What show_string prints of a label behind the colon.
  function ShownLabel(l: string): string
    requires Escaped(l)
  {
    if l == "" then ""
    else if l[0] == '\n' then "\\\n" + ShownLabel(l[1..])
    else if l[0] == '\\' then [l[1]] + ShownLabel(l[2..])
    else [l[0]] + ShownLabel(l[1..])
  }

  // One turn of the loop of show_string: a backslash is passed over.
  lemma LabelTail(l: string, i: nat)
    requires i < |l| && Escaped(l[i..])
    ensures l[i] == '\\' ==>
      && i + 1 < |l| && l[i + 1] != '\n' && Escaped(l[i + 2..])
      && ShownLabel(l[i..]) == [l[i + 1]] + ShownLabel(l[i + 2..])
    ensures l[i] != '\\' ==>
      && Escaped(l[i + 1..])
      && ShownLabel(l[i..]) == (if l[i] == '\n' then "\\\n" else [l[i]]) + ShownLabel(l[i + 1..])
  {
    var t := l[i..];
    assert t[1..] == l[i + 1..];
    if l[i] == '\\' { assert t[2..] == l[i + 2..]; }
  }

  lemma NoLabel()
    ensures ShownLabel("") == ""
  {
  }

  method ShowString(l: string) returns (out: string)
    requires Escaped(l)
    ensures out == ": " + ShownLabel(l) + "\n"
  {
    out := ": ";
    var i := 0;
    hide ShownLabel, Escaped;
    while i < |l|
      invariant 0 <= i <= |l| && Escaped(l[i..])
      invariant out + ShownLabel(l[i..]) == ": " + ShownLabel(l)
    {
      LabelTail(l, i);
      ghost var was, from := out, i;
      if l[i] == '\n' { out := out + ['\\']; }
      if l[i] == '\\' { i := i + 1; }
      out := out + [l[i]];
      ghost var c := if l[from] == '\n' then "\\\n" else [l[i]];
      assert out == was + c;
      assert was + (c + ShownLabel(l[i + 1..])) == out + ShownLabel(l[i + 1..]);
      i := i + 1;
    }
    assert l[|l|..] == "";
    NoLabel();
    out := out + ['\n'];
  }

  // show_string takes back what new_printable_text did, and prints what show_mltiline prints.
  lemma {:induction false} LabelsShown(s: string)
    ensures Escaped(Printable(s)) && ShownLabel(Printable(s)) == Shown(s)
  {
    if s != "" {
      LabelsShown(s[1..]);
      var p, q := Printable(s), Printable(s[1..]);
      if Special(s[0]) {
        assert p == ['\\', s[0]] + q && p[2..] == q;
      } else {
        assert p == [s[0]] + q && p[1..] == q;
      }
    }
  }

  // ----- reading back -----

  lemma {:induction false} JoinedKeeps(acc: string, t: string)
    requires !EndsInBackslash(acc)
    ensures acc <= Joined(acc, t).0
    decreases |t|
  {
    hide Joined, Line;
    JoinOnce(acc, t);
    var s, rest := acc + Line(t), t[|Line(t)|..];
    if rest != "" && EndsInBackslash(s) {
      JoinedKeeps(s[..|s| - 1] + "\n", rest[1..]);
    }
  }

  lemma ShownMore(s: string)
    requires s != "" && s[0] != '\n'
    ensures Line(s) == [s[0]] + Line(s[1..]) && Shown(s) == [s[0]] + Shown(s[1..])
  {
  }

  lemma {:induction false} ShownLine(s: string)
    ensures var line := Line(s);
      if |line| == |s| then Shown(s) == s
      else Shown(s) == line + "\\\n" + Shown(s[|line| + 1..])
  {
    if s == "" || s[0] == '\n' {
    } else {
      var t := s[1..];
      ShownLine(t);
      ShownMore(s);
      hide Shown, Line;
      var n := |Line(t)|;
      if n < |t| {
        assert s[n + 2..] == t[n + 1..];
        assert Shown(s) == [s[0]] + (Line(t) + "\\\n" + Shown(t[n + 1..]));
      }
    }
  }

  lemma {:induction false} LineOf(a: string, b: string)
    requires '\n' !in a
    ensures Line(a + "\n" + b) == a
  {
    if a != "" {
      assert a[0] in a && forall c :: c in a[1..] ==> c in a;
      LineOf(a[1..], b);
      assert (a + "\n" + b)[1..] == a[1..] + "\n" + b;
    }
  }

  // What the reader makes of a shown string depends on whether that ends in a backslash.
  lemma {:induction false} ReadShown(acc: string, s: string, tail: string)
    requires !EndsInBackslash(acc)
    ensures Joined(acc, Shown(s) + "\n" + tail).0 == acc + s <==> !EndsInBackslash(s)
    ensures !EndsInBackslash(s) ==> Joined(acc, Shown(s) + "\n" + tail).1 == "\n" + tail
    decreases |s|
  {
    hide Joined, Line, Shown;
    var line := Line(s);
    var t := Shown(s) + "\n" + tail;
    ShownLine(s);
    if |line| < |s| {
      var s2 := s[|line| + 1..];
      var t2 := Shown(s2) + "\n" + tail;
      ReadContinued(acc, line, t2);
      assert t == line + "\\" + "\n" + t2;
      ReadShown(acc + line + "\n", s2, tail);
      assert s == line + "\n" + s2;
      assert acc + s == acc + line + "\n" + s2;
      assert EndsInBackslash(s) <==> EndsInBackslash(s2);
    } else {
      ReadLast(acc, s, tail);
    }
  }

  lemma ReadContinued(acc: string, line: string, t: string)
    requires '\n' !in line
    ensures Joined(acc, line + "\\" + "\n" + t) == Joined(acc + line + "\n", t)
  {
    hide Line;
    var u := line + "\\" + "\n" + t;
    LineOf(line + "\\", t);
    assert Line(u) == line + "\\" && u[|line| + 1..] == "\n" + t;
    assert (acc + (line + "\\"))[..|acc| + |line|] == acc + line;
    assert u[|line| + 1..][1..] == t;
  }

  lemma ReadLast(acc: string, s: string, tail: string)
    requires '\n' !in s && !EndsInBackslash(acc)
    ensures Joined(acc, s + "\n" + tail).0 == acc + s <==> !EndsInBackslash(s)
    ensures !EndsInBackslash(s) ==> Joined(acc, s + "\n" + tail).1 == "\n" + tail
  {
    hide Joined, Line;
    var u := s + "\n" + tail;
    LineOf(s, tail);
    JoinOnce(acc, u);
    assert u[|s|..] == "\n" + tail && ("\n" + tail)[1..] == tail;
    if EndsInBackslash(s) {
      var n := |acc + s| - 1;
      var acc' := (acc + s)[..n] + "\n";
      JoinedKeeps(acc', tail);
      var r := Joined(acc, u).0;
      assert acc'[n] == '\n' && (acc + s)[n] == '\\' && r[n] == acc'[n];
    } else {
      assert !EndsInBackslash(acc + s);
    }
  }

  // Reading a shown string gives the string back exactly when it does not end in a backslash;
  // skipped is the one char that getmultiline drops.
  lemma RoundTrip(skipped: char, s: string, tail: string)
    ensures var (r, rest) := MultiLine([skipped] + (Shown(s) + "\n" + tail));
      && (r == Some(s) <==> !EndsInBackslash(s))
      && (!EndsInBackslash(s) ==> rest == "\n" + tail)
  {
    var t := Shown(s) + "\n" + tail;
    assert ([skipped] + t)[1..] == t;
    ReadShown("", s, tail);
    assert "" + s == s;
  }

  // A printable text stands for one text only.
  lemma {:induction false} PrintableInjective(s: string, t: string)
    requires Printable(s) == Printable(t)
    ensures s == t
  {
    if s != "" && t != "" {
      PrintableHead(s, t);
      PrintableInjective(s[1..], t[1..]);
      assert s == [s[0]] + s[1..] && t == [t[0]] + t[1..];
    }
  }

  lemma PrintableHead(s: string, t: string)
    requires s != "" && t != "" && Printable(s) == Printable(t)
    ensures s[0] == t[0] && Printable(s[1..]) == Printable(t[1..])
  {
    var p, q := Printable(s[1..]), Printable(t[1..]);
    var a, b := Escape(s[0]), Escape(t[0]);
    assert a + p == b + q;
    hide Printable;
    assert (a + p)[0] == (b + q)[0];
    assert |a| == |b|;
    assert a == (a + p)[..|a|] && b == (b + q)[..|b|];
    assert p == (a + p)[|a|..] && q == (b + q)[|b|..];
  }

  // ----- any text -----

  lemma {:induction false} ReadEnd(acc: string, s: string)
    requires !EndsInBackslash(acc)
    ensures Joined(acc, Shown(s)) == (acc + s, "")
    decreases |s|
  {
    hide Joined, Line, Shown;
    var line := Line(s);
    ShownLine(s);
    if |line| < |s| {
      var s2 := s[|line| + 1..];
      ReadContinued(acc, line, Shown(s2));
      assert line + "\\\n" + Shown(s2) == line + "\\" + "\n" + Shown(s2);
      ReadEnd(acc + line + "\n", s2);
      assert s == line + "\n" + s2;
      assert acc + s == acc + line + "\n" + s2;
    } else {
      NoBreak(s);
      JoinOnce(acc, s);
    }
  }

  lemma {:induction false} NoBreak(s: string)
    requires '\n' !in s
    ensures Line(s) == s
  {
    if s != "" { NoBreak(s[1..]); }
  }

  /** What getmultiline reads from any text: the one whose shown form ends in front of the first newline
      without a backslash, or with the text if there is none. */
  lemma AnyText(skipped: char, t: string) returns (s: string, tail: string)
    ensures (t == Shown(s) && MultiLine([skipped] + t) == (Some(s), ""))
      || (t == Shown(s) + "\n" + tail && !EndsInBackslash(s) && MultiLine([skipped] + t) == (Some(s), "\n" + tail))
  {
    hide Joined, Line, Shown;
    var ended;
    s, tail, ended := Unshown(t);
    assert ([skipped] + t)[1..] == t;
    if ended {
      RoundTrip(skipped, s, tail);
    } else {
      ReadEnd("", s);
      assert "" + s == s;
      assert MultiLine([skipped] + t) == (Some(s), "");
    }
  }

  // Every text shows one up to its first newline without a backslash.
  lemma {:induction false} Unshown(t: string) returns (s: string, tail: string, ended: bool)
    ensures ended ==> t == Shown(s) + "\n" + tail && !EndsInBackslash(s)
    ensures !ended ==> t == Shown(s)
    decreases |t|
  {
    hide Line, Shown;
    var line := Line(t);
    tail := "";
    if |line| == |t| {
      s, ended := t, false;
      NoBreak(t);
      ShownLine(t);
    } else if EndsInBackslash(line) {
      var head, t2 := line[..|line| - 1], t[|line| + 1..];
      assert t == head + "\\\n" + t2;
      var s2;
      s2, tail, ended := Unshown(t2);
      s := head + "\n" + s2;
      forall c | c in head
        ensures c in line
      {
      }
      LineOf(head, s2);
      ShownLine(s);
      assert s[|head| + 1..] == s2;
    } else {
      s, tail, ended := line, t[|line| + 1..], true;
      NoBreak(line);
      ShownLine(line);
    }
  }

  // ----- what PostScript reads -----

  predicate Octal(c: char) {
    '0' <= c <= '7'
  }

  // The digits of an octal escape, three at most.
  function OctalDigits(t: string, n: nat): (k: nat)
    ensures k <= n && k <= |t|
  {
    if n == 0 || t == "" || !Octal(t[0]) then 0 else 1 + OctalDigits(t[1..], n - 1)
  }

  function OctalValue(t: string): (v: nat)
    requires forall c :: c in t ==> Octal(c)
  {
    if t == "" then 0
    else
      var c := t[|t| - 1];
      assert c in t && Octal(c);
      OctalValue(t[..|t| - 1]) * 8 + (c as int - '0' as int)
  }

  lemma {:induction false} DigitsOctal(t: string, n: nat)
    ensures forall c :: c in t[..OctalDigits(t, n)] ==> Octal(c)
  {
    if n > 0 && t != "" && Octal(t[0]) {
      DigitsOctal(t[1..], n - 1);
      var k := OctalDigits(t[1..], n - 1);
      assert t[..k + 1] == [t[0]] + t[1..][..k];
    }
  }

  // What the chars behind a backslash stand for, and how many of them there are: section 3.2.2 of the
  // PostScript Language Reference.
  function Escaping(t: string): (r: (string, nat))
    requires t != ""
    ensures 0 < r.1 <= |t|
  {
    var c := t[0];
    if c == 'n' then ("\n", 1)
    else if c == 'r' then ("\r", 1)
    else if c == 't' then ("\t", 1)
    else if c == 'b' then ([8 as char], 1)
    else if c == 'f' then ([12 as char], 1)
    else if c == '\n' then ("", 1)
    else if c == '\r' then ("", if |t| > 1 && t[1] == '\n' then 2 else 1)
    else if Octal(c) then
      DigitsOctal(t, 3);
      var k := OctalDigits(t, 3);
      ([(OctalValue(t[..k]) % 256) as char], k)
    else ([c], 1)
  }

  function Put(c: string, r: Option<(string, string)>): Option<(string, string)> {
    if r.None? then None else Some((c + r.value.0, r.value.1))
  }

  // The string that begins behind its opening parenthesis, and the text behind its closing one;
  // depth is the number of further parentheses that are open.
  function Literal(t: string, depth: nat): Option<(string, string)>
    decreases |t|
  {
    if t == "" then None
    else if t[0] == ')' then if depth == 0 then Some(("", t[1..])) else Put(")", Literal(t[1..], depth - 1))
    else if t[0] == '(' then Put("(", Literal(t[1..], depth + 1))
    else if t[0] == '\\' then
      if |t| == 1 then None else var (c, n) := Escaping(t[1..]); Put(c, Literal(t[1 + n..], depth))
    else if t[0] == '\r' then Put("\n", Literal(t[if |t| > 1 && t[1] == '\n' then 2 else 1..], depth))
    else Put([t[0]], Literal(t[1..], depth))
  }

  // Every end of a line is read as a newline.
  function Newlines(s: string): string
    decreases |s|
  {
    if s == "" then ""
    else if s[0] == '\r' then "\n" + Newlines(s[if |s| > 1 && s[1] == '\n' then 2 else 1..])
    else [s[0]] + Newlines(s[1..])
  }

  lemma {:induction false} NewlinesSame(s: string)
    ensures '\r' !in Newlines(s) && (Newlines(s) == s <==> '\r' !in s)
    decreases |s|
  {
    if s != "" {
      if s[0] == '\r' {
        NewlinesSame(s[if |s| > 1 && s[1] == '\n' then 2 else 1..]);
      } else {
        NewlinesSame(s[1..]);
        var r := Newlines(s[1..]);
        assert s == [s[0]] + s[1..];
        assert ([s[0]] + r)[1..] == r;
      }
    }
  }

  /** Between parentheses PostScript reads a printable text as the text itself, whatever follows, but
      for ends of lines. */
  lemma {:induction false} PrintableRead(s: string, rest: string)
    ensures Literal(Printable(s) + ")" + rest, 0) == Some((Newlines(s), rest))
    ensures Newlines(s) == s <==> '\r' !in s
    decreases |s|
  {
    hide *;
    NewlinesSame(s);
    if s == "" {
      ReadsNone(rest);
    } else {
      var n := if s[0] == '\r' && |s| > 1 && s[1] == '\n' then 2 else 1;
      var t := Printable(s[n..]) + ")" + rest;
      PrintableRead(s[n..], rest);
      PrintableFirst(s[n..], ")" + rest);
      assert t == Printable(s[n..]) + (")" + rest);
      ReadsOne(s, n, t, rest);
      PrintableSplit(s, n);
      assert Printable(s) + ")" + rest == PrintableOf(s, n) + t;
    }
  }

  lemma ReadsNone(rest: string)
    ensures Literal(Printable("") + ")" + rest, 0) == Some((Newlines(""), rest))
  {
    assert Printable("") + ")" + rest == ")" + rest && (")" + rest)[1..] == rest;
  }

  // A printable text begins with a newline only if the text itself does.
  lemma PrintableFirst(s: string, t: string)
    requires t != "" && t[0] != '\n'
    ensures var u := Printable(s) + t; u != "" && (u[0] == '\n' ==> s != "" && s[0] == '\n')
  {
  }

  function PrintableOf(s: string, n: nat): string
    requires 0 < n <= 2 && n <= |s|
  {
    if n == 1 then Escape(s[0]) else Escape(s[0]) + Escape(s[1])
  }

  lemma PrintableSplit(s: string, n: nat)
    requires 0 < n <= 2 && n <= |s|
    ensures Printable(s) == PrintableOf(s, n) + Printable(s[n..])
  {
    hide *;
    PrintableHere(s);
    PrintableOfIs(s, n);
    if n == 2 {
      PrintableHere(s[1..]);
      assert s[1..][1..] == s[2..];
      Associates(Escape(s[0]), Escape(s[1]), Printable(s[2..]));
    }
  }

  lemma Associates(a: string, b: string, c: string)
    ensures a + (b + c) == a + b + c
  {
  }

  lemma PrintableOfIs(s: string, n: nat)
    requires 0 < n <= 2 && n <= |s|
    ensures PrintableOf(s, n) == if n == 1 then Escape(s[0]) else Escape(s[0]) + Escape(s[1])
  {
  }

  lemma PrintableHere(s: string)
    requires s != ""
    ensures Printable(s) == Escape(s[0]) + Printable(s[1..])
  {
  }

  lemma ReadsOne(s: string, n: nat, t: string, rest: string)
    requires s != "" && n == if s[0] == '\r' && |s| > 1 && s[1] == '\n' then 2 else 1
    requires Literal(t, 0) == Some((Newlines(s[n..]), rest))
    requires s[0] == '\r' && n == 1 ==> t == "" || t[0] != '\n'
    ensures Literal(PrintableOf(s, n) + t, 0) == Some((Newlines(s), rest))
  {
    var u := PrintableOf(s, n) + t;
    if Special(s[0]) {
      assert u == ['\\', s[0]] + t;
      assert u[1..] == [s[0]] + t && u[1..][0] == s[0] && u[2..] == t;
      assert Escaping(u[1..]) == ([s[0]], 1);
    } else if n == 2 {
      assert u == "\r\n" + t && u[2..] == t;
    } else {
      assert u == [s[0]] + t && u[1..] == t;
    }
  }

  // getlabel
  function GetLabel(t: string): (Option<string>, string) {
    var (s, rest) := MultiLine(t);
    (if s.Some? then Some(Printable(s.value)) else None, rest)
  }

  lemma GetLabelMeans(t: string)
    ensures var (r, rest) := MultiLine(t);
      GetLabel(t) == (if r.Some? then Some(Printable(r.value)) else None, rest)
  {
  }

  lemma ReadLabel(skipped: char, s: string, tail: string)
    ensures var (l, rest) := GetLabel([skipped] + (Shown(s) + "\n" + tail));
      && (l == Some(Printable(s)) <==> !EndsInBackslash(s))
      && (!EndsInBackslash(s) ==> rest == "\n" + tail)
  {
    hide *;
    var t := [skipped] + (Shown(s) + "\n" + tail);
    RoundTrip(skipped, s, tail);
    GetLabelMeans(t);
    var read := MultiLine(t).0;
    if read.Some? && Printable(read.value) == Printable(s) {
      PrintableInjective(read.value, s);
    }
  }

  lemma ColonToken(t: string)
    ensures Token(": " + t) == (":", [' '] + t)
  {
    hide Token;
    var text := ": " + t;
    assert text[0] == ':' && text[1] == ' ' && text[1..] == [' '] + t && text[0..1] == ":";
    TokenIs(text, 0, 1);
  }

  // getlabel of what show_string prints of a label is the same label again, exactly when its text
  // does not end in a backslash.
  lemma LabelRoundTrip(s: string, tail: string)
    ensures Escaped(Printable(s))
    ensures var text := ": " + ShownLabel(Printable(s)) + "\n" + tail;
      var (tok, behind) := Token(text);
      var (l, rest) := GetLabel(behind);
      && tok == ":"
      && (l == Some(Printable(s)) <==> !EndsInBackslash(s))
      && (!EndsInBackslash(s) ==> rest == "\n" + tail)
  {
    hide *;
    LabelsShown(s);
    var t := Shown(s) + "\n" + tail;
    assert ": " + Shown(s) + "\n" + tail == ": " + t;
    ColonToken(t);
    ReadLabel(' ', s, tail);
  }
}
