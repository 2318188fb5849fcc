/** How tools/jgraph/token.c cuts a text into tokens and skips comments, as functions
    on the text that is still to be read. */
module TokenText {
  import opened CStrings
  import opened Options

  // The char that getc yields at the end of a file; a file with this byte ends there.
  const EOF: char := 255 as char

  predicate White(c: char) {
    c == ' ' || c == '\t' || c == '\n'
  }

  // The part of s that can be read.
  function Readable(s: string): (r: string)
    ensures |r| <= |s| && r == s[..|r|] && EOF !in r
    ensures |r| < |s| ==> s[|r|] == EOF
  {
    if s == "" || s[0] == EOF then "" else [s[0]] + Readable(s[1..])
  }

  function Blanks(t: string): (n: nat)
    ensures n <= |t|
    ensures forall i :: 0 <= i < n ==> White(t[i])
    ensures n < |t| ==> !White(t[n])
  {
    if t == "" || !White(t[0]) then 0 else 1 + Blanks(t[1..])
  }

  function Solid(t: string): (n: nat)
    ensures n <= |t|
    ensures forall i :: 0 <= i < n ==> !White(t[i])
    ensures n < |t| ==> White(t[n])
  {
    if t == "" || White(t[0]) then 0 else 1 + Solid(t[1..])
  }

  // gettoken: the next token, empty at the end, and the text behind it, which begins
  // with the white space that ended the token.
  function Token(t: string): (r: (string, string))
    ensures |r.0| + |r.1| <= |t|
    ensures r.0 == "" ==> r.1 == ""
    ensures r.1 != "" ==> White(r.1[0])
    ensures EOF !in t ==> EOF !in r.0 && EOF !in r.1
  {
    var w := t[Blanks(t)..];
    var n := Solid(w);
    assert forall c :: c in w ==> c in t;
    (w[..n], w[n..])
  }

  lemma TokenIs(t: string, m: nat, n: nat)
    requires m <= n <= |t| && (forall i :: 0 <= i < m ==> White(t[i])) && (forall i :: m <= i < n ==> !White(t[i]))
    requires m < n <= |t| && (n < |t| ==> White(t[n]))
    ensures Token(t) == (t[m..n], t[n..])
  {
    BlanksAre(t, m);
    SolidIs(t[m..], n - m);
    assert t[m..][..n - m] == t[m..n] && t[m..][n - m..] == t[n..];
  }

  lemma {:induction false} BlanksAre(t: string, m: nat)
    requires m <= |t| && (forall i :: 0 <= i < m ==> White(t[i])) && (m < |t| ==> !White(t[m]))
    ensures Blanks(t) == m
  {
    if m > 0 {
      BlanksAre(t[1..], m - 1);
    }
  }

  lemma {:induction false} SolidIs(t: string, n: nat)
    requires n <= |t| && (forall i :: 0 <= i < n ==> !White(t[i])) && (n < |t| ==> White(t[n]))
    ensures Solid(t) == n
  {
    if n > 0 {
      SolidIs(t[1..], n - 1);
    }
  }

  // get_comment: the text behind the comment that has just begun.
  function AfterComment(t: string): (r: string)
    ensures |r| <= |t|
    ensures EOF !in t ==> EOF !in r
    decreases |t|
  {
    var (tok, rest) := Token(t);
    if tok == "" then rest
    else if CString(tok) == "(*" then AfterComment(AfterComment(rest))
    else if CString(tok) == "*)" then rest
    else AfterComment(rest)
  }

  // ----- comments, counted -----

  // All tokens of a text.
  function Words(t: string): seq<string>
    decreases |t|
  {
    var (tok, rest) := Token(t);
    if tok == "" then [] else [CString(tok)] + Words(rest)
  }

  // What is left of a list of tokens once depth open comments are closed.
  function Close(ws: seq<string>, depth: nat): seq<string> {
    if depth == 0 || ws == [] then ws
    else if ws[0] == "(*" then Close(ws[1..], depth + 1)
    else if ws[0] == "*)" then Close(ws[1..], depth - 1)
    else Close(ws[1..], depth)
  }

  lemma {:induction false} CloseTwice(ws: seq<string>, a: nat, b: nat)
    ensures Close(ws, a + b) == Close(Close(ws, a), b)
    decreases |ws|
  {
    if a > 0 && ws != [] {
      if ws[0] == "(*" {
        CloseTwice(ws[1..], a + 1, b);
      } else if ws[0] == "*)" {
        CloseTwice(ws[1..], a - 1, b);
      } else {
        CloseTwice(ws[1..], a, b);
      }
    }
  }

  // The recursive descent of get_comment skips exactly what a counter of open comments
  // skips; a comment that is never closed swallows the rest.
  lemma {:induction false} CommentsNest(t: string)
    ensures Words(AfterComment(t)) == Close(Words(t), 1)
    decreases |t|
  {
    hide Token, CString, Blanks, Solid;
    var (tok, rest) := Token(t);
    if tok == "" {
      NoWords();
    } else {
      var w, ws := CString(tok), Words(rest);
      assert Words(t) == [w] + ws && ([w] + ws)[1..] == ws;
      if w == "(*" {
        CommentsNest(rest);
        CommentsNest(AfterComment(rest));
        CloseTwice(ws, 1, 1);
      } else if w != "*)" {
        CommentsNest(rest);
      }
    }
  }

  lemma NoWords()
    ensures Words("") == []
  {
  }

  // ----- the strings behind a colon -----

  function Line(t: string): (r: string)
    ensures |r| <= |t| && r == t[..|r|] && '\n' !in r
    ensures |r| < |t| ==> t[|r|] == '\n'
  {
    if t == "" || t[0] == '\n' then "" else [t[0]] + Line(t[1..])
  }

  predicate EndsInBackslash(s: string) {
    s != "" && s[|s| - 1] == '\\'
  }

  // The lines that follow acc, joined as long as the last char before a newline is a backslash.
  function Joined(acc: string, t: string): (r: (string, string))
    ensures EOF !in t ==> EOF !in r.1
    decreases |t|
  {
    var line := Line(t);
    var s := acc + line;
    var rest := t[|line|..];
    assert forall c :: c in rest ==> c in t;
    if rest != "" && EndsInBackslash(s) then Joined(s[..|s| - 1] + "\n", rest[1..]) else (s, rest)
  }

  lemma JoinOnce(acc: string, t: string)
    ensures var s := acc + Line(t); var rest := t[|Line(t)|..];
      Joined(acc, t) == if rest != "" && EndsInBackslash(s) then Joined(s[..|s| - 1] + "\n", rest[1..]) else (s, rest)
  {
  }

  // getmultiline: nothing at the end of the text; otherwise one char is skipped.
  function MultiLine(t: string): (r: (Option<string>, string))
    ensures EOF !in t ==> EOF !in r.1
  {
    if t == "" then (None, t)
    else
      assert forall c :: c in t[1..] ==> c in t;
      var (s, rest) := Joined("", t[1..]); (Some(s), rest)
  }

  // getsystemstring keeps the backslashes and the newlines behind them.
  function SystemLines(acc: string, t: string): (r: (string, string))
    ensures EOF !in t ==> EOF !in r.1
    ensures |r.1| <= |t|
    decreases |t|
  {
    var line := Line(t);
    var s := acc + line;
    var rest := t[|line|..];
    assert forall c :: c in rest ==> c in t;
    if rest != "" && EndsInBackslash(s) then SystemLines(s + "\n", rest[1..]) else (s, rest)
  }
}
