/** The token reader of tools/jgraph/token.c: one char and one token can be pushed back, and
    open streams wait on a stack while an included one is read. */
module TokenReader {
  import opened CStrings
  import opened Options
  import opened TokenText
  import opened TokenMachine
  import opened ShowStrings
  import TokenRuns

  // struct iostack; the stream is None (NULL) while the file has not been opened yet.
  datatype Iostack = Iostack(stream: Option<string>, filename: string, oldchar: char, oldcharvalid: bool)

  // What can still be read from a stream with a pushed-back char.
  function Left(oldchar: char, oldcharvalid: bool, stream: string): string {
    Readable(if oldcharvalid then [oldchar] + stream else stream)
  }

  function FrameOf(n: Iostack): Frame {
    match n.stream
    case None => Pending(n.filename)
    case Some(s) => Text(Left(n.oldchar, n.oldcharvalid, s))
  }

  function Frames(stack: seq<Iostack>): (fs: seq<Frame>)
    ensures |fs| == |stack| && forall i :: 0 <= i < |fs| ==> fs[i] == FrameOf(stack[i])
  {
    seq(|stack|, i requires 0 <= i < |stack| => FrameOf(stack[i]))
  }

  lemma ReadOne(s: string)
    ensures s == "" || s[0] == EOF ==> Readable(s) == ""
    ensures s != "" && s[0] != EOF ==> Readable(s) == [s[0]] + Readable(s[1..])
  {
  }

  lemma SkipBlank(t: string)
    requires t != "" && White(t[0])
    ensures Token(t) == Token(t[1..])
  {
    assert t[Blanks(t)..] == t[1..][Blanks(t[1..])..];
  }

  lemma EndOfToken(t: string, n: nat)
    requires n <= |t| && (forall i :: 0 <= i < n ==> !White(t[i])) && (n < |t| ==> White(t[n]))
    requires n > 0 || t == ""
    ensures Token(t) == (t[..n], t[n..])
  {
    if n > 0 {
      TokenIs(t, 0, n);
      assert t[0..n] == t[..n];
    }
  }

  lemma {:induction false} LineIs(t: string, n: nat)
    requires n <= |t| && '\n' !in t[..n] && (n < |t| ==> t[n] == '\n')
    ensures Line(t) == t[..n]
  {
    if n > 0 {
      assert t[0] == t[..n][0] && t[..n][1..] == t[1..][..n - 1];
      LineIs(t[1..], n - 1);
      assert t[..n] == [t[0]] + t[1..][..n - 1];
    }
  }

  class Reader {
    const files: map<string, string>
    const output: string -> string
    // What standard input holds.
    const stdin: string

    var INPUT: string
    var getnew: bool
    var oldchar: char
    var oldcharvalid: bool
    var eof: bool
    var init: bool
    var stack: seq<Iostack>
    var stream: string

    // The static variables when the program starts.
    constructor (files: map<string, string>, output: string -> string, stdin: string)
      ensures this.files == files && this.output == output && this.stdin == stdin
      ensures Valid() && !init && stack == [] && getnew && !eof && INPUT == "" && !oldcharvalid
    {
      this.files, this.output, this.stdin := files, output, stdin;
      INPUT, getnew, oldchar, oldcharvalid, eof := "", true, NUL, false, false;
      init, stack, stream := false, [], "";
    }

    predicate Valid()
      reads this
    {
      forall n :: n in stack && n.stream == None ==> !n.oldcharvalid
    }

    // What is left of the current stream.
    function Rest(): string
      reads this
    {
      Left(oldchar, oldcharvalid, stream)
    }

    // What will be left of it when the last char has been pushed back.
    function Back(): string
      reads this
    {
      Readable([oldchar] + stream)
    }

    function W(): World {
      World(files, output)
    }

    // set_input_file: the first call opens its file, or standard input when none is named; each
    // further one puts its file in front of the stack.
    method SetInputFile(name: Option<string>) returns (ok: bool)
      requires Valid() && !oldcharvalid && (name == None ==> !init)
      modifies `stack, `stream, `init
      ensures Valid() && (ok <==> old(init) || name == None || name.value in files)
      ensures ok ==> init
      ensures ok && !old(init) ==>
        stack == [] && Rest() == Readable(if name == None then stdin else files[name.value])
      ensures old(init) ==> Frames(stack) == [Pending(name.value)] + old(Frames(stack)) && Rest() == old(Rest())
    {
      if !init {
        stack := [];
        if name == None {
          stream := stdin;
        } else {
          if name.value !in files { return false; }
          stream := files[name.value];
        }
        init := true;
      } else {
        stack := [Iostack(None, name.value, oldchar, oldcharvalid)] + stack;
      }
      ok := true;
    }

    // The loop of main over the file names of the command line.
    method NameFiles(names: seq<string>) returns (ok: bool)
      requires Valid() && !init && !oldcharvalid
      modifies `stack, `stream, `init
      ensures Valid() && (ok <==> names == [] || names[0] in files)
      ensures ok && names == [] ==> Rest() == Readable(stdin) && Frames(stack) == []
      ensures ok && names != [] ==> Rest() == Readable(files[names[0]]) && Frames(stack) == TokenRuns.Named(names[1..])
    {
      hide Left, Readable, FrameOf, TokenRuns.Named;
      TokenRuns.NoneNamed();
      for i := 0 to |names|
        invariant Valid() && (init <==> i > 0)
        invariant i > 0 ==> names[0] in files && Rest() == Readable(files[names[0]])
        invariant i > 0 ==> Frames(stack) == TokenRuns.Named(names[1..i])
      {
        if i > 0 {
          assert names[1..i] + [names[i]] == names[1..i + 1];
          TokenRuns.NamedGrows(names[1..i], names[i]);
        } else {
          assert names[1..1] == [];
        }
        ok := SetInputFile(Some(names[i]));
        if !ok { return; }
        assert Frames(stack) == TokenRuns.Named(names[1..i + 1]);
      }
      ok := true;
      if names == [] {
        ok := SetInputFile(None);
      } else {
        assert names[1..|names|] == names[1..];
      }
    }

    method GetTokenChar() returns (c: char)
      modifies `stream, `oldchar, `oldcharvalid
      ensures c == oldchar && !oldcharvalid && Back() == old(Rest())
      ensures if old(Rest()) == "" then c == EOF else c == old(Rest())[0] && c != EOF && Rest() == old(Rest())[1..]
    {
      ReadOne(if oldcharvalid then [oldchar] + stream else stream);
      if !oldcharvalid {
        if stream == "" {
          oldchar := EOF;
        } else {
          oldchar, stream := stream[0], stream[1..];
        }
      }
      oldcharvalid := false;
      c := oldchar;
      ReadOne([oldchar] + stream);
      assert ([oldchar] + stream)[1..] == stream;
    }

    method UngetTokenChar()
      modifies `oldcharvalid
      ensures oldcharvalid && Rest() == old(Back())
    {
      oldcharvalid := true;
    }

    method GetToken() returns (i: nat)
      modifies `stream, `oldchar, `oldcharvalid, `INPUT
      ensures (INPUT, Rest()) == Token(old(Rest())) && i == |INPUT| && oldcharvalid
    {
      hide Token, Left, Readable;
      ghost var t := Rest();
      var c := GetTokenChar();
      while c == ' ' || c == '\t' || c == '\n'
        invariant c == oldchar && !oldcharvalid
        invariant if Back() == "" then c == EOF else c == Back()[0] && c != EOF && Rest() == Back()[1..]
        invariant Token(Back()) == Token(t)
        decreases |Back()|
      {
        SkipBlank(Back());
        c := GetTokenChar();
      }
      ghost var t1 := Back();
      var s := "";
      while c != EOF && c != ' ' && c != '\t' && c != '\n'
        invariant c == oldchar && !oldcharvalid && |s| <= |t1|
        invariant s == t1[..|s|] && Back() == t1[|s|..]
        invariant if |s| == |t1| then c == EOF else c == t1[|s|] && c != EOF && Rest() == t1[|s| + 1..]
        invariant forall k :: 0 <= k < |s| ==> !White(t1[k])
        decreases |t1| - |s|
      {
        s := s + [c];
        c := GetTokenChar();
      }
      EndOfToken(t1, |s|);
      INPUT := s;
      UngetTokenChar();
      i := |s|;
    }

    method GetComment()
      requires !eof
      modifies `stream, `oldchar, `oldcharvalid, `INPUT
      ensures Rest() == AfterComment(old(Rest()))
      decreases |Rest()|
    {
      hide Token, Left, Readable, CString, Blanks, Solid;
      while true
        invariant AfterComment(Rest()) == AfterComment(old(Rest())) && |Rest()| <= |old(Rest())|
        decreases |Rest()|
      {
        var i := GetToken();
        if i == 0 {
          return;
        } else if CString(INPUT) == "(*" {
          GetComment();
        } else if CString(INPUT) == "*)" {
          return;
        }
      }
    }

    // The inner loop of getmultiline and getsystemstring.
    method ReadLine(acc: string) returns (s: string, c: char)
      modifies `stream, `oldchar, `oldcharvalid
      ensures s == acc + Line(old(Rest())) && !oldcharvalid && c == oldchar
      ensures Back() == old(Rest())[|Line(old(Rest()))|..]
      ensures if Back() == "" then c == EOF else c == '\n' && Rest() == Back()[1..]
    {
      hide Left, Readable, Line;
      ghost var t := Rest();
      ghost var n := 0;
      s := acc;
      c := GetTokenChar();
      while c != EOF && c != '\n'
        invariant c == oldchar && !oldcharvalid && n <= |t|
        invariant s == acc + t[..n] && Back() == t[n..] && '\n' !in t[..n]
        invariant if n == |t| then c == EOF else c == t[n] && c != EOF && Rest() == t[n + 1..]
        decreases |t| - n
      {
        s := s + [c];
        assert t[..n + 1] == t[..n] + [t[n]];
        n := n + 1;
        c := GetTokenChar();
      }
      LineIs(t, n);
    }

    method GetSystemString() returns (ok: bool)
      requires getnew
      modifies `stream, `oldchar, `oldcharvalid, `INPUT
      ensures ok <==> old(Rest()) != ""
      ensures oldcharvalid
      ensures !ok ==> Rest() == ""
      ensures ok ==> (INPUT, Rest()) == SystemLines("", old(Rest())[1..])
    {
      hide Left, Readable;
      ghost var t := Rest();
      var c := GetTokenChar();
      if c == EOF {
        UngetTokenChar();
        return false;
      }
      var done := false;
      var s := "";
      while !done
        invariant !done ==> SystemLines(s, Rest()) == SystemLines("", t[1..])
        invariant done ==> (s, Back()) == SystemLines("", t[1..])
        decreases !done, |Rest()|
      {
        s, c := ReadLine(s);
        if c == '\n' && |s| > 0 && s[|s| - 1] == '\\' {
          s := s + "\n";
        } else {
          done := true;
        }
      }
      UngetTokenChar();
      INPUT := s;
      ok := true;
    }

    // The loop of getmultiline; the last char of out is dropped by a continuation.
    method GetLines() returns (out: string)
      modifies `stream, `oldchar, `oldcharvalid, `INPUT
      ensures (out, Back()) == Joined("", old(Rest())) && !oldcharvalid
    {
      hide Left, Readable, Joined, Line;
      ghost var t := Rest();
      var done, started := false, false;
      out := "";
      while !done
        invariant !started ==> out == "" && !done
        invariant !done && !started ==> Joined("", Rest()) == Joined("", t)
        invariant !done && started ==> Joined(out + "\n", Rest()) == Joined("", t)
        invariant done ==> (out, Back()) == Joined("", t) && !oldcharvalid
        decreases !done, |Rest()|
      {
        ghost var acc, left := if started then out + "\n" else "", Rest();
        JoinOnce(acc, left);
        var c;
        INPUT, c := ReadLine("");
        assert INPUT == Line(left) && acc + INPUT == if started then out + "\n" + INPUT else INPUT;
        if !started {
          out := INPUT;
          started := true;
        } else {
          out := out + "\n" + INPUT;
        }
        if c == '\n' && |out| != 0 && out[|out| - 1] == '\\' {
          out := out[..|out| - 1];
        } else {
          done := true;
        }
      }
    }

    // getmultiline
    method GetMultiline() returns (r: Option<string>)
      requires Valid()
      modifies `stream, `oldchar, `oldcharvalid, `INPUT
      ensures Valid() && stack == old(stack)
      ensures !getnew ==> r == None && Rest() == old(Rest())
      ensures getnew ==> (r, Rest()) == MultiLine(old(Rest()))
    {
      hide Left, Readable, Joined, Line;
      if !getnew {
        return None;
      }
      var c := GetTokenChar();
      if c == EOF {
        UngetTokenChar();
        return None;
      }
      var out := GetLines();
      UngetTokenChar();
      r := Some(out);
    }

    // getlabel
    method GetLabel() returns (r: array?<char>)
      requires Valid()
      modifies `stream, `oldchar, `oldcharvalid, `INPUT
      ensures Valid() && stack == old(stack)
      ensures !getnew ==> r == null && Rest() == old(Rest())
      ensures getnew ==> Rest() == ShowStrings.GetLabel(old(Rest())).1
      ensures getnew ==>
        match ShowStrings.GetLabel(old(Rest())).0
        case None => r == null
        case Some(l) => r != null && fresh(r) && |l| < r.Length && r[..|l|] == l && r[|l|] == NUL
    {
      hide Left, Readable, MultiLine, Printable;
      var txt := GetMultiline();
      if txt == None { return null; }
      r := NewPrintableText(txt.value);
    }

    // push_iostack: the name is in INPUT; p says whether it is a command
    method PushIostack(p: bool) returns (ok: bool)
      requires Valid() && oldcharvalid
      modifies `stack, `stream
      ensures Valid()
      ensures ok <==> p || CString(INPUT) in files
      ensures ok ==>
        && Frames(stack) == old(Frames(stack)) + [Text(old(Rest()))]
        && Rest() == Entered(old(Rest()), if p then output(CString(INPUT)) else files[CString(INPUT)], false)
    {
      var n := Iostack(Some(stream), CString(INPUT), oldchar, oldcharvalid);
      ghost var before := Rest();
      stack := stack + [n];
      assert Frames(stack) == old(Frames(stack)) + [Text(before)];
      if p {
        stream := output(CString(INPUT));
      } else if CString(INPUT) in files {
        stream := files[CString(INPUT)];
      } else {
        return false;
      }
      ReadOne([oldchar] + old(stream));
      ReadOne([oldchar] + stream);
      assert ([oldchar] + stream)[1..] == stream;
      ok := true;
    }

    // pop_iostack: back to the last stream, which may have to be opened
    method PopIostack() returns (ok: bool)
      requires Valid() && stack != []
      modifies `stack, `stream, `oldchar, `oldcharvalid
      ensures Valid() && Frames(stack) == old(Frames(stack))[..|old(stack)| - 1]
      ensures match old(Frames(stack))[|old(stack)| - 1]
        case Text(t) => ok && Rest() == t
        case Pending(name) => (ok <==> name in files) && (ok ==> Rest() == Readable(files[name]))
    {
      var n := stack[|stack| - 1];
      assert n in stack;
      stack := stack[..|stack| - 1];
      assert Frames(stack) == old(Frames(stack))[..|old(stack)| - 1];
      if n.stream == None {
        if n.filename !in files {
          return false;
        }
        stream := files[n.filename];
      } else {
        stream := n.stream.value;
      }
      oldchar := n.oldchar;
      oldcharvalid := n.oldcharvalid;
      ok := true;
    }

    // One turn of the loop in nexttoken: lines 269-306.  Nothing is returned when there is
    // another turn to come.
    method OneTurn() returns (r: Option<Step>)
      requires Valid() && getnew && !eof
      modifies `stream, `oldchar, `oldcharvalid, `INPUT, `getnew, `eof, `stack
      ensures Valid()
      ensures match Turn(W(), old(Rest()), false)
        case AtEnd =>
          if old(stack) == [] then r == Some(Finished) && eof && !getnew
          else (
            && getnew && !eof && Frames(stack) == old(Frames(stack))[..|old(stack)| - 1]
            && match old(Frames(stack))[|old(stack)| - 1]
               case Text(t) => r == None && Rest() == t
               case Pending(name) =>
                 if name in files then r == None && Rest() == Readable(files[name]) else r == Some(Failed(NoFile))
          )
        case Skip(cur) => r == None && getnew && !eof && Rest() == cur && Frames(stack) == old(Frames(stack))
        case Enter(text, cur) =>
          r == None && getnew && !eof && Rest() == text && Frames(stack) == old(Frames(stack)) + [Text(cur)]
        case Word(word, cur) =>
          && r == Some(Delivered(word, cur, Frames(stack))) && getnew && !eof
          && CString(INPUT) == word && Rest() == cur && Frames(stack) == old(Frames(stack))
        case Bad(end) => r == Some(Failed(end))
    {
      hide Token, AfterComment, Left, Readable, SystemLines;
      var i := GetToken();
      if i == 0 {
        if stack == [] {
          eof := true;
          getnew := false;
          return Some(Finished);
        }
        var ok := PopIostack();
        if !ok { return Some(Failed(NoFile)); }
      } else if CString(INPUT) == "(*" {
        GetComment();
      } else if CString(INPUT) == "include" {
        i := GetToken();
        if i == 0 { return Some(Failed(EmptyInclude)); }
        var ok := PushIostack(false);
        if !ok { return Some(Failed(NoFile)); }
      } else if CString(INPUT) == "shell" {
        i := GetToken();
        if i == 0 || CString(INPUT) != ":" { return Some(Failed(NoColon)); }
        var ok := GetSystemString();
        if !ok { return Some(Failed(EmptyShell)); }
        ok := PushIostack(true);
      } else {
        getnew := true;
        return Some(Delivered(CString(INPUT), Rest(), Frames(stack)));
      }
      r := None;
    }

    // nexttoken; k bounds the turns of its loop, which exist when the includes are finitely nested.
    // exit(1) is an error returned to the caller.
    method NextToken(ghost k: nat) returns (err: Option<End>)
      requires Valid()
      requires getnew && !eof ==> Next(W(), Rest(), Frames(stack), k) != Unfinished
      modifies `stream, `oldchar, `oldcharvalid, `INPUT, `getnew, `eof, `stack
      ensures Valid()
      ensures old(eof) || !old(getnew) ==>
        err == None && getnew == (old(getnew) || !old(eof)) && eof == old(eof) && INPUT == old(INPUT)
        && Rest() == old(Rest()) && stack == old(stack)
      ensures !old(eof) && old(getnew) ==>
        match Next(W(), old(Rest()), old(Frames(stack)), k)
        case Delivered(word, cur, st) =>
          err == None && CString(INPUT) == word && Rest() == cur && Frames(stack) == st && getnew && !eof
        case Finished => err == None && eof && !getnew
        case Failed(end) => err == Some(end)
    {
      hide Turn, Left, Readable, FrameOf;
      if eof { return None; }
      if getnew {
        ghost var n := k;
        while true
          invariant Valid() && getnew && !eof && n > 0
          invariant Next(W(), Rest(), Frames(stack), n) == Next(W(), old(Rest()), old(Frames(stack)), k)
          invariant Next(W(), Rest(), Frames(stack), n) != Unfinished
          decreases n
        {
          var turn := OneTurn();
          if turn.Some? {
            err := if turn.value.Failed? then Some(turn.value.end) else None;
            return;
          }
          n := n - 1;
        }
      }
      getnew := true;
      return None;
    }

    // What getstring is to answer next: nothing after the end, the last token again when it was
    // rejected, and otherwise what nexttoken finds.
    ghost function Upcoming(k: nat): Step
      requires Valid()
      reads this
    {
      if eof then Finished
      else if !getnew then Delivered(CString(INPUT), Rest(), Frames(stack))
      else Next(W(), Rest(), Frames(stack), k)
    }

    // getstring: the next token, or nothing at the end
    method GetString(ghost k: nat) returns (word: Option<string>, err: Option<End>)
      requires Valid() && Upcoming(k) != Unfinished
      modifies `stream, `oldchar, `oldcharvalid, `INPUT, `getnew, `eof, `stack
      ensures Valid()
      ensures match old(Upcoming(k))
        case Delivered(w, cur, st) =>
          word == Some(w) && err == None && CString(INPUT) == w && Rest() == cur && Frames(stack) == st && getnew && !eof
        case Finished => word == None && err == None && eof
        case Failed(end) => word == None && err == Some(end)
      ensures !old(getnew) ==> INPUT == old(INPUT) && stack == old(stack)
    {
      hide Next, Left, Readable, FrameOf;
      err := NextToken(k);
      word := if err.Some? || eof then None else Some(CString(INPUT));
    }

    // rejecttoken: the next getstring answers with the last token again and reads nothing.
    method RejectToken()
      requires Valid()
      modifies `getnew
      ensures Valid() && !getnew
      ensures forall k: nat :: Upcoming(k) == if eof then Finished else Delivered(CString(INPUT), Rest(), Frames(stack))
    {
      getnew := false;
    }

    // The state of the reader as a machine of TokenRuns.
    ghost function Now(): TokenRuns.Machine
      reads this
    {
      TokenRuns.Machine(Rest(), Frames(stack), getnew, eof, CString(INPUT))
    }

    // Any mix of calls of getstring and rejecttoken is answered as the machine answers it.
    method Answer(calls: seq<TokenRuns.Call>, ghost depth: nat) returns (rs: seq<TokenRuns.Reply>)
      requires Valid() && (eof || Remaining(W(), Rest(), Frames(stack), depth).end != TooDeep)
      modifies `stream, `oldchar, `oldcharvalid, `INPUT, `getnew, `eof, `stack
      ensures rs == TokenRuns.Play(W(), old(Now()), calls, depth)
      decreases |calls|
    {
      hide Left, Readable, FrameOf, Next, Remaining, AllTurns, Frames;
      if calls == [] { return []; }
      if calls[0] == TokenRuns.Reject {
        RejectToken();
        rs := Answer(calls[1..], depth);
      } else {
        ghost var m := Now();
        ghost var k := AllTurns(W(), m.cur, m.stack, depth);
        if !eof { NextMeets(W(), m.cur, m.stack, depth, k); }
        var word, err := GetString(k);
        if err.Some? { return [TokenRuns.Died(err.value)]; }
        if eof { TokenRuns.PlaysAtTheEnd(W(), m, Now(), calls, depth); }
        rs := Answer(calls[1..], depth);
        rs := [if word.Some? then TokenRuns.Got(word.value) else TokenRuns.NoMore] + rs;
      }
    }

    // A whole program: it names its files, and then reads the expansions of these files in
    // command-line order, or that of standard input, however it mixes reading and rejecting.
    method ReadFiles(names: seq<string>, calls: seq<TokenRuns.Call>, ghost depth: nat)
      returns (ok: bool, rs: seq<TokenRuns.Reply>)
      requires Valid() && !init && !oldcharvalid && getnew && !eof && INPUT == ""
      requires TokenRuns.Input(W(), stdin, names, depth).end != TooDeep
      modifies this
      ensures ok <==> names == [] || names[0] in files
      ensures ok ==> rs == TokenRuns.Replay(TokenRuns.Input(W(), stdin, names, depth), false, "", calls)
    {
      rs := [];
      ok := NameFiles(names);
      if ok {
        TokenRuns.InputIs(W(), stdin, names, depth);
        hide Remaining, Frames, Left, Readable, TokenRuns.Named, TokenRuns.Input, TokenRuns.InOrder, TokenRuns.Play,
          TokenRuns.Replay;
        TokenRuns.PlaysTheTokens(W(), Now(), calls, depth);
        rs := Answer(calls, depth);
      }
    }
  }
}
