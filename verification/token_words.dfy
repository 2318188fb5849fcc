/** What a program reads with tools/jgraph/token.c, in terms of the tokens of its texts: the words outside
    comments, with those of the included files in place of the includes. */
module TokenWords {
  import opened CStrings
  import opened TokenText
  import opened TokenMachine
  import ShowStrings
  import TokenRuns

  // ----- texts without includes -----

  // The tokens that are not in comments.
  function Strip(ws: seq<string>): seq<string>
    decreases |ws|
  {
    if ws == [] then []
    else if ws[0] == "(*" then
      CloseShorter(ws[1..], 1);
      Strip(Close(ws[1..], 1))
    else [ws[0]] + Strip(ws[1..])
  }

  lemma {:induction false} CloseShorter(ws: seq<string>, depth: nat)
    ensures |Close(ws, depth)| <= |ws|
  {
    if depth > 0 && ws != [] {
      CloseShorter(ws[1..], if ws[0] == "(*" then depth + 1 else if ws[0] == "*)" then depth - 1 else depth);
    }
  }

  // Outside comments there is neither an include nor a command.
  predicate Plain(t: string) {
    "include" !in Strip(Words(t)) && "shell" !in Strip(Words(t))
  }

  lemma NoneLeft(w: World, t: string, depth: nat, complete: bool)
    requires Token(t).0 == ""
    ensures Words(t) == [] && Expand(w, t, depth, complete) == Expansion([], Eof)
  {
    hide Token, CString, AfterComment;
  }

  lemma FirstWord(t: string)
    requires Token(t).0 != ""
    ensures Words(t) == [CString(Token(t).0)] + Words(Token(t).1)
    ensures Words(t) != [] && Words(t)[0] == CString(Token(t).0) && Words(t)[1..] == Words(Token(t).1)
  {
    hide Token, CString;
  }

  /** The words of a text are read in order, without those in comments. */
  lemma {:induction false} StripWords(w: World, t: string, depth: nat, complete: bool)
    requires Plain(t)
    ensures Expand(w, t, depth, complete) == Expansion(Strip(Words(t)), Eof)
    decreases |t|
  {
    hide Token, CString, AfterComment, Words, Entered, SystemLines;
    var (tok, rest) := Token(t);
    if tok == "" {
      NoneLeft(w, t, depth, complete);
    } else {
      FirstWord(t);
      if CString(tok) == "(*" {
        CommentsNest(rest);
        StripWords(w, AfterComment(rest), depth, complete);
      } else {
        assert Strip(Words(t)) == [CString(tok)] + Strip(Words(rest));
        StripWords(w, rest, depth, complete);
      }
    }
  }

  // The words of several files, one file after the other.
  function FileWords(w: World, names: seq<string>): seq<string> {
    if names == [] then [] else WordsOf(w, names[0]) + FileWords(w, names[1..])
  }

  function WordsOf(w: World, name: string): seq<string> {
    if name in w.files then Strip(Words(Readable(w.files[name]))) else []
  }

  /** A program that is started on plain files reads their words in command-line order. */
  lemma {:induction false} PlainFiles(w: World, names: seq<string>, depth: nat)
    requires forall f :: f in names ==> f in w.files && Plain(Readable(w.files[f]))
    ensures TokenRuns.InOrder(w, names, depth) == Expansion(FileWords(w, names), Eof)
  {
    if names != [] {
      assert names[0] in names && forall f :: f in names[1..] ==> f in names;
      StripWords(w, Readable(w.files[names[0]]), depth, false);
      PlainFiles(w, names[1..], depth);
      hide Expand, Strip, Words, Readable;
    }
  }

  // ----- includes -----

  // The manual's reading of a list of tokens: behind include stands the name of a file, whose
  // words are read in the place of both.
  function Meaning(w: World, ws: seq<string>, depth: nat): Expansion
    decreases depth, |ws|
  {
    if ws == [] then Expansion([], Eof)
    else if ws[0] == "(*" then
      CloseShorter(ws[1..], 1);
      Meaning(w, Close(ws[1..], 1), depth)
    else if ws[0] == "include" then
      if |ws| == 1 then Expansion([], EmptyInclude)
      else if ws[1] !in w.files then Expansion([], NoFile)
      else if depth == 0 then Expansion([], TooDeep)
      else Then(Meaning(w, Words(Readable(w.files[ws[1]])), depth - 1), Meaning(w, ws[2..], depth))
    else Then(Expansion([ws[0]], Eof), Meaning(w, ws[1..], depth))
  }

  // No command is reached.
  predicate NoShell(w: World, ws: seq<string>, depth: nat)
    decreases depth, |ws|
  {
    ws == [] ||
    if ws[0] == "(*" then
      CloseShorter(ws[1..], 1);
      NoShell(w, Close(ws[1..], 1), depth)
    else if ws[0] == "include" then
      |ws| > 1 && ws[1] in w.files && depth > 0 ==>
        NoShell(w, Words(Readable(w.files[ws[1]])), depth - 1) && NoShell(w, ws[2..], depth)
    else ws[0] != "shell" && NoShell(w, ws[1..], depth)
  }

  // A text that is empty or ends in white space, so that no name is its very end.
  predicate Tidy(t: string) {
    t == "" || White(t[|t| - 1])
  }

  ghost predicate TidyFiles(w: World) {
    forall f :: f in w.files ==> Tidy(Readable(w.files[f]))
  }

  lemma SkipWhite(t: string)
    requires t != "" && White(t[0])
    ensures Words(t) == Words(t[1..])
  {
    assert t[Blanks(t)..] == t[1..][Blanks(t[1..])..];
    assert Token(t) == Token(t[1..]);
    hide Token;
  }

  // What is left behind a token, or behind a comment, is an end of the text.
  lemma BehindToken(t: string)
    requires Tidy(t)
    ensures Tidy(Token(t).1) && (Token(t).0 != "" ==> Token(t).1 != "")
  {
    var u := t[Blanks(t)..];
    var rest := u[Solid(u)..];
    if rest != "" { assert rest[|rest| - 1] == t[|t| - 1]; }
    assert u != "" ==> u[|u| - 1] == t[|t| - 1];
  }

  lemma {:induction false} BehindComment(t: string)
    requires Tidy(t)
    ensures Tidy(AfterComment(t))
    decreases |t|
  {
    BehindToken(t);
    hide Token, CString, Tidy;
    var (tok, rest) := Token(t);
    if tok != "" {
      if CString(tok) == "(*" {
        BehindComment(rest);
        BehindComment(AfterComment(rest));
      } else if CString(tok) != "*)" {
        BehindComment(rest);
      }
    }
  }

  lemma EnteredWords(rest: string, text: string, complete: bool)
    requires rest != "" ==> White(rest[0])
    requires complete || rest != ""
    ensures Words(Entered(rest, text, complete)) == Words(Readable(text))
    ensures Tidy(Readable(text)) && rest != "" ==> Tidy(Entered(rest, text, complete))
  {
    if rest != "" {
      var e := [rest[0]] + Readable(text);
      assert e[1..] == Readable(text);
      SkipWhite(e);
      hide Words;
    }
  }

  // One turn of the reader.
  lemma ExpandOne(w: World, t: string, depth: nat, complete: bool)
    requires Token(t).0 != ""
    ensures var word, rest := CString(Token(t).0), Token(t).1;
      && |rest| < |t|
      && (word == "(*" ==>
            |AfterComment(rest)| < |t| && Expand(w, t, depth, complete) == Expand(w, AfterComment(rest), depth, complete))
      && (word != "(*" && word != "include" && word != "shell" ==>
            Expand(w, t, depth, complete) == Then(Expansion([word], Eof), Expand(w, rest, depth, complete)))
  {
    hide Token, CString, AfterComment, Entered, SystemLines, Then;
  }

  lemma ExpandInclude(w: World, t: string, depth: nat, complete: bool)
    requires Token(t).0 != "" && CString(Token(t).0) == "include"
    ensures var (name, after) := Token(Token(t).1);
      && |after| < |t|
      && Expand(w, t, depth, complete) ==
        if name == "" then Expansion([], EmptyInclude)
        else if CString(name) !in w.files then Expansion([], NoFile)
        else if depth == 0 then Expansion([], TooDeep)
        else Then(Expand(w, Entered(after, w.files[CString(name)], complete), depth - 1, complete),
                  Expand(w, after, depth, complete))
  {
    hide Token, CString, AfterComment, Entered, SystemLines, Then;
  }

  lemma MeaningOne(w: World, word: string, ws: seq<string>, depth: nat)
    ensures var all := [word] + ws;
      && (word == "(*" ==>
            && Meaning(w, all, depth) == Meaning(w, Close(ws, 1), depth)
            && (NoShell(w, all, depth) <==> NoShell(w, Close(ws, 1), depth)))
      && (word != "(*" && word != "include" ==>
            && Meaning(w, all, depth) == Then(Expansion([word], Eof), Meaning(w, ws, depth))
            && (NoShell(w, all, depth) <==> word != "shell" && NoShell(w, ws, depth)))
      && (word == "include" && ws == [] ==> Meaning(w, all, depth) == Expansion([], EmptyInclude))
  {
    assert ([word] + ws)[1..] == ws;
    hide Close, Words, Readable, Then;
  }

  lemma MeaningInclude(w: World, name: string, ws: seq<string>, depth: nat)
    ensures var all := ["include", name] + ws;
      && Meaning(w, all, depth) ==
        (if name !in w.files then Expansion([], NoFile)
         else if depth == 0 then Expansion([], TooDeep)
         else Then(Meaning(w, Words(Readable(w.files[name])), depth - 1), Meaning(w, ws, depth)))
      && (NoShell(w, all, depth) && name in w.files && depth > 0 ==>
            NoShell(w, Words(Readable(w.files[name])), depth - 1) && NoShell(w, ws, depth))
  {
    assert (["include", name] + ws)[2..] == ws;
    hide Close, Words, Readable, Then;
  }

  lemma NothingMeant(w: World, depth: nat)
    ensures Meaning(w, [], depth) == Expansion([], Eof)
  {
  }

  /** Without commands, the manual's reading is that of the tokens; and what the program reads is
      the same when all texts are tidy. */
  lemma {:induction false} WordsMean(w: World, t: string, depth: nat, complete: bool)
    requires NoShell(w, Words(t), depth) && (complete || (Tidy(t) && TidyFiles(w)))
    ensures Expand(w, t, depth, complete) == Meaning(w, Words(t), depth)
    decreases depth, |t|
  {
    hide *;
    var (tok, rest) := Token(t);
    if Tidy(t) { BehindToken(t); }
    if tok == "" {
      NoneLeft(w, t, depth, complete);
      NothingMeant(w, depth);
    } else {
      var word := CString(tok);
      FirstWord(t);
      ExpandOne(w, t, depth, complete);
      MeaningOne(w, word, Words(rest), depth);
      if word == "(*" {
        CommentsNest(rest);
        if Tidy(rest) { BehindComment(rest); }
        WordsMean(w, AfterComment(rest), depth, complete);
      } else if word == "include" {
        IncludeMeans(w, t, depth, complete);
      } else {
        WordsMean(w, rest, depth, complete);
      }
    }
  }

  lemma {:induction false} IncludeMeans(w: World, t: string, depth: nat, complete: bool)
    requires Token(t).0 != "" && CString(Token(t).0) == "include"
    requires NoShell(w, Words(t), depth) && (complete || (Tidy(t) && TidyFiles(w)))
    ensures Expand(w, t, depth, complete) == Meaning(w, Words(t), depth)
    decreases depth, |t|, 0
  {
    hide *;
    var rest := Token(t).1;
    var (name, after) := Token(rest);
    FirstWord(t);
    ExpandInclude(w, t, depth, complete);
    if Tidy(t) { BehindToken(t); BehindToken(rest); }
    if name == "" {
      NoneLeft(w, rest, depth, complete);
      MeaningOne(w, "include", [], depth);
    } else {
      var f := CString(name);
      FirstWord(rest);
      assert Words(t) == ["include", f] + Words(after);
      MeaningInclude(w, f, Words(after), depth);
      if f in w.files && depth > 0 {
        DelimiterWhite(rest);
        if TidyFiles(w) { TidyFile(w, f); }
        EnteredWords(after, w.files[f], complete);
        WordsMean(w, Entered(after, w.files[f], complete), depth - 1, complete);
        WordsMean(w, after, depth, complete);
      }
    }
  }

  lemma DelimiterWhite(t: string)
    ensures Token(t).1 != "" ==> White(Token(t).1[0])
  {
  }

  lemma TidyFile(w: World, f: string)
    requires TidyFiles(w) && f in w.files
    ensures Tidy(Readable(w.files[f]))
  {
  }

  // ----- commands -----

  // A command goes on to the first newline that has no backslash in front of it, and keeps all
  // others with their backslashes.
  lemma SystemLinesMean(t: string)
    ensures var (command, rest) := SystemLines("", t);
      && t == command + rest
      && (rest != "" ==> rest[0] == '\n' && !EndsInBackslash(command))
      && forall k :: 0 <= k < |command| && command[k] == '\n' ==> k > 0 && command[k - 1] == '\\'
  {
    assert Continued("") && "" + t == t;
    hide SystemLines, EndsInBackslash;
    CommandLines("", t);
  }

  // Every newline has a backslash in front of it.
  predicate Continued(s: string) {
    forall k :: 0 <= k < |s| && s[k] == '\n' ==> k > 0 && s[k - 1] == '\\'
  }

  lemma {:induction false} CommandLines(acc: string, t: string)
    requires Continued(acc)
    ensures var (command, rest) := SystemLines(acc, t);
      && acc + t == command + rest
      && (rest != "" ==> rest[0] == '\n' && !EndsInBackslash(command))
      && Continued(command)
    decreases |t|
  {
    hide *;
    var line := Line(t);
    var s := acc + line;
    var rest := t[|line|..];
    assert t == line + rest && acc + t == s + rest;
    MoreContinued(acc, line);
    SystemOnce(acc, t);
    if rest != "" && EndsInBackslash(s) {
      assert rest == "\n" + rest[1..];
      assert s + rest == (s + "\n") + rest[1..];
      NewlineContinued(s);
      CommandLines(s + "\n", rest[1..]);
    }
  }

  lemma SystemOnce(acc: string, t: string)
    ensures var s := acc + Line(t); var rest := t[|Line(t)|..];
      SystemLines(acc, t) == if rest != "" && EndsInBackslash(s) then SystemLines(s + "\n", rest[1..]) else (s, rest)
  {
    hide Line;
  }

  lemma MoreContinued(acc: string, line: string)
    requires Continued(acc) && '\n' !in line
    ensures Continued(acc + line)
  {
    assert forall k :: |acc| <= k < |acc + line| ==> (acc + line)[k] == line[k - |acc|];
  }

  lemma NewlineContinued(s: string)
    requires Continued(s) && EndsInBackslash(s)
    ensures Continued(s + "\n")
  {
  }

  lemma SameTurn(w: World, t: string, u: string, depth: nat, complete: bool)
    requires Turn(w, t, complete) == Turn(w, u, complete)
    ensures Expand(w, t, depth, complete) == Expand(w, u, depth, complete)
  {
    hide Turn, Then;
  }

  lemma SameToken(w: World, t: string, u: string, complete: bool)
    requires Token(t) == Token(u)
    ensures Turn(w, t, complete) == Turn(w, u, complete)
  {
    hide Token, CString, AfterComment, SystemLines, Entered;
  }

  lemma SkipOne(w: World, t: string, depth: nat, complete: bool)
    requires t != "" && White(t[0])
    ensures Expand(w, t, depth, complete) == Expand(w, t[1..], depth, complete)
  {
    assert t[Blanks(t)..] == t[1..][Blanks(t[1..])..];
    assert Token(t) == Token(t[1..]);
    hide *;
    SameToken(w, t, t[1..], complete);
    SameTurn(w, t, t[1..], depth, complete);
  }

  /** A command on one line: its output is read in its place, and then what follows the line. */
  lemma CommandRead(w: World, command: string, rest: string, depth: nat, complete: bool)
    requires '\n' !in command && NUL !in command && !EndsInBackslash(command)
    ensures Expand(w, "shell : " + command + "\n" + rest, depth + 1, complete) ==
      Then(Expand(w, Readable(w.output(command)), depth, complete), Expand(w, rest, depth + 1, complete))
  {
    CommandTurn(w, command, rest, complete);
    NewlineWhite();
    hide *;
    var text, more := "\n" + Readable(w.output(command)), "\n" + rest;
    assert text[1..] == Readable(w.output(command)) && more[1..] == rest;
    ExpandEnter(w, "shell : " + command + "\n" + rest, text, more, depth, complete);
    SkipOne(w, text, depth, complete);
    SkipOne(w, more, depth + 1, complete);
  }

  lemma NewlineWhite()
    ensures White('\n')
  {
  }

  lemma ExpandEnter(w: World, t: string, text: string, more: string, depth: nat, complete: bool)
    requires Turn(w, t, complete) == Enter(text, more)
    ensures Expand(w, t, depth + 1, complete) == Then(Expand(w, text, depth, complete), Expand(w, more, depth + 1, complete))
  {
    hide Turn, Then;
  }

  lemma CommandTurn(w: World, command: string, rest: string, complete: bool)
    requires '\n' !in command && NUL !in command && !EndsInBackslash(command)
    ensures Turn(w, "shell : " + command + "\n" + rest, complete) == Enter("\n" + Readable(w.output(command)), "\n" + rest)
  {
    var x := command + "\n" + rest;
    CommandText(command, rest);
    NoNul("shell");
    NoNul(":");
    NoNul(command);
    hide *;
    var v := " " + x;
    var u := " :" + v;
    ShellToken("shell" + u, u);
    ColonToken(u, v);
    assert v[1..] == x;
    OneCommand(command, rest);
    ShellTurn(w, "shell" + u, complete);
    EnteredNewline(rest, w.output(command), complete);
  }

  lemma CommandText(command: string, rest: string)
    ensures "shell : " + command + "\n" + rest == "shell" + (" :" + (" " + (command + "\n" + rest)))
  {
    assert "shell : " == "shell" + " :" + " ";
  }

  lemma EnteredNewline(rest: string, text: string, complete: bool)
    ensures Entered("\n" + rest, text, complete) == "\n" + Readable(text)
  {
    hide Readable;
  }

  lemma ShellTurn(w: World, t: string, complete: bool)
    requires Token(t).0 == CString(Token(t).0) == "shell"
    requires Token(Token(t).1).0 == CString(Token(Token(t).1).0) == ":" && Token(Token(t).1).1 != ""
    ensures var (command, rest) := SystemLines("", Token(Token(t).1).1[1..]);
      Turn(w, t, complete) == Enter(Entered(rest, w.output(CString(command)), complete), rest)
  {
    hide Token, CString, AfterComment, SystemLines, Entered;
  }

  lemma ShellToken(t: string, u: string)
    requires t == "shell" + u && u != "" && u[0] == ' '
    ensures Token(t) == ("shell", u)
  {
    hide Token;
    assert t[0..5] == "shell" && t[5..] == u && t[5] == ' ';
    assert t[0] == 's' && t[1] == 'h' && t[2] == 'e' && t[3] == 'l' && t[4] == 'l';
    TokenIs(t, 0, 5);
  }

  lemma ColonToken(u: string, v: string)
    requires u == " :" + v && v != "" && v[0] == ' '
    ensures Token(u) == (":", v)
  {
    hide Token;
    assert u[1..2] == ":" && u[2..] == v && u[0] == ' ' && u[1] == ':' && u[2] == ' ';
    TokenIs(u, 1, 2);
  }

  lemma OneCommand(command: string, rest: string)
    requires '\n' !in command && !EndsInBackslash(command)
    ensures SystemLines("", command + "\n" + rest) == (command, "\n" + rest)
  {
    hide *;
    var t := command + "\n" + rest;
    ShowStrings.LineOf(command, rest);
    SystemOnce("", t);
    assert "" + command == command && t[|command|..] == "\n" + rest;
  }
}
