/** The include stack of tools/jgraph/token.c against the recursive expansion of the
    files it reads. */
module TokenMachine {
  import opened CStrings
  import opened TokenText

  /** What the program can read: files by name, and the output of shell commands. */
  datatype World = World(files: map<string, string>, output: string -> string)

  datatype End = Eof | NoFile | EmptyInclude | NoColon | EmptyShell | TooDeep

  /** One turn of the loop in nexttoken, seen from the text still to be read. */
  datatype Look =
    | AtEnd
    | Skip(cur: string)
    | Enter(text: string, cur: string)
    | Word(word: string, cur: string)
    | Bad(end: End)

  // What is read after an include: the char that ended the file name comes first, because it
  // is still pushed back when the new stream is opened.  If the name was the last thing in its
  // file, that char is the end of file, and the new stream is never looked at; complete
  // says whether to read it all the same, as the manual has it.
  function Entered(rest: string, text: string, complete: bool): string {
    if rest == "" then (if complete then Readable(text) else "") else [rest[0]] + Readable(text)
  }

  function Turn(w: World, t: string, complete: bool): (r: Look)
    ensures r.Skip? || r.Word? || r.Enter? ==> |r.cur| < |t|
    ensures r.Bad? ==> r.end != Eof && r.end != TooDeep
  {
    var (tok, rest) := Token(t);
    if tok == "" then AtEnd
    else if CString(tok) == "(*" then Skip(AfterComment(rest))
    else if CString(tok) == "include" then
      var (name, after) := Token(rest);
      if name == "" then Bad(EmptyInclude)
      else if CString(name) !in w.files then Bad(NoFile)
      else Enter(Entered(after, w.files[CString(name)], complete), after)
    else if CString(tok) == "shell" then
      var (colon, after) := Token(rest);
      if colon == "" || CString(colon) != ":" then Bad(NoColon)
      else if after == "" then Bad(EmptyShell)
      else
        var (command, after') := SystemLines("", after[1..]);
        Enter(Entered(after', w.output(CString(command)), complete), after')
    else Word(CString(tok), rest)
  }

  /** The tokens of a text and how it ends. */
  datatype Expansion = Expansion(toks: seq<string>, end: End)

  function Then(a: Expansion, b: Expansion): Expansion {
    if a.end == Eof then Expansion(a.toks + b.toks, b.end) else a
  }

  // The recursive expansion of a text with includes nested at most depth deep.
  function Expand(w: World, t: string, depth: nat, complete: bool): Expansion
    decreases depth, |t|
  {
    match Turn(w, t, complete)
    case AtEnd => Expansion([], Eof)
    case Skip(cur) => Expand(w, cur, depth, complete)
    case Enter(text, cur) =>
      if depth == 0 then Expansion([], TooDeep)
      else Then(Expand(w, text, depth - 1, complete), Expand(w, cur, depth, complete))
    case Word(word, cur) => Then(Expansion([word], Eof), Expand(w, cur, depth, complete))
    case Bad(end) => Expansion([], end)
  }

  lemma {:induction false} Deeper(w: World, t: string, depth: nat, complete: bool)
    requires Expand(w, t, depth, complete).end != TooDeep
    ensures Expand(w, t, depth + 1, complete) == Expand(w, t, depth, complete)
    decreases depth, |t|
  {
    hide Turn, Entered, Token, AfterComment;
    match Turn(w, t, complete)
    case AtEnd =>
    case Skip(cur) => Deeper(w, cur, depth, complete);
    case Enter(text, cur) =>
      Deeper(w, text, depth - 1, complete);
      if Expand(w, text, depth - 1, complete).end == Eof {
        Deeper(w, cur, depth, complete);
      }
    case Word(word, cur) => Deeper(w, cur, depth, complete);
    case Bad(end) =>
  }

  // ----- the machine -----

  /** A stream to go back to: what is left of it, or the name of a file that is not open yet. */
  datatype Frame = Text(t: string) | Pending(name: string)

  datatype Step =
    | Delivered(word: string, cur: string, stack: seq<Frame>)
    | Finished
    | Failed(end: End)
    | Unfinished

  // nexttoken, as long as it takes at most n turns.
  function Next(w: World, cur: string, stack: seq<Frame>, n: nat): Step
    decreases n
  {
    if n == 0 then Unfinished
    else
      match Turn(w, cur, false)
      case AtEnd =>
        if stack == [] then Finished
        else (
          match stack[|stack| - 1]
          case Text(t) => Next(w, t, stack[..|stack| - 1], n - 1)
          case Pending(name) =>
            if name in w.files then Next(w, Readable(w.files[name]), stack[..|stack| - 1], n - 1) else Failed(NoFile)
        )
      case Skip(cur') => Next(w, cur', stack, n - 1)
      case Enter(text, cur') => Next(w, text, stack + [Text(cur')], n - 1)
      case Word(word, cur') => Delivered(word, cur', stack)
      case Bad(end) => Failed(end)
  }

  // The expansion of everything that is still to be read: the current text, then the
  // streams on the stack from the last to the first.
  function Remaining(w: World, cur: string, stack: seq<Frame>, depth: nat): Expansion
    decreases |stack|, 1
  {
    Then(Expand(w, cur, depth, false), Below(w, stack, depth))
  }

  function Below(w: World, stack: seq<Frame>, depth: nat): Expansion
    decreases |stack|, 0
  {
    if stack == [] then Expansion([], Eof)
    else
      match stack[|stack| - 1]
      case Text(t) => Remaining(w, t, stack[..|stack| - 1], depth)
      case Pending(name) =>
        if name in w.files then Remaining(w, Readable(w.files[name]), stack[..|stack| - 1], depth)
        else Expansion([], NoFile)
  }

  // The number of turns that the machine needs for a text, with the one that finds its end.
  function Turns(w: World, t: string, depth: nat): nat
    decreases depth, |t|
  {
    match Turn(w, t, false)
    case AtEnd => 1
    case Skip(cur) => 1 + Turns(w, cur, depth)
    case Enter(text, cur) =>
      if depth == 0 then 1
      else 1 + Turns(w, text, depth - 1) + (if Expand(w, text, depth - 1, false).end == Eof then Turns(w, cur, depth) else 0)
    case Word(word, cur) => 1 + Turns(w, cur, depth)
    case Bad(end) => 1
  }

  function AllTurns(w: World, cur: string, stack: seq<Frame>, depth: nat): nat
    decreases |stack|
  {
    Turns(w, cur, depth) +
    if stack == [] || Expand(w, cur, depth, false).end != Eof then 0
    else
      match stack[|stack| - 1]
      case Text(t) => AllTurns(w, t, stack[..|stack| - 1], depth)
      case Pending(name) =>
        if name in w.files then AllTurns(w, Readable(w.files[name]), stack[..|stack| - 1], depth) else 0
  }

  lemma {:induction false} TurnsDeeper(w: World, t: string, depth: nat)
    requires Expand(w, t, depth, false).end != TooDeep
    ensures Turns(w, t, depth + 1) == Turns(w, t, depth)
    decreases depth, |t|
  {
    hide Turn, Entered, Token, AfterComment;
    match Turn(w, t, false)
    case AtEnd =>
    case Skip(cur) => TurnsDeeper(w, cur, depth);
    case Enter(text, cur) =>
      TurnsDeeper(w, text, depth - 1);
      Deeper(w, text, depth - 1, false);
      if Expand(w, text, depth - 1, false).end == Eof {
        TurnsDeeper(w, cur, depth);
      }
    case Word(word, cur) => TurnsDeeper(w, cur, depth);
    case Bad(end) =>
  }

  // What a step of the machine means for the tokens that remain.
  ghost predicate Meets(w: World, s: Step, all: Expansion, depth: nat) {
    match s
    case Delivered(word, cur, stack) =>
      var rest := Remaining(w, cur, stack, depth);
      all == Expansion([word] + rest.toks, rest.end)
    case Finished => all == Expansion([], Eof)
    case Failed(end) => all == Expansion([], end) && end != Eof
    case Unfinished => false
  }

  lemma ThenAssociates(a: Expansion, b: Expansion, c: Expansion)
    ensures Then(Then(a, b), c) == Then(a, Then(b, c))
  {
    assert a.toks + b.toks + c.toks == a.toks + (b.toks + c.toks);
  }

  // If the includes are finitely nested, the machine delivers the first of the remaining
  // tokens and goes on with the others, or finds the same end.
  lemma {:induction false} NextMeets(w: World, cur: string, stack: seq<Frame>, depth: nat, n: nat)
    requires Remaining(w, cur, stack, depth).end != TooDeep && n >= AllTurns(w, cur, stack, depth)
    ensures Meets(w, Next(w, cur, stack, n), Remaining(w, cur, stack, depth), depth)
    decreases n
  {
    hide Turn, Entered, Token, AfterComment;
    match Turn(w, cur, false)
    case AtEnd =>
      if stack != [] {
        match stack[|stack| - 1]
        case Text(t) => NextMeets(w, t, stack[..|stack| - 1], depth, n - 1);
        case Pending(name) =>
          if name in w.files {
            NextMeets(w, Readable(w.files[name]), stack[..|stack| - 1], depth, n - 1);
          }
      }
    case Skip(cur') => NextMeets(w, cur', stack, depth, n - 1);
    case Enter(text, cur') =>
      EnterMeets(w, text, cur', stack, depth);
      NextMeets(w, text, stack + [Text(cur')], depth, n - 1);
    case Word(word, cur') =>
      ThenAssociates(Expansion([word], Eof), Expand(w, cur', depth, false), Below(w, stack, depth));
    case Bad(end) =>
  }

  // Pushing the rest of the text keeps what remains to be read.
  lemma EnterMeets(w: World, text: string, cur: string, stack: seq<Frame>, depth: nat)
    requires depth > 0 && Expand(w, text, depth - 1, false).end != TooDeep
    ensures Remaining(w, text, stack + [Text(cur)], depth) ==
      Then(Then(Expand(w, text, depth - 1, false), Expand(w, cur, depth, false)), Below(w, stack, depth))
    ensures AllTurns(w, text, stack + [Text(cur)], depth) ==
      Turns(w, text, depth - 1) +
      if Expand(w, text, depth - 1, false).end == Eof then AllTurns(w, cur, stack, depth) else 0
  {
    hide Turn, Expand, Turns;
    Deeper(w, text, depth - 1, false);
    TurnsDeeper(w, text, depth - 1);
    var s := stack + [Text(cur)];
    assert s[..|stack|] == stack && s[|s| - 1] == Text(cur);
    assert Below(w, s, depth) == Remaining(w, cur, stack, depth);
    ThenAssociates(Expand(w, text, depth - 1, false), Expand(w, cur, depth, false), Below(w, stack, depth));
  }

  // ----- the machine against the manual -----

  // Every include that is reached is followed by white space in its own file, or what it
  // includes has no tokens.
  predicate Intact(w: World, t: string, depth: nat)
    decreases depth, |t|
  {
    match Turn(w, t, true)
    case Skip(cur) => Intact(w, cur, depth)
    case Enter(text, cur) =>
      depth > 0 &&
      if cur == "" then Expand(w, text, depth - 1, true).toks == []
      else Intact(w, text, depth - 1) && Intact(w, cur, depth)
    case Word(word, cur) => Intact(w, cur, depth)
    case _ => true
  }

  // The two readings differ only in what is entered behind a name that ends its file.
  lemma SameTurn(w: World, t: string)
    ensures var a, b := Turn(w, t, false), Turn(w, t, true);
      if b.Enter? then a.Enter? && a.cur == b.cur && (b.cur != "" ==> a == b) && (b.cur == "" ==> a.text == "") else a == b
  {
    hide Token, CString, SystemLines, AfterComment, Readable;
  }

  lemma NothingLeft(w: World, depth: nat, complete: bool)
    ensures Expand(w, "", depth, complete) == Expansion([], Eof)
  {
  }

  // The machine delivers what the manual promises exactly when every include is intact;
  // otherwise the tokens of the files included last are missing.
  lemma {:induction false} IncludesIntact(w: World, t: string, depth: nat)
    requires Expand(w, t, depth, true).end == Eof
    ensures var a, b := Expand(w, t, depth, false), Expand(w, t, depth, true);
      && a.end == Eof && |a.toks| <= |b.toks|
      && (a == b <==> Intact(w, t, depth)) && (|a.toks| == |b.toks| <==> Intact(w, t, depth))
    decreases depth, |t|
  {
    hide Turn, Entered, Token, AfterComment;
    SameTurn(w, t);
    match Turn(w, t, true)
    case AtEnd =>
    case Skip(cur) => IncludesIntact(w, cur, depth);
    case Enter(text, cur) =>
      if cur == "" {
        NothingLeft(w, depth - 1, false);
        NothingLeft(w, depth, false);
        NothingLeft(w, depth, true);
      } else {
        IncludesIntact(w, text, depth - 1);
        IncludesIntact(w, cur, depth);
      }
    case Word(word, cur) => IncludesIntact(w, cur, depth);
    case Bad(end) =>
  }

  // A file that ends in the name of an include: the machine reads none of it.
  lemma LastIncludeDropped()
    ensures var w := World(map["f" := "x"], _ => "");
      && Expand(w, "include f", 1, true) == Expansion(["x"], Eof)
      && Expand(w, "include f", 1, false) == Expansion([], Eof)
  {
    hide Token, CString, Readable;
    var w := World(map["f" := "x"], _ => "");
    var t := "include f";
    assert Token(t) == ("include", " f") by { TokenIs(t, 0, 7); assert t[0..7] == "include" && t[7..] == " f"; }
    assert Token(" f") == ("f", "") by { TokenIs(" f", 1, 2); assert " f"[1..2] == "f"; }
    assert CString("include") == "include" by { NoNul("include"); }
    assert CString("f") == "f" by { NoNul("f"); }
    ReadX();
    assert Turn(w, t, true) == Enter("x", "");
    assert Turn(w, t, false) == Enter("", "");
    NothingLeft(w, 1, true);
    NothingLeft(w, 1, false);
    NothingLeft(w, 0, true);
    NothingLeft(w, 0, false);
  }

  lemma ReadX()
    ensures Readable("x") == "x"
    ensures forall w, complete :: Turn(w, "x", complete) == Word("x", "")
  {
    hide Token, CString;
    assert Token("x") == ("x", "") by { TokenIs("x", 0, 1); assert "x"[0..1] == "x"; }
    assert CString("x") == "x" by { NoNul("x"); }
  }
}
