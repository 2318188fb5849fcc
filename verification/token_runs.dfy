/** Whole runs of a program that reads tokens with the functions of tools/jgraph/token.c
    and may push each one back. */
module TokenRuns {
  import opened TokenText
  import opened TokenMachine

  datatype Call = Get | Reject

  /** What a call of getstring answers. */
  datatype Reply = Got(word: string) | NoMore | Died(end: End)

  // The machine: the text and the stack, whether a new token is wanted, whether the end
  // has been found, and the last token.
  datatype Machine = Machine(cur: string, stack: seq<Frame>, getnew: bool, eof: bool, last: string)

  function GetOne(w: World, m: Machine, depth: nat): (Machine, Reply) {
    if m.eof then (m, NoMore)
    else if !m.getnew then (m.(getnew := true), Got(m.last))
    else
      match Next(w, m.cur, m.stack, AllTurns(w, m.cur, m.stack, depth))
      case Delivered(word, cur, stack) => (Machine(cur, stack, true, false, word), Got(word))
      case Finished => (m.(eof := true, getnew := false), NoMore)
      case Failed(end) => (m, Died(end))
      case Unfinished => (m, Died(TooDeep))
  }

  function Play(w: World, m: Machine, calls: seq<Call>, depth: nat): seq<Reply>
    decreases |calls|
  {
    if calls == [] then []
    else if calls[0] == Reject then Play(w, m.(getnew := false), calls[1..], depth)
    else
      var (m', r) := GetOne(w, m, depth);
      if r.Died? then [r] else [r] + Play(w, m', calls[1..], depth)
  }

  // The same calls on a list of tokens: the next one, or the last one again if it was rejected.
  function Replay(all: Expansion, rejected: bool, last: string, calls: seq<Call>): seq<Reply>
    decreases |calls|
  {
    if calls == [] then []
    else if calls[0] == Reject then Replay(all, true, last, calls[1..])
    else if rejected then [Got(last)] + Replay(all, false, last, calls[1..])
    else if all.toks != [] then
      [Got(all.toks[0])] + Replay(Expansion(all.toks[1..], all.end), false, all.toks[0], calls[1..])
    else if all.end == Eof then AtTheEnd(calls)
    else [Died(all.end)]
  }

  // Behind the last token nothing can be rejected.
  function AtTheEnd(calls: seq<Call>): seq<Reply> {
    if calls == [] then [] else (if calls[0] == Get then [NoMore] else []) + AtTheEnd(calls[1..])
  }

  lemma {:induction false} PlayAtTheEnd(w: World, m: Machine, calls: seq<Call>, depth: nat)
    requires m.eof
    ensures Play(w, m, calls, depth) == AtTheEnd(calls)
    decreases |calls|
  {
    if calls != [] {
      if calls[0] == Reject {
        PlayAtTheEnd(w, m.(getnew := false), calls[1..], depth);
      } else {
        PlayAtTheEnd(w, m, calls[1..], depth);
      }
    }
  }

  // Where the end has been found, nothing but that is answered, whatever else differs.
  lemma PlaysAtTheEnd(w: World, m: Machine, m': Machine, calls: seq<Call>, depth: nat)
    requires calls != [] && calls[0] == Get && m'.eof && GetOne(w, m, depth).1 == NoMore
    ensures Play(w, m, calls, depth) == [NoMore] + Play(w, m', calls[1..], depth)
  {
    hide Next, AllTurns;
    PlayAtTheEnd(w, GetOne(w, m, depth).0, calls[1..], depth);
    PlayAtTheEnd(w, m', calls[1..], depth);
  }

  // However the program mixes reading and pushing back, the include stack answers as the list
  // of all tokens would: each token in order, and each rejected one exactly once more.
  lemma {:induction false} PlaysTheTokens(w: World, m: Machine, calls: seq<Call>, depth: nat)
    requires !m.eof && Remaining(w, m.cur, m.stack, depth).end != TooDeep
    ensures Play(w, m, calls, depth) == Replay(Remaining(w, m.cur, m.stack, depth), !m.getnew, m.last, calls)
    decreases |calls|
  {
    if calls != [] {
      hide Remaining, Next, AllTurns;
      var all := Remaining(w, m.cur, m.stack, depth);
      var rest := calls[1..];
      if calls[0] == Reject {
        PlaysTheTokens(w, m.(getnew := false), rest, depth);
      } else if !m.getnew {
        PlaysTheTokens(w, m.(getnew := true), rest, depth);
      } else {
        NextMeets(w, m.cur, m.stack, depth, AllTurns(w, m.cur, m.stack, depth));
        match Next(w, m.cur, m.stack, AllTurns(w, m.cur, m.stack, depth))
        case Delivered(word, cur, stack) =>
          assert all.toks[0] == word && all.toks[1..] == Remaining(w, cur, stack, depth).toks;
          PlaysTheTokens(w, Machine(cur, stack, true, false, word), rest, depth);
        case Finished => PlayAtTheEnd(w, m.(eof := true, getnew := false), rest, depth);
        case Failed(end) =>
      }
    }
  }

  // ----- the files of the command line -----

  // The stack after the files behind the first have been named, in this order.
  function Named(names: seq<string>): seq<Frame> {
    if names == [] then [] else Named(names[1..]) + [Pending(names[0])]
  }

  lemma NoneNamed()
    ensures Named([]) == []
  {
  }

  // The documented meaning: the expansion of one file after the other.
  function InOrder(w: World, names: seq<string>, depth: nat): Expansion {
    if names == [] then Expansion([], Eof)
    else if names[0] !in w.files then Expansion([], NoFile)
    else Then(Expand(w, Readable(w.files[names[0]]), depth, false), InOrder(w, names[1..], depth))
  }

  lemma {:induction false} CommandLineOrder(w: World, names: seq<string>, depth: nat)
    ensures Below(w, Named(names), depth) == InOrder(w, names, depth)
  {
    if names != [] {
      hide Expand;
      var s := Named(names);
      assert s[..|s| - 1] == Named(names[1..]) && s[|s| - 1] == Pending(names[0]);
      CommandLineOrder(w, names[1..], depth);
    }
  }

  // SetInputFile puts each further file in front of the stack.
  lemma {:induction false} NamedGrows(names: seq<string>, name: string)
    ensures Named(names + [name]) == [Pending(name)] + Named(names)
  {
    if names == [] {
      assert Named([name][1..]) == [];
    } else {
      assert (names + [name])[1..] == names[1..] + [name];
      NamedGrows(names[1..], name);
    }
  }

  // What is left at the start.
  lemma FirstDepth(w: World, name: string, names: seq<string>, depth: nat)
    requires name in w.files
    ensures Remaining(w, Readable(w.files[name]), Named(names), depth) == InOrder(w, [name] + names, depth)
  {
    CommandLineOrder(w, names, depth);
    assert ([name] + names)[1..] == names;
    hide Expand, Named, Readable;
  }

  // What a program reads that was started on these files, or on standard input without any.
  function Input(w: World, stdin: string, names: seq<string>, depth: nat): Expansion {
    if names == [] then Expand(w, Readable(stdin), depth, false) else InOrder(w, names, depth)
  }

  lemma NothingBelow(w: World, cur: string, depth: nat)
    ensures Remaining(w, cur, [], depth) == Expand(w, cur, depth, false)
  {
  }

  // It is what is left at the start.
  lemma InputIs(w: World, stdin: string, names: seq<string>, depth: nat)
    requires names == [] || names[0] in w.files
    ensures Input(w, stdin, names, depth) ==
      if names == [] then Remaining(w, Readable(stdin), [], depth)
      else Remaining(w, Readable(w.files[names[0]]), Named(names[1..]), depth)
  {
    hide Expand, Remaining, InOrder;
    if names == [] {
      NothingBelow(w, Readable(stdin), depth);
    } else {
      assert names == [names[0]] + names[1..];
      FirstDepth(w, names[0], names[1..], depth);
    }
  }

  // A program started on files reads the expansions of these files in command-line order.
  lemma FilesInOrder(w: World, name: string, names: seq<string>, calls: seq<Call>, depth: nat)
    requires name in w.files && InOrder(w, [name] + names, depth).end != TooDeep
    ensures Play(w, Machine(Readable(w.files[name]), Named(names), true, false, ""), calls, depth) ==
      Replay(InOrder(w, [name] + names, depth), false, "", calls)
  {
    CommandLineOrder(w, names, depth);
    assert ([name] + names)[1..] == names;
    hide Expand, Play, Replay, Named, Readable;
    PlaysTheTokens(w, Machine(Readable(w.files[name]), Named(names), true, false, ""), calls, depth);
  }
}
