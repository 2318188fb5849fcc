# Verified models of jgraph, its allocator, and two counter readers

This project models the parts of the repository whose correctness is hardest to see, in Dafny, and
proves what they promise.  `dafny verify dfyconfig.toml` checks all of it.

## The allocator, `tools/jgraph/jmalloc.c`

`jmalloc_heap.dfy` gives the meaning: a heap of blocks (header, space, trailer) in address order, the
ring of free blocks with the sentinel, the four counters, the memory, and what `sbrk` has delivered.
`sbrk` is an oracle that answers each call with a gap behind the last break, or fails.  `WF` is the
invariant: shape and order, the ring, the checksums, the tiling, the counters.  `jmalloc_parts.dfy`,
`jmalloc_ops.dfy`, `jmalloc_realloc.dfy` and `jmalloc_runs.dfy` build `malloc`, `free`, `realloc` and
`calloc` from small parts and prove what every call and every run keeps; `jmalloc_search.dfy`,
`jmalloc_theorems.dfy`, `jmalloc_trailers.dfy` and `jmalloc_coalesce.dfy` state the rest, `jmalloc_numbers.dfy`
and `jmalloc_order.dfy` say in addresses, sizes and positions what each call does, and
`jmalloc_witness.dfy` holds concrete runs.  `jmalloc.dfy` is the program itself: the class `Allocator`
relinks `flink`, `blink`, `nextfree` and `prevfree` one field at a time, and every method is proved to
compute what the specification says; `Execute` plays whole runs, with the program's own stores.  The header fields are maps from addresses, so that two pointers to
the same address are the same header.  `dump_core` is the outcome `Abort`.

What the proofs brought out:

* A block can carry its second checksum inside its own space: `free` and the no-split path of
  `malloc` do not move it.  A program that stores into memory it owns can then make `free` or `realloc`
  abort.  `FreeSafety` says exactly when, `TrailerAfterMalloc` when `malloc` hands out such a block,
  `StepEnded` exactly which operations make the first one, `RunEnded` that without one every `free`
  succeeds, and `LegalRunAborts` gives a run of five calls.
* Growth in place counts the neighbour twice, so the four counters drift, although their weighted sum stays
  right (`Conservation`); after the two calls of `GrownRun` all four are wrong.
* `realloc` can abort where it could have returned NULL (`ReallocAborts`): it asks `malloc` for 0
  bytes, or for more than an empty neighbour has, or copies into a NULL result, which `malloc` answers
  exactly when nothing fits and `sbrk` refuses every request (`MallocNull`).  `ReallocRunAborts` is a run of
  two calls, with memory to spare.
* `realloc` leaves two free neighbours unmerged exactly when it cuts off the end of a block that is followed
  by a free one (`ReallocCoalesced`); `UnmergedRun` is a run of two calls.

## The jgraph compiler

* `c_strings.dfy`, `token_text.dfy`, `token_machine.dfy`, `token.dfy`, `token_runs.dfy`, `token_words.dfy`: the token reader.  The class
  `Reader` has the source's character and token pushback and the include stack; the meaning is a recursive
  expansion of the files.  The manual promises the contents of every included file.  The code drops a file
  whose name is the very last thing in the text that includes it, because the pushed-back end of file is
  carried into the new stream; the model follows the code, and `IncludesIntact` says exactly when the
  promise is kept.
* `show.dfy`: the printers of strings and labels, and the round trips with the reader and with PostScript.  A text
  that ends in a backslash does not come back, and PostScript takes a carriage return for a newline.
* `postscript.dfy`, `fonts.dfy`, `draw.dfy`, `marks.dfy`: a small PostScript machine (sections 4.2 and 4.4 of the
  PostScript Language Reference, third edition), which stops at an operator in error, the font cache, and
  the loops that cut long paths into chunks.
  * A closed curve is drawn even with line type none, which is what a new curve has, but with a `setdash`
    that lacks its offset: it is an error, and nothing is drawn from there on (`ClosedWithoutLine`).
    `DrawPolyline` and `DrawBezier` say exactly which line types are drawn.
  * A dash pattern begins anew with each chunk, so the chunks are drawn as one path would be exactly when
    the line is solid or there is one chunk (`ChunksDiffer`).
  * Behind a preamble that selects a font, `setfont` can leave the interpreter with that font
    (`PreambleWitness`); `PreambleFonts` and `InlineSound` say exactly when it does not.
* `axis.dfy`: the automatic interval, start and hash marks of a linear axis, in exact arithmetic.
* `lists.dfy`, `numbering.dfy`: the sentinel lists as heap objects with insertion by number, and the
  numbering of graphs, curves and strings over whole runs of editing commands.  With a number,
  `copycurve` and `copystring` put the new item into the list before they look for the old one; the
  number of the new item itself is therefore found, and nothing is copied (`CopyNumbered`).
* `label_lines.dfy`: labels of several lines, cut at newlines in place and restored.

## The counter readers

* `counters.dfy`: `getAllCounterStates` of `tools/pcm/cpucounters.cpp` as a machine over single steps of the
  main thread and of the worker of each core, in every interleaving, and the sums that follow the wait.
* `bits.dfy`, `topology.dfy`: bit fields of APIC ids, and the renumbering of sockets.
* `numastat.dfy`: the truncating running mean of `all/c/parse_numastat.h`.

## Model

| member | source | states |
|---|---|---|
| JmallocParts.AddSegKeeps | tools/jgraph/jmalloc.c:160-178 | a new segment from sbrk, wherever it lies behind the last one, becomes one free block and keeps the whole invariant |
| JmallocParts.SplitKeeps | tools/jgraph/jmalloc.c:184-202 | splitting a block keeps shape, ring, checksums, tiling and counters |
| JmallocParts.SetUsedKeeps | tools/jgraph/jmalloc.c:92-106 | taking a block out of the ring keeps the invariant |
| JmallocParts.FreeIntoKeeps | tools/jgraph/jmalloc.c:309-314 | entering a freed block into the ring keeps the invariant |
| JmallocParts.FreeLeftKeeps | tools/jgraph/jmalloc.c:302-308 | merging a freed block into its left neighbour keeps the invariant |
| JmallocParts.MergeNextKeeps | tools/jgraph/jmalloc.c:316-324 | merging a free block with its right neighbour keeps the invariant |
| JmallocParts.GrowKeeps | tools/jgraph/jmalloc.c:399-406 | swallowing the right neighbour keeps the invariant, with the drift of the counters recorded |
| JmallocOps.ObtainKeeps | tools/jgraph/jmalloc.c:141-178 | asking sbrk for less and less either leaves the heap alone or adds a free block that is large enough |
| JmallocOps.TakeKeeps | tools/jgraph/jmalloc.c:181-204 | handing out a free block, split or whole, keeps the invariant |
| JmallocOps.MallocKeeps | tools/jgraph/jmalloc.c:108-205 | every malloc keeps the invariant, whatever it answers |
| JmallocOps.MallocDelivers | tools/jgraph/jmalloc.c:108-205 | a returned pointer is the space of a block that was not in use, with at least the requested bytes, and no used block or byte of it has changed |
| JmallocOps.TakeDelivers | tools/jgraph/jmalloc.c:181-204 | the block taken from the ring becomes used with enough bytes, and all used blocks stay as they were |
| JmallocOps.FreeKeeps | tools/jgraph/jmalloc.c:277-326 | every free keeps the invariant |
| JmallocRealloc.FreeSpares | tools/jgraph/jmalloc.c:277-326 | free changes no byte of memory and no other used block |
| JmallocRealloc.MoveCopy | tools/jgraph/jmalloc.c:409-410 | after the copy the new block begins with the old bytes and the old block can be freed |
| JmallocRealloc.ShrinkReallocates | tools/jgraph/jmalloc.c:359-382 | shrinking keeps the remaining bytes and every other block |
| JmallocRealloc.GrowReallocates | tools/jgraph/jmalloc.c:387-407 | growth in place keeps the old bytes and every other used block |
| JmallocRealloc.MoveReallocates | tools/jgraph/jmalloc.c:408-413 | a move keeps the old bytes and every other used block |
| JmallocRealloc.ReallocReallocates | tools/jgraph/jmalloc.c:328-414 | whatever realloc returns is a used block of at least the size asked for that begins with the old bytes, and no other used block has changed |
| JmallocRuns.InitialKeeps | tools/jgraph/jmalloc.c:72-85 | the heap of do_init satisfies the invariant |
| JmallocRuns.CallocDelivers | tools/jgraph/jmalloc.c:416-431 | calloc delivers a fresh block of zeros, spares every used block, and ends the program exactly when the size is not positive or there is no memory for it |
| JmallocRuns.StepKeeps | tools/jgraph/jmalloc.c:108-431 | every call and every store of a legal program keeps the invariant and all used blocks but the one it is about |
| JmallocRuns.Conservation | tools/jgraph/jmalloc.c:100-404 | over every run the counters and one header per counted block add up to the bytes from sbrk, and each counter alone is right exactly when no block was grown in place |
| JmallocRuns.Layout | tools/jgraph/jmalloc.c:108-414 | over every run the blocks are ordered, disjoint and aligned, tile exactly what sbrk delivered, keep their second checksum inside, and the ring holds the sentinel and the free blocks once each with start among them |
| JmallocSearch.FirstFitMeaning | tools/jgraph/jmalloc.c:128-139 | the search fails only if nothing fits, and otherwise everything before what it finds is too small |
| JmallocSearch.NextFit | tools/jgraph/jmalloc.c:128-139 | the search finds the first fit in ring order from start, and fails exactly when no free block is large enough |
| JmallocSearch.MallocNull | tools/jgraph/jmalloc.c:128-159 | malloc returns NULL exactly when no free block is large enough and sbrk refuses every request of the halving loop |
| JmallocTheorems.SbrkOnlyWhenFull | tools/jgraph/jmalloc.c:141-159 | malloc asks for memory exactly when no free block is large enough |
| JmallocTheorems.ReallocAborts | tools/jgraph/jmalloc.c:341-413 | realloc ends the program exactly when the size is not positive, the checksum is broken, a free block that begins at the block's end has room but the growth is too tight, or no block has room and sbrk refuses all that is asked, in addresses and sizes |
| JmallocTheorems.FreeSafety | tools/jgraph/jmalloc.c:287-293 | freeing survives everything the program may store into its block exactly when the second checksum is at the block's end |
| JmallocNumbers.RoundUpMeans | tools/jgraph/jmalloc.c:126-126 | a size is rounded to the least multiple of 8 that is not below it |
| JmallocNumbers.StampMeans | tools/jgraph/jmalloc.c:67-67 | the four bytes of a checksum are the address of the header's word at offset 48, less 1, mod 2^32 |
| JmallocNumbers.NullMeans | tools/jgraph/jmalloc.c:128-159 | malloc answers NULL exactly when no free block has room and sbrk refuses a chunk, or the size and a header if that is more, and each half of it down to the size and a header |
| JmallocNumbers.ReallocStays | tools/jgraph/jmalloc.c:341-407 | realloc returns its own pointer exactly when the checksum is intact and the rounded size is below the block's, or a free block begins at its end, both have room with the header between them, and growth is not too tight, in addresses and sizes |
| JmallocNumbers.ReallocSizes | tools/jgraph/jmalloc.c:359-407 | how large the block is after a realloc in place: cut down if 68 bytes or more are left, or grown by a header and what is taken of the neighbour |
| JmallocOrder.ObtainMeans | tools/jgraph/jmalloc.c:141-178 | the memory obtained is the first request that sbrk grants, at the place it answers |
| JmallocOrder.MallocOrder | tools/jgraph/jmalloc.c:128-205 | which memory malloc hands out and how large the block is, which address leaves the ring or takes the place of which, and where the next search begins |
| JmallocOrder.FreeOrder | tools/jgraph/jmalloc.c:300-326 | the ring after free: the block directly behind start unless a free one precedes it, without the free one that follows, and the next search at the merged block |
| JmallocOrder.ReallocOrder | tools/jgraph/jmalloc.c:359-407 | the ring after a realloc in place: what is cut off directly behind start and searched first, what is grown into taken as malloc takes it |
| JmallocTrailers.TrailerAfterMalloc | tools/jgraph/jmalloc.c:108-205 | malloc hands out a block with the checksum inside exactly when its search finds a free one that has it there and is too small to split |
| JmallocTrailers.FreeEnded | tools/jgraph/jmalloc.c:277-326 | free makes the first block with the checksum inside exactly when it merges with a neighbour |
| JmallocTrailers.EndedFrees | tools/jgraph/jmalloc.c:287-293 | as long as there is no such block, freeing a live pointer succeeds |
| JmallocTrailers.StepEnded | tools/jgraph/jmalloc.c:108-431 | one operation makes the first such block exactly when it is a free, or a realloc that moves, and the heap before it has a free neighbour of the block to merge with |
| JmallocTrailers.MoveMergesMeans | tools/jgraph/jmalloc.c:408-413 | the free at the end of a move merges exactly when the right neighbour is free, or the left one is and malloc does not take it whole for the move |
| JmallocTrailers.RunEnded | tools/jgraph/jmalloc.c:108-431 | after every run without such a merge no block has its checksum inside, and every live pointer can be freed |
| JmallocWitness.LegalRunAborts | tools/jgraph/jmalloc.c:277-293 | a concrete legal run of five calls that aborts |
| JmallocWitness.ReallocRunAborts | tools/jgraph/jmalloc.c:385-398 | two legal calls that end in an abort although sbrk never refuses |
| JmallocWitness.UnmergedRun | tools/jgraph/jmalloc.c:359-382 | two legal calls that leave two free neighbours unmerged |
| JmallocWitness.GrownRun | tools/jgraph/jmalloc.c:399-406 | two legal calls after which each of the four counters is wrong |
| JmallocWitness.FitsExactly | tools/jgraph/jmalloc.c:387-407 | two legal calls, the second a realloc to exactly the room there is, which stays in place |
| JmallocCoalesce.MallocCoalesced | tools/jgraph/jmalloc.c:108-205 | if no two adjacent blocks are both free before malloc, none are after |
| JmallocCoalesce.FreeCoalesced | tools/jgraph/jmalloc.c:300-325 | if no two adjacent blocks are both free before free, none are after |
| JmallocCoalesce.ReallocCoalesced | tools/jgraph/jmalloc.c:359-413 | realloc keeps that except exactly when it shrinks a block that a free one follows at once |
| JmallocCoalesce.StepCoalesced | tools/jgraph/jmalloc.c:108-431 | one step of a run loses that exactly when it is such a realloc |
| JmallocLinks.LinkIn | tools/jgraph/jmalloc.c:160-167 | the four writes of an insertion keep two link fields a circular list and its inverse |
| JmallocLinks.LinkOut | tools/jgraph/jmalloc.c:96-97 | the two writes of a removal do as well |
| JmallocLinks.Walk | tools/jgraph/jmalloc.c:130-139 | following a circular list visits its members in order and comes back |
| Jmalloc.BlocksWalk | tools/jgraph/jmalloc.c:160-163 | walking flink from the sentinel meets all blocks in ascending order, each once; blink is the inverse |
| Jmalloc.RingWalk | tools/jgraph/jmalloc.c:164-167 | walking nextfree from the sentinel meets the sentinel and the free blocks once each |
| Jmalloc.Allocator.constructor | tools/jgraph/jmalloc.c:72-85 | an empty allocator is valid |
| Jmalloc.Allocator.Sbrk | tools/jgraph/jmalloc.c:145-145 | one question to the oracle |
| Jmalloc.Allocator.SetUsed | tools/jgraph/jmalloc.c:92-106 | the pointer writes take the block out of the ring of the specification |
| Jmalloc.Allocator.EnterRing | tools/jgraph/jmalloc.c:310-313 | the pointer writes enter the block behind start |
| Jmalloc.Allocator.MergeLeft | tools/jgraph/jmalloc.c:302-308 | the pointer writes merge with the left neighbour |
| Jmalloc.Allocator.MergeRight | tools/jgraph/jmalloc.c:316-324 | the pointer writes merge with the right neighbour |
| Jmalloc.Allocator.AddSegment | tools/jgraph/jmalloc.c:160-178 | the pointer writes add the segment |
| Jmalloc.Allocator.SplitBlock | tools/jgraph/jmalloc.c:184-202 | the pointer writes split the block |
| Jmalloc.Allocator.SearchRing | tools/jgraph/jmalloc.c:128-139 | the loop over nextfree ends and finds what the specification finds |
| Jmalloc.Allocator.MoreMemory | tools/jgraph/jmalloc.c:141-179 | the halving loop over sbrk ends and asks what the specification asks |
| Jmalloc.Allocator.UseBlock | tools/jgraph/jmalloc.c:181-204 | the split or no-split path |
| Jmalloc.Allocator.Malloc | tools/jgraph/jmalloc.c:108-205 | the heap and the answer are those of the specification |
| Jmalloc.Allocator.Free | tools/jgraph/jmalloc.c:277-326 | the heap and the outcome are those of the specification |
| Jmalloc.Allocator.CopyBytes | tools/jgraph/jmalloc.c:410-410 | the loop copies the bytes |
| Jmalloc.Allocator.TakeNeighbour | tools/jgraph/jmalloc.c:399-406 | the pointer writes swallow the neighbour |
| Jmalloc.Allocator.ReallocInPlace | tools/jgraph/jmalloc.c:385-407 | growth in place, with its aborts, as specified |
| Jmalloc.Allocator.ReallocMove | tools/jgraph/jmalloc.c:408-413 | a move as specified |
| Jmalloc.Allocator.Realloc | tools/jgraph/jmalloc.c:328-414 | the heap and the answer are those of the specification |
| Jmalloc.Allocator.Calloc | tools/jgraph/jmalloc.c:416-431 | the heap and the answer are those of the specification |
| Jmalloc.Allocator.Execute | tools/jgraph/jmalloc.c:108-431 | the pointer code plays every legal run of calls and stores as the specification does |
| TokenText.TokenIs | tools/jgraph/token.c:166-183 | a token is the first maximal run without white space, and what is left begins with its delimiter |
| TokenText.CommentsNest | tools/jgraph/token.c:185-195 | the recursion over nested comments skips what a counter of open comments skips, and an open one swallows the rest |
| TokenMachine.Deeper | tools/jgraph/token.c:264-310 | a finite expansion does not depend on the depth that is allowed |
| TokenMachine.NextMeets | tools/jgraph/token.c:264-310 | for finitely nested includes nexttoken delivers the first token of the expansion of all that is left, or finds the same end |
| TokenMachine.EnterMeets | tools/jgraph/token.c:202-229 | pushing a stream keeps what remains to be read |
| TokenMachine.IncludesIntact | tools/jgraph/jgraph.1:125-131 | the reader delivers what the manual promises exactly when no include is the end of its text; otherwise tokens are missing |
| TokenMachine.LastIncludeDropped | tools/jgraph/token.c:202-229 | a two-word text whose included file is never read |
| TokenWords.StripWords | tools/jgraph/token.c:264-310 | a text without includes and commands is read as its words without those in comments |
| TokenWords.WordsMean | tools/jgraph/token.c:264-310 | texts with includes are read as their words, those of the included texts in place, in the manual's reading, and in the program's when no text ends in an include |
| TokenWords.PlainFiles | tools/jgraph/token.c:115-310 | a program started on plain files reads their words in command-line order |
| TokenWords.CommandRead | tools/jgraph/token.c:287-301 | the output of a command is read in its place, and then what follows its line |
| TokenWords.SystemLinesMean | tools/jgraph/token.c:439-467 | a command is the text to the first newline without a backslash, and keeps the others with their backslashes |
| TokenRuns.PlaysTheTokens | tools/jgraph/token.c:264-319 | for every mix of reading and rejecting, the machine answers as the list of all tokens would, and each rejected token comes once more |
| TokenRuns.CommandLineOrder | tools/jgraph/token.c:115-145 | the pending files below the first are read in their order |
| TokenRuns.NamedGrows | tools/jgraph/token.c:134-145 | a further file goes to the far end of the stack |
| TokenRuns.FilesInOrder | tools/jgraph/token.c:115-145 | a program started on files reads their expansions in command-line order |
| TokenReader.Reader.NameFiles | tools/jgraph/jgraph.c:387-398 | the loop over the command line opens the first file, or standard input, and lets the others wait in order; it fails exactly when the first file is missing |
| TokenReader.Reader.Answer | tools/jgraph/token.c:264-319 | the reader answers every mix of reading and rejecting as the machine does |
| TokenReader.Reader.ReadFiles | tools/jgraph/token.c:115-319 | a whole program reads the tokens of its files in command-line order, or those of standard input, each rejected one once more |
| TokenReader.Reader.SetInputFile | tools/jgraph/token.c:115-145 | the first call opens its file or standard input, each further one puts its file in front of the stack |
| TokenReader.Reader.GetTokenChar | tools/jgraph/token.c:152-158 | one character of what is left, the pushed-back one first |
| TokenReader.Reader.UngetTokenChar | tools/jgraph/token.c:160-164 | the last character is left again |
| TokenReader.Reader.GetToken | tools/jgraph/token.c:166-183 | the loops read the next token and leave its delimiter |
| TokenReader.Reader.GetComment | tools/jgraph/token.c:185-195 | leaves the text behind the comment |
| TokenReader.Reader.PushIostack | tools/jgraph/token.c:202-229 | saves the rest of the text and opens a file or the output of a command |
| TokenReader.Reader.PopIostack | tools/jgraph/token.c:231-262 | goes back to the saved text, or opens a pending file |
| TokenReader.Reader.NextToken | tools/jgraph/token.c:264-310 | the loop ends and its outcome is the specified one, for finitely nested includes |
| TokenReader.Reader.GetString | tools/jgraph/token.c:312-319 | delivers the token into the caller's buffer |
| TokenReader.Reader.RejectToken | tools/jgraph/token.c:469-472 | what getstring is to answer next is the last token again, with nothing more read, or nothing at the end |
| TokenReader.Reader.GetLines | tools/jgraph/token.c:401-420 | the loop joins lines as long as a backslash stands before the newline, and leaves the text behind the last one |
| TokenReader.Reader.GetMultiline | tools/jgraph/token.c:385-424 | the loops read the specified string and leave the specified rest |
| TokenReader.Reader.GetLabel | tools/jgraph/token.c:426-437 | the label is the printable text of the string, in a buffer with its NUL |
| TokenReader.Reader.GetSystemString | tools/jgraph/token.c:439-467 | the loops read the specified command |
| ShowStrings.ShowMltiline | tools/jgraph/show.c:100-112 | prints a backslash before every newline of the text |
| ShowStrings.CountSpecials | tools/jgraph/token.c:358-368 | counts the characters that get a backslash |
| ShowStrings.PrintableLength | tools/jgraph/token.c:358-383 | the printable text is longer by that count |
| ShowStrings.NewPrintableText | tools/jgraph/token.c:358-383 | the computed buffer holds the printable text and its NUL |
| ShowStrings.ShowString | tools/jgraph/show.c:114-128 | the loop with its skipped index prints the label |
| ShowStrings.LabelsShown | tools/jgraph/show.c:114-128 | what show_string prints of a printable text is what show_mltiline prints of the text itself |
| ShowStrings.ReadShown | tools/jgraph/token.c:385-424 | reading a shown text gives it back exactly when it does not end in a backslash |
| ShowStrings.RoundTrip | tools/jgraph/token.c:385-424 | getmultiline of show_mltiline is the text and leaves what follows, exactly when the text does not end in a backslash |
| ShowStrings.AnyText | tools/jgraph/token.c:385-424 | every text but the empty one is the shown form of what getmultiline reads from it, up to the first newline without a backslash or the end |
| ShowStrings.LabelRoundTrip | tools/jgraph/token.c:426-437 | behind the colon, getlabel of what show_string prints of a label is the same label, exactly when its text does not end in a backslash |
| ShowStrings.PrintableInjective | tools/jgraph/token.c:358-383 | different texts have different labels |
| ShowStrings.PrintableRead | tools/jgraph/token.c:358-383 | PostScript (section 3.2.2 of its reference) reads a printable text in parentheses as the text itself, whatever follows, exactly when no carriage return is in it |
| DrawPaths.DrawsMeans | tools/jgraph/printline.c:377-403 | of the line types only none, and a general one with a negative number or only zeros, make setdash fail |
| DrawPaths.DrawPolyline | tools/jgraph/draw.c:247-299 | for any number of points and every line type: every segment is stroked once, in order and in the curve's style, on paths of at most 100; a closed figure is filled and stroked as one path; the output fails exactly when there is a line and its type is not drawn; an unknown type ends the program |
| DrawPaths.DrawBezier | tools/jgraph/draw.c:247-275 | the same for the curves of 3n + 1 points, on paths of at most 29 curves |
| DrawPaths.ClosedWithoutLine | tools/jgraph/draw.c:247-252 | a closed curve of line type none makes the output fail before anything is drawn |
| DrawPaths.ChunksDiffer | tools/jgraph/draw.c:277-291 | chunks are drawn as one path would be exactly when the line is solid or there is one chunk |
| DrawPaths.Closed | tools/jgraph/draw.c:293-299 | closing, filling and stroking a figure inks its area and its outline with the closing line |
| DrawMarks.DrawLineMark | tools/jgraph/draw.c:444-460 | an open mark draws every line between neighbouring points once, in order, scaled, in chunks of at most 100 |
| DrawMarks.DrawBezierMark | tools/jgraph/draw.c:461-488 | an open bezier mark draws every curve once, in order, in chunks of at most 29; it ends the program exactly when the number of points is neither 0 nor 3n + 1 |
| FontCache.StepSound | tools/jgraph/printline.c:95-145 | one operation of jgraph's own with the cache has the effect of the one without it, and the cache stays right about every saved level |
| FontCache.InlineSound | tools/jgraph/draw.c:796-811 | commands of the user's own leave the cache right exactly when they leave the font and those of the saved levels as they were |
| FontCache.CacheSound | tools/jgraph/printline.c:95-145 | for every sequence of operations whose inline commands leave the font and the saved levels, or the font to the next grestore, the cached output leaves the interpreter where the uncached output does |
| FontCache.FontsFromStart | tools/jgraph/printline.c:120-145 | after each setfont of such a sequence the interpreter has that font, unless the user's commands have failed |
| FontCache.PreambleFonts | tools/jgraph/draw.c:794-811 | behind a preamble every setfont is right exactly when the preamble leaves the font as it was |
| FontCache.PreambleWitness | tools/jgraph/draw.c:794-811 | a preamble behind which setfont prints nothing although the interpreter has another font |
| FontCache.ForeignRuns | tools/jgraph/draw.c:402-420 | PostScript of the user's own between gsave and grestore leaves the graphics state as it was exactly when it leaves the saved ones, as nested commands do |
| FontCache.NestedLevels | tools/jgraph/draw.c:402-420 | commands whose gsave and grestore nest leave the saved levels as they were |
| FontCache.Printer.GsaveCall | tools/jgraph/printline.c:95-103 | the new level, list and output are the specified ones |
| FontCache.Printer.GrestoreCall | tools/jgraph/printline.c:105-118 | the new level, list and output are the specified ones |
| FontCache.Printer.SetFont | tools/jgraph/printline.c:120-145 | the new list and output are the specified ones |
| AxisMarks.FindInterval | tools/jgraph/process.c:344-371 | for every span the search ends with 1, 2 or 5 times a power of ten that goes more than 2 and less than 6 times into the span, and with which one: the finest or coarsest that is reasonable |
| AxisMarks.OneReasonable | tools/jgraph/process.c:344-371 | there is only one such interval |
| AxisMarks.Coarser | tools/jgraph/process.c:352-360 | the first search loop ends, for spans over 5 |
| AxisMarks.Finer | tools/jgraph/process.c:361-370 | the second search loop ends, for spans up to 5 |
| AxisMarks.StartMeans | tools/jgraph/process.c:373-382 | the automatic start is a multiple of the interval less than one interval below min, 0 if the axis crosses it, and otherwise on the side of min |
| AxisMarks.FindMinor | tools/jgraph/process.c:428-449 | the scaling loops end, the number depends on the leading digits of the interval only, and the minor marks of a round interval are a power of ten apart |
| AxisMarks.WholeAxis | tools/jgraph/process.c:564-566 | everything between min and max passes the test for being on the axis exactly when the axis is not turned around by more than the tolerance |
| AxisMarks.BackMeans | tools/jgraph/process.c:561-561 | the backing-up loop ends at a value of the progression at most min, and by less than an interval if it moved |
| AxisMarks.MarksAll | tools/jgraph/process.c:561-617 | every value of the progression from the start that is on the axis is marked, major exactly at whole intervals |
| AxisMarks.MarksOnly | tools/jgraph/process.c:561-617 | every mark is such a value less than .05 points outside the axis, and no major one is above max |
| AxisMarks.MarksExactly | tools/jgraph/process.c:561-617 | a value of the progression is marked, at its place in proportion to the axis, exactly when its major mark is considered and it is less than .05 points outside the axis |
| AxisMarks.MarksPlaced | tools/jgraph/process.c:564-566 | every mark is at its place in proportion to the axis |
| AxisMarks.OneBelow | tools/jgraph/process.c:561-568 | with an automatic start at most one major mark is below min |
| AxisMarks.MarksAscend | tools/jgraph/process.c:561-617 | the marks ascend strictly, for every start and interval |
| AxisMarks.MultiplesMarked | tools/jgraph/process.c:537-617 | with the automatic start every multiple of the interval on the axis is a major mark |
| AxisMarks.OnlyMultiples | tools/jgraph/process.c:537-617 | and every major mark is a multiple of the interval, at most one interval below min |
| AxisMarks.AutoAtMultiples | tools/jgraph/process.c:537-617 | on the axis the major marks of an automatic interval are the multiples of it and nothing else |
| AxisMarks.LabelsMean | tools/jgraph/process.c:573-598 | every major mark has its label, with its value, and nothing else has |
| AxisMarks.LabelsAscend | tools/jgraph/process.c:573-598 | each once, and in the order of the marks |
| AxisMarks.GivenMeans | tools/jgraph/process.c:547-554 | the lines and labels that were given keep their order and are placed in proportion to the axis |
| AxisMarks.Axis.Process1 | tools/jgraph/process.c:458-510 | the ends of the axis are put in order and apart, so that its span is positive; it fails exactly when an end is not known |
| AxisMarks.Axis.Choose | tools/jgraph/process.c:537-544 | a given interval, start and number of minor marks stay, and those not given are the reasonable interval, the automatic start or min, and the number of minor marks that belongs to the interval |
| AxisMarks.Axis.Insert | tools/jgraph/process.c:565-598 | a mark, and a label with its value if it is major, exactly when it is inside |
| AxisMarks.Axis.InsertMinors | tools/jgraph/process.c:600-612 | the minor marks after a major one |
| AxisMarks.Axis.MarkAxis | tools/jgraph/process.c:561-617 | both loops end and add exactly the specified marks and labels |
| AxisMarks.Axis.Process2 | tools/jgraph/process.c:537-618 | the given lines and labels are placed, the automatic ones follow, and nothing else is added; what is given stays, and with an automatic interval and start the major marks are at its multiples |
| Lists.InsertSorted | tools/jgraph/prio_list.c:73-111 | a sorted list stays sorted, ascending or descending, with repeated numbers |
| Lists.InsertStrict | tools/jgraph/prio_list.c:73-111 | a strictly ascending list stays so with a new number |
| Lists.PositionMeans | tools/jgraph/prio_list.c:73-111 | where a number goes in a sorted list: to the end if the last is not behind it, or else in front of the first that is not before it, so before equal ones |
| Lists.NextIsLast | tools/jgraph/edit.c:1068-1070 | one above the last number is new and goes to the end |
| Lists.Spliced | tools/jgraph/list.c:87-90 | the four writes of an insertion keep the list linked both ways |
| Lists.Passed | tools/jgraph/list.c:95-96 | the two writes of a removal keep the list linked both ways |
| Lists.List.constructor | tools/jgraph/list.c:99-110 | a new list is empty and valid |
| Lists.List.GetNode | tools/jgraph/list.c:112-125 | delivers the node freed last, or a new one, never one that is on the list |
| Lists.List.FreeNode | tools/jgraph/list.c:127-134 | puts the node on top of the free list and leaves the items alone |
| Lists.List.Insert | tools/jgraph/list.c:81-91 | the node becomes the last item |
| Lists.List.DeleteItem | tools/jgraph/list.c:93-97 | exactly this item leaves the list, and may be freed |
| Lists.List.LinkBefore | tools/jgraph/prio_list.c:104-107 | the four writes put the node before a given one |
| Lists.List.LinkAfter | tools/jgraph/prio_list.c:84-87 | the four writes put the node after a given one |
| Lists.List.Scan | tools/jgraph/prio_list.c:99-109 | the scan ends at an item, never at the sentinel |
| Lists.List.PrioInsert | tools/jgraph/prio_list.c:73-111 | exactly the one node is added, at the head, the tail or before the first number that stops the scan |
| Lists.List.NewItem | tools/jgraph/jgraph.c:268-279 | a new node with the number, in its place |
| Lists.List.GetItem | tools/jgraph/jgraph.c:166-174 | returns the one item with the number, and adds one exactly when there was none |
| Lists.List.FindBack | tools/jgraph/jgraph.c:171-172 | the backward scan ends and tells whether the number is there |
| Lists.List.NextItem | tools/jgraph/edit.c:1067-1070 | a new last item numbered one above the last |
| Numbering.Lookup | tools/jgraph/edit.c:300-311 | the backward scan for a number finds only an item with it |
| Numbering.LookupMeans | tools/jgraph/jgraph.c:281-289 | in an ascending list the scan finds the one item with the number, exactly if there is one |
| Numbering.FetchOk | tools/jgraph/jgraph.c:338-346 | getting an item by number keeps the list ascending and every item in it |
| Numbering.AddNext | tools/jgraph/edit.c:1067-1076 | newcurve, newline and newstring append a number that is new |
| Numbering.StepKeeps | tools/jgraph/edit.c:1046-1179 | every command keeps the numbers of all lists of the document strictly ascending |
| Numbering.RunsFromStart | tools/jgraph/edit.c:1121-1179 | over every run of commands the numbers of all lists ascend strictly |
| Numbering.ItemsStay | tools/jgraph/edit.c:1061-1066 | editing by number removes nothing and changes no other item |
| Numbering.AppendedLast | tools/jgraph/edit.c:1067-1076 | a new or copied item is the last one, and all others stay |
| Numbering.CopyNumbered | tools/jgraph/edit.c:296-311 | a copy by number succeeds exactly when the number is there or is that of the new item itself, and then copies that item |
| Numbering.LatestMeans | tools/jgraph/edit.c:273-294 | a copy without a number fails exactly when no graph from the edited one back, on any page, has an item |
| Numbering.LatestWhich | tools/jgraph/edit.c:273-294 | and otherwise copies the last item of the nearest graph that has one |
| Numbering.GraphEdited | tools/jgraph/edit.c:1132-1137 | graph n edits the graph with this number, which is new and empty if there was none, and leaves all others |
| Numbering.NewGraphEdited | tools/jgraph/edit.c:1138-1141 | newgraph edits a graph behind all others, numbered one above the last |
| Numbering.NewPageEdited | tools/jgraph/edit.c:1168-1170 | newpage adds a page without graphs and leaves all others |
| Numbering.GraphBeforeMeans | tools/jgraph/edit.c:1142-1148 | the graph before is the one in front on the page, or the last one of the nearest page that has any |
| Numbering.CopiedGraphEdited | tools/jgraph/edit.c:1142-1163 | copygraph edits a new graph with the axes of the one before, and fails exactly when there is none |
| Numbering.NumberedGraphEdited | tools/jgraph/edit.c:1149-1163 | with a number it has the axes of the graph of that number, and fails exactly when there is none and the new graph has another number |
| Numbering.ItemAdded | tools/jgraph/edit.c:1067-1101 | newcurve, newline and newstring add one item behind the others and change nothing else |
| Numbering.ItemCopied | tools/jgraph/edit.c:265-294 | a copy without a number adds one item with the look of the copied one and changes nothing else |
| Numbering.ItemsOnly | tools/jgraph/edit.c:1061-1066 | editing by number changes the items of its kind in the edited graph only |
| Numbering.AxesEdited | tools/jgraph/edit.c:1057-1106 | the axes change in the edited graph only: to what is named, or to those of the graph before it |
| LabelLines.LinesMean | tools/jgraph/process.c:731-737 | the lines joined by newlines are the text, none holds a newline, and there is one more than newlines |
| LabelLines.LinesUnique | tools/jgraph/process.c:731-737 | no other sequence of lines is the text |
| LabelLines.CutLines | tools/jgraph/process.c:731-737 | every newline of the buffer becomes a NUL, and their number is returned |
| LabelLines.StrLen | tools/jgraph/process.c:743-746 | the length of the string at a place of the buffer |
| LabelLines.Restore | tools/jgraph/process.c:745-749 | one newline is put back, and the next line is found |
| LabelLines.ProcessLabel | tools/jgraph/process.c:731-750 | the buffer is as before, the count is that of the newlines, the width that of the longest line |
| LabelLines.LongestMeans | tools/jgraph/process.c:738-750 | the length taken for the width is that of one of the lines, and none is longer |
| LabelLines.PrintLabel | tools/jgraph/printline.c:312-367 | exactly the lines of the text are printed, in order, and the buffer is as before |
| CounterTasks.PushesAre | tools/pcm/cpucounters.cpp:4014-4042 | one task for every online core and every socket is pushed, each once and onto its queue |
| CounterTasks.PushesInOrder | tools/pcm/cpucounters.cpp:4014-4042 | exactly the tasks of the online cores and of the sockets are pushed, in ascending order, a socket's onto the queue of its reference core or of core 0 |
| CounterTasks.StartInv | tools/pcm/cpucounters.cpp:4005-4010 | the cleared states satisfy the invariant |
| CounterTasks.MainKeeps | tools/pcm/cpucounters.cpp:1634-1639 | a push keeps the invariant |
| CounterTasks.WorkerKeeps | tools/pcm/cpucounters.cpp:1624-1630 | one step of a task keeps the invariant, whatever the other workers do |
| CounterTasks.WorkerCstate | tools/pcm/cpucounters.cpp:3850-3853 | an atomic addition keeps each C-state counter the sum of what was added to it |
| CounterTasks.RunKeeps | tools/pcm/cpucounters.cpp:4003-4047 | the invariant holds after every step of every interleaving |
| CounterTasks.Waits | tools/pcm/cpucounters.cpp:4046-4047 | no interleaving is longer than a fixed number of steps, and it has that length exactly when all futures are ready |
| CounterTasks.SomeStep | tools/pcm/cpucounters.cpp:4046-4047 | until then some thread can make a step, so the wait ends |
| CounterTasks.WhenReady | tools/pcm/cpucounters.cpp:4003-4047 | when all futures are ready every queue has run its tasks once and in order, cores and sockets have their samples, and C-state counters are sums mod 2^64 |
| CounterTasks.AccumulateCoreState | tools/pcm/cpucounters.h:2307-2310 | adding a core's counters to its socket keeps the sums over the cores so far |
| CounterTasks.AccumulateRow | tools/pcm/cpucounters.h:2347-2353 | adding a socket's counters to the system keeps the sums over the sockets so far |
| CounterTasks.Aggregate | tools/pcm/cpucounters.cpp:4049-4059 | both loops compute the sums mod 2^64 |
| CounterTasks.SumsAgree | tools/pcm/cpucounters.cpp:4049-4059 | the sum over the sockets of the sums over their cores is the sum over all online cores |
| CounterTasks.GetAllCounterStates | tools/pcm/cpucounters.cpp:4003-4060 | for every interleaving the counters of sockets and system are the sums mod 2^64 of the samples |
| BitFields.AndMask | tools/pcm/cpucounters.cpp:302-302 | masking with n ones keeps the last n digits |
| BitFields.MaskMeans | tools/pcm/cpucounters.cpp:270-283 | build_bit is a mask of as many ones as the field has digits |
| BitFields.ExtractMeans | tools/pcm/cpucounters.cpp:285-340 | extract_bits is a quotient and a remainder by powers of two, for both orders of its ends and every word width |
| BitFields.ExtractNothing | tools/pcm/cpucounters.cpp:872-872 | a wrapped end reads as zero |
| BitFields.Rebuilds | tools/pcm/cpucounters.cpp:870-876 | the three fields rebuild the APIC id exactly when the core field is not empty, or there is no SMT field, or the two digits read instead are zero |
| BitFields.RebuildsAll | tools/pcm/cpucounters.cpp:870-876 | they rebuild every id exactly when the core field is not empty or there is no SMT field |
| BitFields.L2Shift | tools/pcm/cpucounters.cpp:861-864 | the loop computes the logarithm |
| Topology.RankOrder | tools/pcm/cpucounters.cpp:1150-1154 | new numbers are in the order of the old ones, hence different, and below their count |
| Topology.RankOnto | tools/pcm/cpucounters.cpp:1150-1154 | every number below the count is used |
| Topology.NumberKeys | tools/pcm/cpucounters.cpp:1150-1154 | the loop over the map gives each key its rank |
| Topology.Enter | tools/pcm/cpucounters.cpp:971-989 | every listed processor is entered with all its fields, the tile included, and the map has exactly their packages |
| Topology.Renumber | tools/pcm/cpucounters.cpp:1156-1160 | online entries get their new number, others stay |
| Topology.RefCores | tools/pcm/cpucounters.cpp:1185-1192 | each socket gets its last online core |
| Topology.Discover | tools/pcm/cpucounters.cpp:971-1192 | for every list of processors: the thread, core and tile of each entry as quotients and remainders of its APIC id, as many sockets as there are packages, as many threads per core as ids share the first one's package and core, the cores per socket, and the reference cores |
| Topology.CountThreads | tools/pcm/cpucounters.cpp:1170-1177 | the loop counts the processors with the socket and the core of the first one |
| Topology.ThreadsMean | tools/pcm/cpucounters.cpp:1170-1177 | they are the listed processors with its package and core, or all that are not listed if it is not |
| Topology.EntryMeans | tools/pcm/cpucounters.cpp:870-876 | an entry has the thread, the core, the tile and the package of its APIC id by division |
| Topology.ThreadsAreSiblings | tools/pcm/cpucounters.cpp:1170-1177 | if the core field is not empty they are as many as the ids that differ from the first one in the SMT field only |
| Topology.PerSocketMeans | tools/pcm/cpucounters.cpp:1178-1178 | the cores of a socket are the most that all sockets can have with that many threads each |
| Topology.TileMeans | tools/pcm/cpucounters.cpp:870-876 | the tile of a processor is its APIC id without the lowest digits that the processors of an L2 cache share |
| Topology.NumbersMean | tools/pcm/cpucounters.cpp:1150-1160 | two processors get the same number exactly when they are in the same package, in the order of the packages |
| Topology.NumberUsed | tools/pcm/cpucounters.cpp:1145-1154 | every socket number belongs to some processor |
| Topology.EveryReference | tools/pcm/cpucounters.cpp:1183-1192 | every socket has a reference core unless nothing is listed |
| Numastat.Averages | all/c/parse_numastat.h:76-93 | the nested loops compute the running mean of every node |
| Numastat.QuotientMeans | all/c/parse_numastat.h:91-91 | the division cuts off toward zero |
| Numastat.AverageBetween | all/c/parse_numastat.h:89-92 | the mean lies between any bounds of the samples |
| Numastat.AverageNear | all/c/parse_numastat.h:89-92 | after N samples it differs from the exact mean by at most (N-1)/2 |

## Left out

- Jmalloc.Allocator.Malloc: does not model the overflow of 32-bit sizes and counters near INT_MAX; integers are unbounded.
- Jmalloc.Allocator.Free: the first checksum, in the header, is never damaged, because a legal program stores only into its blocks; only the second one is modelled.
- Jmalloc.Allocator.Realloc: the same holds for its test of the first checksum.
- Jmalloc.Allocator.Sbrk: memory from the operating system is new, and other users of sbrk appear only as gaps between segments; headers are kept in maps beside the bytes they occupy.
- `jmalloc_print_mem`, `jmalloc_check_mem` and `mallopt`: diagnostics.
- TokenReader.Reader.NextToken: for finitely nested includes; a file that includes itself is read until the system runs out of streams. A character 0xFF, which the source takes for the end of a file, ends it here too.
- TokenReader.Reader.GetToken: the fixed size of the token buffer and the line numbers of error messages.
- TokenReader.Reader.GetLines: lines with NUL characters; the C string ends there, and the test for a backslash reads memory that was never written.
- TokenReader.Reader.GetMultiline: texts with NUL characters, for the same reason.
- TokenReader.Reader.GetLabel: texts with NUL characters, for the same reason.
- TokenReader.Reader.PushIostack: the output of a shell command is a function of the command; closing streams, and the return value of the command, do not appear.
- DrawPaths.DrawPolyline: arrow heads, marks at the points and clipping. Coordinates are real, not floats. Where a dash pattern stands at a segment is told by how many segments come before it in its path, not by their length.
- AxisMarks.Axis.Insert: the digits of a label; its value is modelled, and the size of a mark follows from its being major.
- AxisMarks.Axis.Process2: logarithmic axes, floating-point rounding, and the conversion of a start to int beyond its range.
- Numbering.StepKeeps: on values, so that pages, graphs and their lists are nested sequences; the lists themselves are heap objects in Lists. What an edit changes in a curve or a string is one abstract value.
- Lists.List.PrioInsert: the three fields that all nodes share; the others belong to their users.
- LabelLines.ProcessLabel: the rotated bounding box, which needs trigonometry.
- CounterTasks.WhenReady: a worker holds the lock of its queue while it runs a task, so fewer interleavings happen than the model allows. The read of one register block is one step, as no other task touches it. Thermal headroom, link counters and counters with special values for invalid readings are left out.
- BitFields.ExtractMeans: for a field that ends one place below the highest, the source subtracts 1 from the least number of a signed type, which C++ leaves undefined; it is taken to wrap. MaskMeans rests on the same.
- Topology.Discover: the Linux path; no processor has the broadcast id, each is listed once, and the widths leave a socket field, as wider shifts are undefined in C++.
- Numastat.Averages: parsing of the file and the geometric mean, which needs logarithms.
- `show_graph` and the other printers field by field, the parser of attributes, `atof` and `atoi`.
- MSR, PCI and perf access, the tables of CPU models, and the getters over two counter states in `tools/pcm`.
- The table and graph generators of `all`, whose libraries are not in the repository.
