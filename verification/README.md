# Models of kBuild's caches, readers and shell

Dafny models of the parts of kBuild where state changes in place and mistakes are silent, with proofs of
what those parts are for. Each component has a specification (plain functions and predicates), the
operations in the form the C code has them (classes with mutable fields, arrays written in place, loops
with explicit stacks), and theorems about the specification.

| component | files | what is proved about every input, run or state |
|---|---|---|
| preprocessor output optimiser | `LineControl`, `DirectiveGrammar`, `OptimizerSpec`, `OptimizerTheorems`, `OptimizerSize`, `CppReader` | which lines are directives; the output means the same to a compiler as the input, exactly when conditions on the input hold, byte for byte and with CR LF line ends; nothing is written that need not be; however reads cut the input, the slices handed out concatenate to the same text |
| object cache | `ObjCache`, `ObjCacheGrammar`, `ObjCacheProtocol`, `ObjCacheReuse`, `ObjCacheOffers`, `ObjCacheHistory`, `ObjCacheTargets` | in every interleaving of processes: no object is copied while it is rebuilt, memory and file agree under the lock, generations grow, exactly when a compiler is run, no output is compiled twice, why a digest is gone, and exactly when copied objects have the wanted target |
| fast comparison | `FastCompare`, `FastGrammar`, `FastCompareEnds`, `FastCompareLines`, `FastComparePlaces`, `FastCompareMatches`, `FastCompareLoops`, `FastCompareBareLine` | exactly when it ends, identical texts match, and a match means the same lone braces, the same significant lines, but for the exact exception of a bare `#line`, and the same files and line numbers, but for what is counted twice; where that is even, exactly which texts match |
| dependency scanner | `DepScan`, `DepGrammar`, `DepCuts`, `DepEscape` | the names collected are those of the line directives, in whatever chunks of whole lines the text comes; exactly when another cut matters |
| AVL tree | `AvlSpec`, `AvlTree`, `AvlLookup`, `AvlWalk` | insertion and removal keep order, exact heights and balance and change one key in every tree whose height fits the 19-entry stacks, which all trees of 17709 nodes do; lookups and walks |
| dependency graph and file | `DepNames`, `DepLaws`, `DepGraph`, `DepFile`, `DepReading`, `DepFileIO` | the cycle check is right, no run closes a cycle, exactly when one slips in, reading undoes writing, and exactly when the check lets it |
| shell interpreter | `ShellSpec`, `ShellLaws`, `ShellLoops`, `ShellEval` | the skip flags implement structured outcomes, which keep the laws of the shell; what becomes of a return inside a loop |
| command hash | `CmdHash`, `CmdHashPaths`, `CmdHashRuns` | a remembered location is what a fresh search of PATH finds; what becomes of a function defined over one, for every value the union may hold |
| shell stack | `StackAlloc` | allocations are disjoint, marks undo exactly what came after them, growing strings are kept |
| patterns and fields | `PatternMatch`, `PatternLaws`, `FieldSplit`, `FieldLaws` | the matcher decides the pattern language, and what its characters stand for; IFS splitting yields the one possible list of fields |

Conventions: a method named like a C function is that function. C strings are `string` values; where the
code writes into a buffer the model has an array and positions for pointers. 32-bit counters wrap
(`Wrap`, `% UINT32`, `% WIDTH`). Ghost parameters of methods carry the abstract state only. `hide`
statements keep function bodies out of proofs that do not need them; every lemma does its own induction.
`Basics` holds what several models share.

## Where the code does less than its description says

Each of these is a theorem with the exact condition, or a lemma with a concrete input, or both.

- A directive `#line N ""` after a named file is written as `#line N`, so the file name stays; meaning is kept
  if and only if no program text follows such a directive (`NamesKept`) and the text does not end in an
  unterminated line of program text (`LastLineOk`): `OptimizerTheorems.MeaningPreserved`.
- The CRLF branch (src/kObjCache/kObjCache.c:1607-1625) drops the CR and does not count a line it has written, so
  a later directive can be dropped, or blank lines replaced by a directive, wrongly. Byte for byte any line of
  program text with a CR changes the meaning (`OptimizerTheorems.MeaningPreserved`). Where CR LF is the end of a
  line, meaning is kept if and only if, besides the two conditions above, no program text is reached while the
  uncounted lines put the readers of input and output ahead by different numbers (`InPlace`):
  `OptimizerTheorems.CrLfMeaningPreserved`, with an input that fails in `OptimizerTheorems.CrLfLosesALine`.
- A cache file written with generation 0, after 2^32 writes, is discarded by its readers:
  `ObjCache.ReadableUnlessWrapped`.
- The search for a match never looks at the wanted target (`ObjCacheProtocol.TargetIsFree`), so an object made for
  another one can be copied (`ObjCacheTargets.WrongTargetCopied`). Over every run from the start, each copy takes an
  object with the wanted target if and only if at each copy the entry copied from states that target, the test that
  src/kObjCache/kObjCache.c:4857-4858 leaves out; where it holds, entries keep telling the targets of their objects
  (`ObjCacheTargets.CopiesAreWanted`). That is sure as long as only one target is ever asked for
  (`ObjCacheProtocol.RunKeepsTarget`).
- The fast comparison need not end. For every two texts it never does if and only if its rounds come to where the new
  output has been read to its end, its last line is significant and not terminated, and the other text has that line
  in the same place: both are then taken up again (`FastCompareEnds.WhenItEnds`). A text compared with itself comes
  there exactly if its last line is significant and not terminated (`FastCompareEnds.SelfMatch`).
- A `#line` that is the last thing on its line takes its number from the next one, so texts can match that differ in
  such a line (`FastCompareBareLine.BareLineSlipsIn`): a shared line is lost in one text exactly when it is bare, the
  texts differ right behind it, and only there a number and a file follow (`FastCompare.LostExactly`). Matching texts
  have the same code if and only if none is lost (`FastCompare.MatchMeansSameCode`).
- The fast comparison counts some lines twice when it compares line numbers: an empty line at the difference (the scan
  backward meets the newline that has been counted, src/kObjCache/kObjCache.c:3588-3589) and lone braces that are
  skipped (3722-3723, then 3696-3699). And the scan backward does not see a line statement behind white space other
  than blanks and tabs, which the scan forward does (`FastComparePlaces.HiddenStatement`). What is compared is the file
  and number a reading forward gives, plus exactly these extra counts: `FastCompareLines.WhereIs`. So a match means
  that every significant line has kept its file and number if and only if the extra counts agree at every difference
  (`FastComparePlaces.MatchMeansSamePlaces`); an empty line in the place of two with a blank matches, though all lines
  behind it have moved (`FastComparePlaces.EmptyLineSlipsIn`). Where the extra counts agree, and so wherever there is
  nothing to be counted twice, texts match if and only if they have the same significant lines in the same places and
  the same lone braces between them (`FastCompareMatches.MatchIff`, `FastCompareMatches.PlainMatchIff`).
- The dependency scanner returns without storing its state when a chunk ends inside a line that was given up, or
  whose name was found, in the same chunk (src/kObjCache/kObjCache.c:940-941): exactly when this loses the state is
  `DepCuts.StateIsKept`, and `DepCuts.AnyCuts` for any number of chunks; exactly when a text cut in two gives other
  names is `DepCuts.CutInTwo`, and an input is in `DepCuts.CutInsideLine`.
- The cycle check looks up a dependant's name before its escapes are removed. Adding keeps a graph acyclic if and
  only if the dependant is refused, or its name as it is stored does not lead to the rule
  (`DepGraph.DepTree.AddDepend`), so with conversion a cycle can be added (`DepGraph.ConvertedNameSlipsIn`).
  Reading a written file back with the check gives the rules as they were if and only if no dependant's name, as it
  is written, leads to its rule in what is read before it (`DepFile.ReadUndoesWrite`). Acyclic graphs whose rule
  names have no carets are such (`DepFile.PlainIsClear`); others can lose an edge (`DepFile.CaretsClash`).
- The cycle check gives up below 32 levels, and the edge is added. It answers TRUE only for a way of at most 34
  rules, so a cycle can be closed through a longer one: `DepGraph.TooDeepSlipsIn`, with `DepGraph.DeepEnough` beside it.
- A dependant on the rule's own line counts only if a backslash ends the line and is the first one behind the colon, so
  one with a backslash in its name is lost with all that follow (`DepReading.BackslashLoses`). A line that starts with
  a tab is taken for an empty one and ends the dependants (`DepReading.GapMeans`).
- A timestamp survives writing and reading if and only if it is empty, or at least 24 characters long and not
  followed by a space: `DepFile.StampSurvives`. `trimR` tests the first character for a tab instead of the last,
  which `DepFile.TrimR` models as it is.
- A `return` in the condition of a loop loses its status. For every condition, body and number of rounds the loop
  ends with the status of the last body, or 0, and so keeps the return's own if and only if the two are equal; from
  the body it is kept (`ShellLoops.ReturnFromLoop`, `ShellLoops.ReturnFromFirstCondition`, and a return of 5 that
  leaves 0 in `ShellLoops.ReturnLost`). There is no other way for a return to leave a loop
  (`ShellLoops.HowLoopsReturn`).
- A function defined over a location that `cd` had marked keeps the mark, and the next lookup takes half of the
  function's pointer for the index of a directory (src/kash/exec.c:714-755, 813-818). For every value of it: the
  function is answered exactly if the value is the index of an absolute directory and no relative one before it has
  the command, and the answer is that of a full search exactly if no absolute directory that is passed over or stopped
  at makes a difference (`CmdHash.FunctionAnswered`, `CmdHash.CmdTable.FindCommand`). The entry is then unmarked,
  overwritten or deleted accordingly; all three happen in `CmdHash.StaleFunction`.
- A lookup that finds a location enters it over a function when it did not want functions, and a lookup of
  "kmk_builtin_" and x over a function "kmk_" and x; in no other way, but for stale functions, does a lookup, cd or a
  change of PATH take a function out of the table: `CmdHashRuns.FunctionStays`.
- After `STACKSTRNUL` had to grow the block, `sstrnleft` is one too small: `StackAlloc.StackState.StackStrNul`. When
  characters are put behind it, the next growth leaves what stood behind the string in front of the new character:
  `StackAlloc.StackState.StPutc`.
- An escaped name that fills its buffer exactly is accepted, and its terminator written behind the buffer
  (src/fastdep/fastdep.c:3856, with all of the buffer passed at 3551 and 3572): `DepNames.NameToMake` says that it is
  for no other names.
- The remark "Up to 2^16 nodes" (src/fastdep/avl.h:28) does not hold: balance alone allows height 20 from 17710
  nodes on (`AvlSpec.SparseIsBalanced`), one more than the stacks have entries.

Seen on reading, without a lemma: the clean-up guard `% 19 == 19` (src/kObjCache/kObjCache.c:4730) is never true, so
unlocking never cleans.

## Model

| member | source | states |
|---|---|---|
| LineControl.SplitUnlines | src/kObjCache/kObjCache.c:1311-1322 | a text falls into its lines in one way only: splitting undoes joining |
| LineControl.ClassifyLineDirective | src/kObjCache/kObjCache.c:1337-1364 | a directive that the optimiser prints is parsed back to the same number and name |
| LineControl.NumberOfDecimal | src/kObjCache/kObjCache.c:1438-1451 | the 32-bit number parser undoes decimal printing |
| DirectiveGrammar.ControlIs | src/kObjCache/kObjCache.c:1408-1497 | a line is a directive with this number and name if and only if it is white space, a hash, "line" between blanks or blanks alone, digits of that value modulo 2^32, and blanks with or without a quoted name among them |
| DirectiveGrammar.BlankIs | src/kObjCache/kObjCache.c:1590-1614 | a line counts for its number alone if and only if it is white space |
| DirectiveGrammar.BothForms | src/kObjCache/kObjCache.c:1422-1438 | with and without the word "line", and with and without a name, a directive says the same |
| DirectiveGrammar.NumberedIs | src/kObjCache/kObjCache.c:1418-1457 | exactly which lines get as far as a number, so that a name may follow |
| OptimizerSpec.ReadFlushed | src/kObjCache/kObjCache.c:1381-1405 | a flush, by newlines or by a directive, brings the reader of the output to the current line, ahead of it by the uncounted lines unless a directive says otherwise, even when the counters have wrapped |
| OptimizerSpec.StepInStep | src/kObjCache/kObjCache.c:1590-1656 | every line, ending in LF or CR LF, keeps the state in step with what a compiler knows from the input and from the output so far, up to the lines not counted; it shows both the same line number exactly when these agree |
| OptimizerSpec.RunInStep | src/kObjCache/kObjCache.c:1583-1657 | so does every run over any lines, for both levels of optimisation; the events of the output are those of the input exactly when no program text is reached out of place |
| OptimizerSpec.OutputHasNoNewlines | src/kObjCache/kObjCache.c:1583-1657 | what is written as one line is one line |
| OptimizerTheorems.FileNames | src/kObjCache/kObjCache.c:1500-1580 | exactly when the reading that ignores empty names and the reading that takes them differ in the file |
| OptimizerTheorems.ReadingsAgree | src/kObjCache/kObjCache.c:1500-1580 | both readings give the same events if and only if no program text follows a name taken away |
| OptimizerTheorems.OutputMeaning | src/kObjCache/kObjCache.c:1583-1669 | for every text the output is read as the lines written for its terminated lines: what is left at its end adds nothing |
| OptimizerTheorems.CrLfMeaningPreserved | src/kObjCache/kObjCache.c:1583-1669 | for every text, CR LF being an end of line: output and input mean the same to a compiler if and only if the last line is terminated or carries no text, no file name is taken away, and no program text is reached out of place |
| OptimizerTheorems.MeaningPreserved | src/kObjCache/kObjCache.c:1583-1669 | for every text, byte for byte: output and input mean the same if and only if no line of program text ends in CR LF, the last line is terminated or carries no text, and no file name is taken away |
| OptimizerTheorems.CrLfLosesALine | src/kObjCache/kObjCache.c:1607-1625 | an input with a CRLF line that moves the line behind it |
| OptimizerSize.GapIsShortest | src/kObjCache/kObjCache.c:1381-1405 | lines held back become blank lines or one directive, whichever has fewer characters |
| OptimizerSize.WhatIsWritten | src/kObjCache/kObjCache.c:1500-1656 | for all lines before and the next one: a blank line, and a directive that neither changes the file nor goes back, are not written; a directive that does is, and program text, behind what brings the output up to it |
| CppReader.PreprocessorReader.constructor | src/kObjCache/kObjCache.c:1203-1228 | the reader starts valid with nothing read and nothing handed out |
| CppReader.PreprocessorReader.GrowBuffer | src/kObjCache/kObjCache.c:1249-1255 | the buffer grows and keeps its contents |
| CppReader.PreprocessorReader.OptInsert | src/kObjCache/kObjCache.c:1258-1291 | the text inserted goes behind the output, the lines it replaces go, the unread tail and its terminator survive a move |
| CppReader.PreprocessorReader.OptCommit | src/kObjCache/kObjCache.c:1294-1307 | everything held back becomes output, and the output's line number catches up |
| CppReader.PreprocessorReader.GetEol | src/kObjCache/kObjCache.c:1311-1322 | the first newline, or the one a carriage return precedes, or the end of the data when all is read |
| CppReader.PreprocessorReader.SetLocation | src/kObjCache/kObjCache.c:1324-1334 | the new file and the line number of the next line, nothing else |
| CppReader.PreprocessorReader.OptFlush | src/kObjCache/kObjCache.c:1381-1405 | the gap goes out as newlines or as one directive, whichever is shorter |
| CppReader.PreprocessorReader.OptParseLine | src/kObjCache/kObjCache.c:1408-1497 | the parse in the buffer finds the directives of the grammar, of both forms |
| CppReader.PreprocessorReader.OptHandleLine | src/kObjCache/kObjCache.c:1500-1580 | a directive is dropped, held back or rewritten as the specification says, whatever insertions did to the offsets |
| CppReader.PreprocessorReader.EndLine | src/kObjCache/kObjCache.c:1599-1605 | after a newline the buffer matches the next state of the specification |
| CppReader.PreprocessorReader.Opt | src/kObjCache/kObjCache.c:1583-1657 | all complete lines are processed as the specification says; a part of a line stays unread |
| CppReader.PreprocessorReader.Finalize | src/kObjCache/kObjCache.c:1660-1669 | what is left at the end of the input is finished |
| CppReader.PreprocessorReader.Pull | src/kObjCache/kObjCache.c:1700-1722 | one read of any size adds to the output and loses nothing |
| CppReader.PreprocessorReader.Read | src/kObjCache/kObjCache.c:1686-1753 | the slice is exactly what the output has grown by; the saved character is put back and the next one replaced |
| CppReader.PreprocessorReader.GrabOutput | src/kObjCache/kObjCache.c:1763-1770 | the buffer handed out is the whole output |
| CppReader.Consume | src/kObjCache/kObjCache.c:1686-1770 | for every way of cutting the input into reads the slices concatenate to the optimised text, and so does the grabbed buffer |
| ObjCache.ChainAdded | src/kObjCache/kObjCache.c:1947-1979 | adding a chain of checksums loses none and invents none |
| ObjCache.ReadsBack | src/kObjCache/kObjCache.c:4304-4592 | reading the file gives the digests that were written, their chains as sets, the same generation and a next key beyond all keys |
| ObjCache.ReadableUnlessWrapped | src/kObjCache/kObjCache.c:4512-4592 | the digests can be read back if and only if the generation has not wrapped to 0 |
| ObjCacheGrammar.AcceptedIs | src/kObjCache/kObjCache.c:4327-4504 | the lines of a cache file are read as an index if and only if none is unknown, repeated or for a digest not announced, the end is fine, and the generation and everything of each digest are there |
| ObjCacheGrammar.FileSays | src/kObjCache/kObjCache.c:4327-4504 | an index read has the generation, the digests and of each the path, target, key, arguments and checksums that the lines state |
| ObjCacheGrammar.BigIsReread | src/kObjCache/kObjCache.c:4330-4345 | a file just written by the generation in memory is left unread if and only if the generation prints as a positive number; if read, it gives the same digests |
| ObjCache.WithoutOthers | src/kObjCache/kObjCache.c:4771-4792 | removing a path removes its digests and no others |
| ObjCache.WithoutWellFormed | src/kObjCache/kObjCache.c:4771-4792 | keys stay distinct and nonzero and paths unique under removal |
| ObjCache.FindMatchIs | src/kObjCache/kObjCache.c:4845-4887 | a match found is usable, none is overlooked, and only matches that fail validation are dropped |
| ObjCache.FindsLast | src/kObjCache/kObjCache.c:4845-4887 | of several usable matches the last is found |
| ObjCache.ReadsOnlyNews | src/kObjCache/kObjCache.c:4641-4710 | a file of the generation in memory is not read again, one of another is |
| ObjCache.BeyondKeys | src/kObjCache/kObjCache.c:4304-4504 | the next key is one more than the greatest read, as long as that is not the last of 32 bits |
| ObjCache.FreeKey | src/kObjCache/kObjCache.c:4804-4839 | among as many keys tried as there are digests, and one more, one is free, also across the wrap to 1 |
| ObjCache.KObjCache.Read | src/kObjCache/kObjCache.c:4304-4504 | the index in memory becomes what the lines say; a bad file leaves an empty one, marked new |
| ObjCache.KObjCache.Write | src/kObjCache/kObjCache.c:4512-4592 | the lines written are the digests under the next generation |
| ObjCache.KObjCache.Lock | src/kObjCache/kObjCache.c:4641-4710 | an empty file is a new cache, an equal generation is not read again, anything else is |
| ObjCache.KObjCache.Unlock | src/kObjCache/kObjCache.c:4718-4759 | a dirty index is written, a clean one leaves the file alone |
| ObjCache.KObjCache.RemoveEntry | src/kObjCache/kObjCache.c:4771-4792 | the digests without the path, found by walking backwards over an array that shrinks |
| ObjCache.KObjCache.InsertEntry | src/kObjCache/kObjCache.c:4804-4839 | the digest goes to the end under the first free key, which is not 0 |
| ObjCache.KObjCache.FindMatchingEntry | src/kObjCache/kObjCache.c:4845-4887 | the last usable match, and the digests left after validation |
| ObjCacheProtocol.GiveLockIsUnlock | src/kObjCache/kObjCache.c:4718-4759 | the step of the protocol does to index and file what the cache object does |
| ObjCacheProtocol.LockCoheres | src/kObjCache/kObjCache.c:4641-4710 | what memory holds outside the lock is enough to skip reading an equal generation |
| ObjCacheProtocol.MatchIsGood | src/kObjCache/kObjCache.c:5202-5213 | the entry matched is at rest and its object is the one wanted |
| ObjCacheProtocol.NobodyCopies | src/kObjCache/kObjCache.c:5174-5235 | an entry that is being rebuilt is copied by nobody |
| ObjCacheProtocol.StepKeeps | src/kObjCache/kObjCache.c:5157-5235 | every step of every process keeps the invariant of files, objects, memories and phases |
| ObjCacheProtocol.RunKeeps | src/kObjCache/kObjCache.c:5157-5235 | and so does every interleaved run |
| ObjCacheProtocol.ReuseIsSafe | src/kObjCache/kObjCache.c:5174-5235 | whatever is about to be copied is a finished object, not being rebuilt, made with the wanted arguments from a source that meant the same |
| ObjCacheReuse.FindOffers | src/kObjCache/kObjCache.c:4845-4887 | a match is found if and only if a digest of another path in the cache file offers the arguments and the checksum, and its entry and object confirm it |
| ObjCacheReuse.WhenCompiled | src/kObjCache/kObjCache.c:5174-5235 | in every run: a process calls the compiler if and only if its object cannot stay, being outdated at its start or by its preprocessor output, and the cache was new and empty or offered no other |
| ObjCacheReuse.WhoStarted | src/kObjCache/kObjCache.c:5157-5200 | every process of a run has such a start |
| ObjCacheOffers.WhatIsLeft | src/kObjCache/kObjCache.c:5226-5235 | in every run: a process that finishes leaves an up-to-date object and entry, and in the cache file a digest of them; they know the checksum of its one output, and besides exactly the old ones, if the texts compared equal |
| ObjCacheOffers.StaysConfirmed | src/kObjCache/kObjCache.c:4845-4887 | in every run: a digest that its entry confirms stays in the cache file until its own process is at work again, whoever searches in between |
| ObjCacheOffers.CompiledOnce | src/kObjCache/kObjCache.c:5174-5235 | in every run: what one process has finished no later process of another path with the same arguments and output compiles again, as long as the first is left alone |
| ObjCacheOffers.NotTwice | src/kObjCache/kObjCache.c:5157-5235 | in every run: nor does a later process of its own path, with the same arguments, target and output |
| ObjCacheProtocol.TargetIsFree | src/kObjCache/kObjCache.c:4845-4887 | nothing the processes keep to depends on the wanted target, and with any other the same object is found |
| ObjCacheProtocol.RunKeepsTarget | src/kObjCache/kObjCache.c:5157-5235 | in every run in which only one target is asked for, every object has it |
| ObjCacheProtocol.RebuilderHasNoDigest | src/kObjCache/kObjCache.c:5174-5235 | a process that rebuilds outside the lock has no digest in the cache file |
| ObjCacheProtocol.FileStaysWellFormed | src/kObjCache/kObjCache.c:4804-4839 | in every reachable state keys are nonzero and distinct and each path has at most one digest |
| ObjCacheProtocol.LockedCoheres | src/kObjCache/kObjCache.c:4641-4710 | after any lock in any run, memory has the digests of the file |
| ObjCacheProtocol.GenerationGrows | src/kObjCache/kObjCache.c:4512-4592 | the file changes only together with its generation, by one |
| ObjCacheProtocol.GenerationsGrow | src/kObjCache/kObjCache.c:4512-4592 | over whole runs an equal generation means an unchanged file |
| ObjCacheProtocol.WhyDigestsLeave | src/kObjCache/kObjCache.c:4771-4887 | a digest leaves the file only in a step of its own process, or of one that counts its path as dropped; when and why that is so, over whole runs, is WhyDigestsAreGone |
| ObjCacheProtocol.DroppedIsBad | src/kObjCache/kObjCache.c:4156-4180 | whatever is dropped promised a match its entry no longer keeps |
| ObjCacheHistory.WhenDropped | src/kObjCache/kObjCache.c:4845-4887 | in every run, what a process counts as dropped was dropped by a search of its own, and it has held the lock since |
| ObjCacheHistory.WhyDigestsAreGone | src/kObjCache/kObjCache.c:4771-4887 | in every run, a digest of the file that is gone later was taken out by a step of its own process, or by one that had found its entry not to keep what it promised |
| ObjCacheTargets.StepTold | src/kObjCache/kObjCache.c:5157-5235 | entries go on stating the targets of their objects, and objects taken for up to date have the target of their process, in every step but a copy whose source states another target |
| ObjCacheTargets.GuardDecides | src/kObjCache/kObjCache.c:4845-4887 | what the entry copied from states decides whether the object copied has the wanted target |
| ObjCacheTargets.CopiesAreWanted | src/kObjCache/kObjCache.c:4845-4887 | over every run from the start: all copies take objects with the wanted target if and only if every source's entry states it, and then all entries stay true |
| ObjCacheTargets.MatchTarget | src/kObjCache/kObjCache.c:4845-4887 | the digest of a match has the target that its entry states, so the test could be made on it during the search |
| ObjCacheTargets.WrongTargetCopied | src/kObjCache/kObjCache.c:5202-5213 | a run from the start in which the object of one target is copied for another |
| FastGrammar.StatementIs | src/kObjCache/kObjCache.c:3535-3573 | a text starts with a line statement if and only if it is a hash, blanks, nothing or "line" and any one character, digits of that value modulo 2^32, at least one blank, and the file |
| FastGrammar.KindIs | src/kObjCache/kObjCache.c:3694-3735 | exactly which lines are skipped as blank, as statements and as lone closing braces, and that all others are significant |
| FastCompare.SigConcat | src/kObjCache/kObjCache.c:3694-3735 | whole lines at the head of a text can be classified on their own if and only if the last of them can |
| FastCompare.SharedLines | src/kObjCache/kObjCache.c:3694-3735 | whole lines that two texts share add no more to the account of the two than the loss of the last of them; lone braces stay equal |
| FastCompare.LostExactly | src/kObjCache/kObjCache.c:3535-3573 | a shared line is significant in one text only, exactly if it is a bare "#line" and a number and a file follow in the other only |
| FastCompare.SkipSound | src/kObjCache/kObjCache.c:3694-3735 | what is skipped is insignificant, the lone braces are counted, and the loop stops at a significant line |
| FastCompare.ResumeProgress | src/kObjCache/kObjCache.c:3661-3818 | going on after a difference gets past it, in newline-terminated text |
| FastCompare.ResumeSound | src/kObjCache/kObjCache.c:3661-3818 | the outcome behind a difference accounts for everything since the texts last agreed at the start of a line, with the lines lost |
| FastCompare.MatchMeansSameCode | src/kObjCache/kObjCache.c:3620-3825 | a match means as many lone closing braces, and the same significant lines if and only if none is lost at a difference, as without bare lines; a text matches itself |
| FastCompare.SameTextsAtTheEnd | src/kObjCache/kObjCache.c:3635-3820 | identical texts match at their ends if and only if no significant line is left unterminated; otherwise the state repeats |
| FastCompareLines.Backward | src/kObjCache/kObjCache.c:3584-3609 | the scan backward gives the file in force and the number of a reading forward, in which statements stand behind blanks only |
| FastCompareLines.WhereIs | src/kObjCache/kObjCache.c:3690-3802 | for every text and start of a line: the location compared is the one of a reading forward, plus one for an empty line at the difference and one for each lone brace skipped since the last statement |
| FastCompareLines.ResumeIff | src/kObjCache/kObjCache.c:3735-3818 | the comparison goes on if and only if as many lone braces were skipped, the next significant lines are the same, and the same place is computed for both; it is over with a match if and only if nothing is left |
| FastComparePlaces.MatchMeansSamePlaces | src/kObjCache/kObjCache.c:3620-3825 | a match means that every significant line has kept its file and number, if and only if at every difference the extra counts agree |
| FastCompareMatches.MatchIff | src/kObjCache/kObjCache.c:3620-3825 | where the extra counts agree at every difference the comparison comes to, texts match if and only if they have the same significant lines in the same files and lines, with the same lone braces between them |
| FastCompareMatches.PlainMatchIff | src/kObjCache/kObjCache.c:3620-3825 | texts without empty lines and lone braces match if and only if they have the same significant lines in the same files and lines, whatever other blank lines and line statements there are |
| FastComparePlaces.BlankLineMatters | src/kObjCache/kObjCache.c:3803-3806 | wherever a file is in force, one blank line more in the old output makes the comparison fail |
| FastComparePlaces.MovedLine | src/kObjCache/kObjCache.c:3803-3806 | a line that moved by one, in a pair of texts |
| FastComparePlaces.EmptyLineSlipsIn | src/kObjCache/kObjCache.c:3588-3589 | pairs of texts that match although the lines behind the difference have moved |
| FastComparePlaces.HiddenStatement | src/kObjCache/kObjCache.c:3594-3598 | a line statement behind a carriage return is read forward and not found backward |
| FastCompareEnds.RoundOnward | src/kObjCache/kObjCache.c:3640-3818 | for all texts, a round that does not end the comparison gets on in the new output, or that is at its end and the round does not fall back in the other text; the way back to the start of the line stays inside both |
| FastCompareEnds.RoundRepeats | src/kObjCache/kObjCache.c:3661-3818 | at the end of the new output a round comes back to its own start if and only if an unterminated significant line stands at the end of the one and in front of the place in the other text, at the same location |
| FastCompareEnds.WhenItEnds | src/kObjCache/kObjCache.c:3620-3825 | for all texts: the comparison goes on for ever if and only if its rounds come to such a place, and otherwise is over, with one outcome, after some number of rounds and any more |
| FastCompareEnds.SelfMatch | src/kObjCache/kObjCache.c:3620-3825 | the comparison of a text with itself is over with a match after finitely many rounds, or, if its last line is significant and not terminated, after no number of rounds |
| FastCompareLoops.IsLineStatement | src/kObjCache/kObjCache.c:3535-3573 | the pointer loops accept what the grammar does and give the number, modulo 2^32, and the place of the name |
| FastCompareLoops.FindFileStatement | src/kObjCache/kObjCache.c:3584-3609 | the scan backwards finds the last statement alone on its line, newlines counted |
| FastCompareLoops.SkipLines | src/kObjCache/kObjCache.c:3694-3776 | the loop over one text, with its line number, file and braces |
| FastCompareLoops.Locate | src/kObjCache/kObjCache.c:3677-3683 | steps of 512, 64 and 1 find the first difference |
| FastCompareLoops.CompareFast | src/kObjCache/kObjCache.c:3620-3825 | for all texts, the outcome of the rounds, or none exactly when they never end; on newline-terminated new output there is one, and a match has the properties above; identical texts match unless a significant line is left unterminated |
| FastCompareBareLine.BareLineSlipsIn | src/kObjCache/kObjCache.c:3547-3549 | two texts that match although one has a significant line more |
| DepScan.IsEscaped | src/kObjCache/kObjCache.c:885-895 | an odd run of backslashes escapes |
| DepScan.UnescapeInPlace | src/kObjCache/kObjCache.c:852-877 | the string in the buffer becomes its unescaped form, terminated |
| DepScan.LineIs | src/kObjCache/kObjCache.c:929-1105 | fed a line, the machine enters the name that an independent parse of the line finds, or nothing |
| DepGrammar.LineNameIs | src/kObjCache/kObjCache.c:929-1105 | a line gives a name if and only if it is blanks, a hash, "line" between blanks or blanks alone, a number, blanks or none, and the name in quotes, the quotes inside being escaped and the last one not |
| DepScan.TextIs | src/kObjCache/kObjCache.c:929-1105 | from a text it collects the names of its directives, each once, in order |
| DepScan.LineEndIsStored | src/kObjCache/kObjCache.c:938-945 | a chunk that ends with a line end leaves the right state |
| DepScan.ChunksDoNotMatter | src/kObjCache/kObjCache.c:929-1105 | chunks of whole lines have the effect of the whole text |
| DepScan.Collected | src/kObjCache/kObjCache.c:929-1105 | the names collected, for every text with closed quotes and every cut at line ends |
| DepLaws.NamesOnce | src/kObjCache/kObjCache.c:1076-1086 | each name is collected once, and none that was not entered |
| DepLaws.FirstComesFirst | src/kObjCache/kObjCache.c:1076-1086 | a name stands where it was first entered |
| DepCuts.StateIsKept | src/kObjCache/kObjCache.c:938-945 | for every state and chunk: the right state is left behind if and only if the reader was already looking for the end of the line, or the chunk does not end inside a line given up or named in it |
| DepCuts.CutInTwo | src/kObjCache/kObjCache.c:929-1105 | a text cut in two gives the names of the whole text if and only if the line cut is not lost, or its rest is no directive, or names what is known or comes next anyway |
| DepCuts.AnyCuts | src/kObjCache/kObjCache.c:929-1105 | however often a text is cut, behind every chunk the scanner is where the text as a whole would have it, if and only if no chunk ends inside a line given up or named in it |
| DepCuts.CutInsideLine | src/kObjCache/kObjCache.c:940-941 | a cut inside a line that changes what is collected |
| DepScan.DepState.AddName | src/kObjCache/kObjCache.c:1076-1086 | the name in the buffer is unescaped and added unless it is the last one again |
| DepScan.DepState.ScanName | src/kObjCache/kObjCache.c:1053-1092 | up to the closing quote or the end of the chunk, as feeding the characters one by one |
| DepScan.DepState.Consume | src/kObjCache/kObjCache.c:929-1105 | any chunk in any state leaves what `After` says |
| DepEscape.WrittenNameIsRead | src/kObjCache/kObjCache.c:852-1105 | from a directive with escaped quotes and backslashes the name comes back as it was before escaping |
| AvlSpec.PlugInorder | src/fastdep/avl.c:101-246 | replacing a subtree changes the order only where the subtree is |
| AvlSpec.RebalancedBalanced | src/fastdep/avl.c:755-822 | a rotation restores balance and exact heights from a difference of two |
| AvlSpec.RebalancedInorder | src/fastdep/avl.c:755-822 | and keeps the order of the nodes |
| AvlSpec.EnoughNodes | src/fastdep/avl.h:28 | a balanced tree of height h has at least Fib(h + 2) - 1 nodes |
| AvlSpec.HeightBound | src/fastdep/avl.h:28 | trees of at most 17709 nodes are no higher than the stacks, 19 |
| AvlSpec.SparseIsBalanced | src/fastdep/avl.h:28 | the bound is tight for every height |
| AvlSpec.InsertUndone | src/fastdep/avl.c:101-246 | removing a key just inserted gives the node and the contents from before |
| AvlTree.Avl.constructor | src/fastdep/avl.c:101-134 | the empty tree is valid |
| AvlTree.Avl.BalanceNode | src/fastdep/avl.c:759-820 | one stack entry: rotations through the link, heights set, and done only where the height is as before |
| AvlTree.Avl.Rebalance | src/fastdep/avl.c:755-822 | the loop over the stack, with its early exit, leaves a balanced tree with the same nodes in order |
| AvlTree.Avl.FindLast | src/fastdep/avl.c:218-224 | the predecessor at the end of the right links, and the links pushed |
| AvlTree.Avl.TakePredecessor | src/fastdep/avl.c:212-234 | the predecessor takes the place of the node found, and the patched stack entry leads to the place it left |
| AvlTree.Avl.Insert | src/fastdep/avl.c:101-134 | search order, heights and balance are kept; exactly the new node is added, and refused exactly when its key is there |
| AvlTree.Avl.Remove | src/fastdep/avl.c:176-246 | the same for removal; null exactly when the key is missing |
| AvlLookup.Get | src/fastdep/avl.c:258-287 | the node with the key, null exactly when there is none |
| AvlLookup.GetBestFit | src/fastdep/avl.c:648-700 | the least key not below, or the greatest not above, null exactly when there is none |
| AvlLookup.GetWithAdjacentNodes | src/fastdep/avl.c:358-426 | the true predecessor and successor of a key found |
| AvlWalk.WalkIsInorder | src/fastdep/avl.c:440-630 | from the left keys increase, from the right they decrease, every node once |
| AvlWalk.EnumData.BeginEnumTree | src/fastdep/avl.c:531-544 | the first node of the walk, with the rest to come |
| AvlWalk.EnumData.GetNextNode | src/fastdep/avl.c:554-630 | the next node of the walk, null exactly at its end; the stacks never overflow |
| AvlWalk.Enumerate | src/fastdep/avl.c:531-630 | a whole enumeration is the walk |
| AvlWalk.DoWithAll | src/fastdep/avl.c:440-518 | the callback sees the walk in order up to the first node it refuses, whose code is returned |
| DepNames.RealOfMake | src/fastdep/fastdep.c:3790-3861 | unescaping undoes escaping for every name |
| DepLaws.MakeIs | src/fastdep/fastdep.c:3831-3853 | a caret goes in front of the characters that mean something to make, and of no others |
| DepLaws.RealMeans | src/fastdep/fastdep.c:3790-3814 | a caret, or a dollar in front of another, stands for the character behind it, everything else for itself |
| DepLaws.WrittenIs | src/fastdep/fastdep.c:3536-3575 | names with blanks or tabs are quoted |
| DepLaws.RuleIs | src/fastdep/fastdep.c:3536-3575 | with the continuation lines joined as make joins them, a rule is written as a comment with its timestamp, its name with a colon and all its dependants in order, and an empty line |
| DepNames.NameToReal | src/fastdep/fastdep.c:3790-3814 | in place, terminated, with the new length |
| DepNames.NameToMake | src/fastdep/fastdep.c:3824-3861 | fails exactly when the buffer cannot take the escaped name; otherwise it is there, and terminated inside the buffer unless it fills the whole of it |
| DepGraph.AddedKeepsAcyclic | src/fastdep/fastdep.c:3732-3782 | a new edge keeps the graph acyclic if and only if nothing leads from its end to its start |
| DepGraph.SearchHistory | src/fastdep/fastdep.c:3965-3982 | the binary search ends, finds what is there, and otherwise gives the place to insert |
| DepGraph.InsertHistory | src/fastdep/fastdep.c:3986-3996 | the history stays sorted and free of duplicates |
| DepGraph.Remember | src/fastdep/fastdep.c:3960-3997 | a full history forgets names but never claims one that was not seen |
| DepGraph.NothingMissed | src/fastdep/fastdep.c:3883-4016 | when the stack is empty no path from anything seen leads to the rule |
| DepGraph.DepTree.CheckCyclic | src/fastdep/fastdep.c:3883-4016 | TRUE only with a real path back of bounded length, FALSE only without one, also with a full history; the bound on the depth is hit only by a real path that long; it always ends |
| DepGraph.DepTree.AddRule | src/fastdep/fastdep.c:3647-3720 | a new, restarted or unchanged rule; no edge is ever added; a handle is given exactly when the rule has to be filled again, and the rule is empty then |
| DepGraph.DepTree.AddDepend | src/fastdep/fastdep.c:3732-3782 | the edge is added exactly when the check finds no cycle; an acyclic graph stays so if and only if the edge is refused or the name as it is stored does not lead to the rule, whether the search gave up or not |
| DepGraph.RunsStayAcyclic | src/fastdep/fastdep.c:3647-4016 | from the empty tree, no run of additions closes a cycle |
| DepGraph.ConvertedNameSlipsIn | src/fastdep/fastdep.c:3743-3775 | a graph to which name conversion adds a cycle |
| DepGraph.ChainIs | src/fastdep/fastdep.c:3907-3953 | for every length, an acyclic chain of rules with one way from its first to its last |
| DepGraph.DeepEnough | src/fastdep/fastdep.c:3732-3782 | in a chain of 33 rules the edge that would close it is refused |
| DepGraph.TooDeepSlipsIn | src/fastdep/fastdep.c:3732-3782 | in a chain of 35 rules the search gives up, and the edge that closes it is added |
| DepFile.LinesOfText | src/fastdep/fastdep.c:3296-3316 | lines without line breaks come back from their text as they were |
| DepFile.StampSurvives | src/fastdep/fastdep.c:3448-3451 | exactly which timestamps are read back |
| DepFile.NameLine | src/fastdep/fastdep.c:3429-3465 | the line with a rule's name is read as that name, though the name may hold colons, blanks and escapes |
| DepFile.DepLine | src/fastdep/fastdep.c:3468-3486 | a dependant's line is read as that dependant, and says whether more follow |
| DepReading.DepMeans | src/fastdep/fastdep.c:3471-3486 | among the dependants every indented word or quoted text is one more, and a backslash at the end says that they go on |
| DepReading.GapMeans | src/fastdep/fastdep.c:3412-3418 | a line of spaces ends them, and so does every line that starts with a tab |
| DepReading.RuleMeans | src/fastdep/fastdep.c:3426-3486 | a name and a colon start a rule with the timestamp above; dependants follow if a backslash behind blanks ends the line, and only then the one on the line counts |
| DepReading.BackslashLoses | src/fastdep/fastdep.c:3447-3448 | if the dependant on the rule's line has a backslash, it is lost with all that follow |
| DepReading.OthersMean | src/fastdep/fastdep.c:3426-3467 | any other line starts no rule and takes the timestamp away |
| DepReading.DepSurvives | src/fastdep/fastdep.c:3157-3176 | for every name on one line: a dependant written is read back as it was if and only if it is quoted for a blank in it, or neither starts nor ends with a quote nor ends with a backslash |
| DepReading.NameSurvives | src/fastdep/fastdep.c:3436-3454 | so is a rule's name that does not end with a backslash, if and only if besides no colon stands before a blank |
| DepReading.RuleKept | src/fastdep/fastdep.c:3688-3720 | reading the name of a rule keeps its dependants if and only if it was updated, or has that timestamp, is valid and no scan is forced; else they start anew |
| DepFile.EventsAre | src/fastdep/fastdep.c:3371-3605 | the whole file is read as exactly the rules and dependants written |
| DepFile.ReadUndoesWrite | src/fastdep/fastdep.c:3371-3605 | reading into an empty tree gives the rules that were written, in order, with their timestamps; with the cycle check if and only if no dependant's name, as it is written, leads to its rule in what is read before it |
| DepFile.PlainIsClear | src/fastdep/fastdep.c:3743-3775 | that is so for acyclic graphs whose rule names have no carets |
| DepFile.CaretsClash | src/fastdep/fastdep.c:3484 | an acyclic graph that is not read back when cycles are checked |
| DepFileIO.ReadLine | src/fastdep/fastdep.c:3410-3486 | one line does to the tree what its events say, without the dependants the check objects to |
| DepFileIO.ReadFile | src/fastdep/fastdep.c:3371-3493 | the loop over the text does what all events say, with the check on without the dependants it objects to, and all of them if there is nothing to object to |
| DepFileIO.PickedOnce | src/fastdep/fastdep.c:3532 | the rules picked for writing are picked once each |
| DepFileIO.WriteRule | src/fastdep/fastdep.c:3536-3590 | nothing is lost between file and buffer, and the flush tests keep the 64 KB buffer from overflowing |
| DepFileIO.WriteFile | src/fastdep/fastdep.c:3501-3605 | the file is the text of the warning and of all rules, or of the updated ones |
| ShellSpec.OutcomesProper | src/kash/eval.c:313-415 | a break or continue that is left over asks for 1 to loopnest loops, a function never leaves a return, and without loops none is pending |
| ShellSpec.MoreFuel | src/kash/eval.c:218-415 | the meaning does not depend on the bound of its definition |
| ShellSpec.OneMeaning | src/kash/eval.c:218-415 | any two bounds that suffice give the same meaning |
| ShellSpec.FileResult | src/kash/main.c:264-319 | commands of a file end normally: nothing is pending at the top |
| ShellLaws.ListsShow | src/kash/eval.c:229-248 | for every command that ends normally: what follows in an and-list is run exactly on status 0, in an or-list exactly on another, after a semicolon always |
| ShellLaws.ListsSkip | src/kash/eval.c:229-248 | behind a command that leaves something pending nothing of a list is run |
| ShellLaws.IfIsAndOr | src/kash/eval.c:264-276 | an if is the or-list of an and-list wherever its second part does not end with another status than 0 |
| ShellLaws.IfShows | src/kash/eval.c:264-276 | which part is run, and status 0 without one |
| ShellLaws.DeMorgan | src/kash/eval.c:237-292 | negated lists are lists of negations, the second command not looking at the status before it |
| ShellLaws.NotShows | src/kash/eval.c:289-292 | the status is turned into its opposite, also that of a return |
| ShellLaws.LoopsShow | src/kash/eval.c:313-344 | while runs its body exactly on status 0, until exactly on another, and a break ends either |
| ShellLaws.ContinueIsNothing | src/kash/eval.c:313-344 | for every condition, a loop that continues does what one without a body does |
| ShellLaws.ForCollects | src/kash/eval.c:349-385 | a for loop takes all its words, in order |
| ShellLaws.LoopsAreLeft | src/kash/eval.c:349-385 | in any nest of loops, break k leaves exactly k of them, continue k one less and goes on with the next, both no more than there are |
| ShellLaws.FirstArm | src/kash/eval.c:390-415 | the arm selected is the first with a pattern that matches, and none exactly when there is none |
| ShellLaws.CaseShows | src/kash/eval.c:390-415 | its body is run, and nothing else |
| ShellLaws.CallShows | src/kash/eval.c:880-932 | a return ends the function with its status and what follows the call is run; a break or continue in a function acts on the caller's loops |
| ShellLaws.FunctionsShow | src/kash/eval.c:284-288 | what is not defined gives 127, a definition 0 and the function it names |
| ShellLaws.EndlessCall | src/kash/eval.c:880-932 | a function that calls itself without end fails at the bound on calls |
| ShellLaws.FileStops | src/kash/main.c:264-319 | a file is run up to the first return, whose status it leaves |
| ShellLaws.BreakOutside | src/kash/eval.c:1350-1361 | outside of loops a break or continue leaves nothing pending: what follows it is run |
| ShellLoops.LoopIsRounds | src/kash/eval.c:313-344 | a loop is its rounds one after the other, in terms of what its condition and body end with |
| ShellLoops.ReturnFromLoop | src/kash/eval.c:313-344 | after any number of rounds: a return from the condition ends the loop with the status of the last body, and keeps its own if and only if they are equal; from the body it is kept |
| ShellLoops.HowLoopsReturn | src/kash/eval.c:313-344 | every loop left by a return is left in one of these ways |
| ShellLoops.ReturnFromFirstCondition | src/kash/eval.c:313-344 | a return from the first condition leaves status 0 |
| ShellLoops.ReturnLost | src/kash/eval.c:313-344 | a return of 5 that leaves 5 on its own and 0 as the condition of a loop |
| ShellEval.Shell.Break | src/kash/eval.c:1350-1361 | the pending count is the number asked for, at most loopnest, and nothing is pending outside loops |
| ShellEval.Shell.Return | src/kash/eval.c:1369-1397 | a return from the function, or from the file outside functions, with its status |
| ShellEval.Shell.EvalTree | src/kash/eval.c:218-309 | the flags after evaluation are the outcome of the meaning; nesting counters are restored |
| ShellEval.Shell.Round | src/kash/eval.c:318-341 | one round of the loop with its goto on skipping |
| ShellEval.Shell.EvalLoopCmd | src/kash/eval.c:313-344 | while and until loops, with breaks and continues counted down through the levels |
| ShellEval.Shell.EvalForCmd | src/kash/eval.c:349-385 | for loops over the words |
| ShellEval.Shell.EvalCaseCmd | src/kash/eval.c:390-415 | the first matching pattern of the first matching arm |
| ShellEval.Shell.EvalCall | src/kash/eval.c:880-932 | a return ends at the call, a break or continue goes on outside it |
| ShellEval.Shell.CmdLoop | src/kash/main.c:264-319 | a return outside functions ends the file, and no flag is left set |
| CmdHashPaths.DirsMean | src/kash/exec.c:473-519 | a directory of PATH from the root is the same everywhere, any other is seen from the current directory, and the empty one is it |
| CmdHashPaths.WhatCdTouches | src/kash/exec.c:943-955 | for every PATH and name: searches from two directories agree whatever files there are, if and only if all directories of PATH are from the root |
| CmdHash.SearchIs | src/kash/exec.c:773-883 | the first directory of PATH that has the command, none exactly when there is none |
| CmdHash.Padvance | src/kash/exec.c:473-519 | the candidate of the first directory, and the rest of PATH |
| CmdHash.FirstDifference | src/kash/exec.c:967-1006 | where two paths first differ in a character their common directories end, with the adjustment at a separator |
| CmdHash.FirstChange | src/kash/exec.c:967-1006 | the number of directories both paths begin with, and no fewer |
| CmdHash.OkAfterCd | src/kash/exec.c:943-955 | marking entries is enough for any change of directory |
| CmdHash.OkAfterChange | src/kash/exec.c:1020-1041 | entries below the first change stay right |
| CmdHash.RenamedIs | src/kash/exec.c:756-769 | "kmk_builtin_" and a short plain word is searched for as "kmk_" and the word, everything else as it is |
| CmdHash.AnswerIs | src/kash/exec.c:716-835 | first special builtins, then functions that are wanted, then builtins, then the first directory with the command |
| CmdHash.CmdTable.ChangeDir | src/kash/exec.c:943-955 | every remembered location is marked, everything else stays as it was, and no function becomes stale |
| CmdHash.CmdTable.ChangePath | src/kash/exec.c:967-1041 | exactly the locations at or behind the first change are forgotten |
| CmdHash.CmdTable.Defun | src/kash/exec.c:1174-1205 | a function replaces all but special builtins, and inherits a mark |
| CmdHash.CmdTable.FindCommand | src/kash/exec.c:658-920 | over any sequence of lookups, cd and PATH changes the answer is that of a fresh search; for a stale function it is so exactly when no absolute directory passed over makes a difference, whatever stands in the place of the index; and what the table is afterwards, in every case |
| CmdHash.CmdTable.SearchPath | src/kash/exec.c:749-883 | the search with its shortcut for absolute directories finds what a full search finds wherever the index is to be trusted, and remembers, overwrites, unmarks or deletes the entry accordingly |
| CmdHash.FunctionAnswered | src/kash/exec.c:749-835 | with any number in the place of the index: the function is answered exactly if the number is that of an absolute directory and no relative one before it has the command; and exactly when the answer is that of a search of all directories |
| CmdHash.StaleFunction | src/kash/exec.c:714-835 | a lookup, cd and a function definition, after which the command, the function or nothing is answered, by the value in the place of the index |
| CmdHashRuns.LookupDoes | src/kash/exec.c:658-920 | the method is a step of the runs, and a function that is not stale is answered as itself |
| CmdHashRuns.StaleSince | src/kash/exec.c:943-1205 | in every run: a function is stale only since it was defined over a location that an earlier cd had marked |
| CmdHashRuns.FunctionsAreAnswered | src/kash/exec.c:716-738 | in every run, a function of whose name no location had been marked is answered as itself |
| CmdHashRuns.FunctionStays | src/kash/exec.c:842-883 | a step takes a function out of the table only by entering a location over it, or by looking it up when it is stale |
| StackAlloc.LiveAreDisjoint | src/kash/memalloc.c:126-150 | allocations in use never overlap, and lie inside their blocks and below the top |
| StackAlloc.StackState.StAlloc | src/kash/memalloc.c:126-150 | an aligned region apart from all in use, in the current block whenever it fits, else in a new one of the least size |
| StackAlloc.StackState.StUnalloc | src/kash/memalloc.c:166-174 | the top goes down and exactly the allocations behind it go |
| StackAlloc.StackState.SetStackMark | src/kash/memalloc.c:179-189 | the mark records block, position and room |
| StackAlloc.StackState.PopStackMark | src/kash/memalloc.c:193-211 | exactly the blocks and allocations since the mark go, for any mark on the chain |
| StackAlloc.StackState.GrowStackBlock | src/kash/memalloc.c:225-266 | the pending string is kept, and all marks into a block that is moved are repointed |
| StackAlloc.StackState.NothingInUse | src/kash/memalloc.c:229-243 | a block that may be moved holds no allocation |
| StackAlloc.StackState.RepointMarks | src/kash/memalloc.c:245-255 | the walk over the chain stops at the first mark of another block and has then met all of this one |
| StackAlloc.StackState.GrowStackStr | src/kash/memalloc.c:295-306 | the string survives, with room for one character more already counted |
| StackAlloc.StackState.StartStackStr | src/kash/memalloc.h:73 | an empty string with all the room of the block |
| StackAlloc.StackState.StPutc | src/kash/memalloc.h:74 | the character is appended, whether the block had to grow or not, and what is older is untouched; if the count of room was one too small, growing leaves the character behind the string in front of it |
| StackAlloc.StackState.CheckStrSpace | src/kash/memalloc.h:75 | the string is kept; if there is room nothing changes, else there is more, though one growth may be less than asked for |
| StackAlloc.StackState.StackStrNul | src/kash/memalloc.h:79 | the string is terminated; the count of room is right afterwards if and only if there was room before, and one too small otherwise |
| StackAlloc.StackState.StUnputc | src/kash/memalloc.h:80 | the last character is taken back |
| StackAlloc.StackState.StAdjust | src/kash/memalloc.h:81 | the string is cut or lengthened inside the block |
| StackAlloc.StackState.GrabStackStr | src/kash/memalloc.c:328-344 | the string becomes an allocation where it stands |
| StackAlloc.StackState.UngrabStackStr | src/kash/memalloc.c:347-357 | the allocation made last is a string under construction again |
| PatternLaws.CharactersMean | src/kash/expand.c:1387-1494 | what an ordinary, an escaped and a special character stands for, at every place of a pattern |
| PatternLaws.WordsMean | src/kash/expand.c:1489-1494 | a word without special characters matches itself and nothing else |
| PatternLaws.ListsMean | src/kash/expand.c:1430-1488 | a list matches one of its characters, with an exclamation mark any other, and may begin with a bracket |
| PatternLaws.RangesMean | src/kash/expand.c:1468-1477 | a range matches one character between its ends |
| PatternMatch.MatchesCons | src/kash/expand.c:1380-1494 | a pattern matches by what its first piece takes and the rest matching behind it |
| PatternMatch.SkipIsSafe | src/kash/expand.c:1405-1421 | skipping to the next literal after a star loses no match |
| PatternMatch.FindClose | src/kash/expand.c:1434-1447 | the scan ahead finds the bracket at which the members end |
| PatternMatch.MatchMembers | src/kash/expand.c:1459-1477 | the matcher stops at that same bracket, and decides membership |
| PatternMatch.SkipTo | src/kash/expand.c:1405-1421 | the loop that skips keeps what a star can match |
| PatternMatch.TryAll | src/kash/expand.c:1422-1428 | the recursion after a star decides whether the rest matches anywhere |
| PatternMatch.PMatch | src/kash/expand.c:1380-1494 | true if and only if the string falls into parts that the pieces of the pattern take |
| PatternLaws.UnquotedIsSound | src/kash/expand.c:1380-1494 | the matcher takes every pattern in which nothing is quoted |
| FieldLaws.MarksSplit | src/kash/expand.c:1029-1056 | words put together with a mark that is no white space come apart again, empty ones too |
| FieldLaws.SpacesSplit | src/kash/expand.c:1010-1056 | words put together with any IFS white space come apart again |
| FieldLaws.WordsComeBack | src/kash/expand.c:978-1074 | with the usual IFS, whatever blanks, tabs and newlines stand between them |
| FieldSplit.FieldsAreThese | src/kash/expand.c:978-1074 | for every IFS value there is exactly one way to split, and this is it |
| FieldSplit.FieldsAreClean | src/kash/expand.c:978-1074 | no field holds an IFS character |
| FieldSplit.PassDelimiter | src/kash/expand.c:1041-1056 | a delimiter is one mark with the white space around it, or white space alone |
| FieldSplit.IfsBreakup | src/kash/expand.c:978-1074 | the strings pointed to after cutting in place are the fields |

## Left out

- CppReader.Consume: requires that no quote follows a backslash in a file name of a directive, because the code then hands its helper the wrong base pointer (src/kObjCache/kObjCache.c:1469); calls of the dependency scanner and the mode without optimisation are not modelled, nor is whether realloc moves the buffer.
- ObjCacheProtocol.ReuseIsSafe: a process may fail in the compiler but does not die at other points; locks are atomic steps, each entry file has one process at a time, and writing happens only while the generation is below 2^32 - 1.
- ObjCacheProtocol.LockedCoheres: one cache file; renaming of object files and digests with relative paths are not modelled.
- Checksums are opaque values, preprocessing and compiling arbitrary steps.
- FastCompareLoops.CompareFast: stops where the code would go on for ever; what a match means is said for newline-terminated new output, and of files and numbers only where it has no bare "#line" and line statements stand behind blanks; reading past the end of a text that stops behind "#line" is not modelled.
- DepCuts.AnyCuts: is about all the scanner keeps, behind every chunk; exactly when only the names come out the same is said for one cut.
- DepScan.DepState.Consume: the build without assertions; Windows and OS/2 branches of all components are left out.
- AvlTree.Avl.Insert: requires that the height fits the stacks, as the code asserts; keys are reals, standing for any order.
- AVLGetWithParent and the remaining tree lookups would only add easy members.
- DepGraph.DepTree.CheckCyclic: which graphs make the search give up, rather than only that it then has met a path that long; the tree of rules is a map, its structure being the subject of the AVL model, and the map is not shared with handles.
- DepFile.ReadUndoesWrite: the wording of the warning is a parameter, file input and output are texts, and lines are cut as values, not in the buffer; `trimQuotes` reads the character before an empty string, which has no effect there and is not modelled.
- DepFile.StampSurvives: the 48 characters of a rule's timestamp (src/fastdep/fastdep.c:34) are not a limit in the model.
- depAddSrcAddDeps, the language scanners and fastdep's file cache.
- ShellEval.Shell.EvalTree: evaluation carries a bound on its depth, with the proof that any sufficient bound gives the same result; the -e option, redirection, pipelines, subshells, the dot command, local and positional parameters, signals and the longjmp of errors beyond "an error ends it" are not modelled; patterns of case arms are predicates.
- CmdHash.CmdTable.FindCommand: requires names without slashes; % options in PATH and alternate paths are not modelled, and hash chains are a map. A location entered under a name that still begins with kmk_builtin_, or behind a directory that was passed over for a stale function, leaves a table for which the next lookup promises nothing.
- StackAlloc.StackState.GrowStackStr: the early flush of here-documents is not modelled.
- PatternMatch.PMatch: squoted is 0, characters are unsigned, escapes are complete and no quote marks stand inside brackets.
- FieldSplit.IfsBreakup: one unquoted region over a string without escapes.
- kDeDup, kLibTweaker, kDepPre, kWorker, the job table and history editing.
