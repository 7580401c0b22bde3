# Verified models of the stateful and algorithmic kernels

This project models, in Dafny, the parts of the tool server whose correctness is not visible in any one function body,
and proves what they are for. `dafny verify dfyconfig.toml` checks everything.

| file | models | main results |
|---|---|---|
| `ControlFlow.dfy` | worklist discovery of function starts, containment proof by control flow | the discovered set is an order-free closure whenever budget is left, although walls appear mid-run; containment is exact up to the visit cap |
| `CallTargets.dfy`, `BranchEncoding.dfy` | call targets of one function; branches as their bytes encode them | exactly the sorted distinct call targets on the function's control flow; the traversals follow branches to where their bytes lead |
| `FunctionAt.dfy`, `PrologueTable.dfy`, `JumpTable.dfy` | byte-pattern guesses refined by control flow; switch tables | greatest known start, query inside the answer, end capped by the next start, confidence capped when partial |
| `FuncTable.dfy`, `InsertOrder.dfy` | tables of function ranges | one table per set of starts; insertion with one code section equals merging; exactly when all insertion orders give the same table |
| `ShellPool.dfy`, `ShellPoolSteps.dfy`, `ShellPoolInvariant.dfy`, `ShellPoolSafety.dfy`, `ShellPoolLaws.dfy`, `ShellPoolCapacity.dfy`, `ShellPoolWitness.dfy` | the persistent shell pool as an interleaved state machine | safety, lock order, absence of deadlock, who may be reaped, evicted or closed, and the size of the pool, in every reachable state |
| `LineEndings.dfy`, `LineEndingMap.dfy` | newline cursor, normalized view and offset map | history-independent answers; the view is a faithful image of the text |
| `CodeIndex.dfy`, `CodeIndexLaws.dfy` | the incremental index with faults | rows stay faithful over any runs; convergence to a fresh index, with its exact condition |
| `SourceConditions.dfy`, `ConditionStrings.dfy`, `SourceReading.dfy`, `LexicalPhases.dfy`, `ConditionalInclusion.dfy` | preprocessor provenance, and what C itself reads | the recorded conditions hold exactly when conditional inclusion keeps the line, for all macros; the recorded strings; exactly which lines are read as C reads them |
| `IncludeGraph.dfy`, `ConditionText.dfy` | transitive includes, condition texts | shortest distances on cyclic graphs with the condition of a shortest walk; joined texts have one reading |
| `ChainOps.dfy`, `Enclosure.dfy`, `PowerShellChain.dfy`, `PowerShellReading.dfy`, `Delegation.dfy` | splitting command chains, translating them to PowerShell 5.1, delegating them | parsing inverts joining; no operator survives translation; exactly when the translation means the same and when delegation is safe |
| `TypeChase.dfy`, `AliasTypes.dfy` | chasing types through cyclic facts | exact closures and fixed points, termination |
| `RawOutput.dfy`, `Capture.dfy`, `Navigate.dfy` | expiring store, bounded capture, query paths | longest fitting suffix; independence of write splitting; string rebuilding equals direct evaluation |
| `Reachability.dfy`, `Sorting.dfy`, `Text.dfy`, `Words.dfy`, `Wrappers.dfy` | walks in graphs, ascending sequences, trimming, little-endian words, optional values | shared by the others |

Loops and mutable objects of the source are methods and classes here; each is proved against a specification that does
not mention the loop. Go map iteration order is an arbitrary choice (`Sorting.Pick`, `CodeIndex.Env.pick`,
`ShellPool.Choice`). The x86 decoder, SHA-256, the parsers, regular expressions, type-text cleaning, clocks, random
identifiers, file reads and database failures are parameters.

## Where the code does not keep what one would expect

- The completeness flag of start discovery tests only whether the work list is empty. It can be true although the decode
  budget ran out and a start is missing (`ControlFlow.CompleteFlagMisleads`), and an answer then claims high confidence
  for the wrong start (`FunctionAt.HighThoughIncomplete`). The result is exact whenever budget is left, which a section
  below 4000 bytes guarantees.
- The index promotes symbol kinds in place, never demotes them, and skips the pass when nothing changed. An error-free run
  equals a fresh index if and only if no kept row holds a stale promotion and, when nothing changed, none was missed
  (`CodeIndex.ConvergesExactlyWhen`, with `CodeIndex.StalePromotionSurvives` and `CodeIndex.MissedPromotionSurvives`).
- A failed store whose savepoint rollback also fails can leave the new hash over partial facts, and no later run over the
  same content repairs it (`CodeIndex.FailedRollbackRun`). A committed batch stays faithful if and only if every such
  leftover is overwritten or faithful itself (`CodeIndex.BatchFaithfulIff`).
- The preprocessor scanner looks at raw lines. It reads a line as C does if and only if no splice or comment touches it and
  it is plainly spelled, or neither sees a directive (`SourceReading.ReadAlikeIff`, for files with LF and with CRLF ends);
  after `#if A` and `#endif //` the section stays open (`SourceReading.MissedEndifLeaks`).
- A PowerShell chain keeps step with the AND-OR list if and only if every command that is run sets the exit code or finds
  it right already (`PowerShellChain.KeepsStepIff`); a first command that fails silently lets the chain run on
  (`PowerShellChain.SilentFailureRunsOn`).
- The path of git-bash is not escaped. Every delegated command is free of operators if and only if the call leaves no
  quote open (`Delegation.DelegationSafeIff`); a path with a single quote in it does (`Delegation.QuotedPathIsUnsafe`).
- Splicing commutes with newline normalization if and only if no CR LF pair forms at a seam
  (`LineEndingMaps.SpliceCommutes`).
- A guessed function end at the top of the address space wraps: the guess ends above its query if and only if the scanned
  end does not leave 32 bits (`FunctionAt.HeuristicFuncBounds`); the two bytes 56 C3 at address 0xFFFFFFFE give an end of 0
  (`FunctionAt.GuessWraps`). Answers from known starts never wrap, since the seed filter drops every seed of a section whose
  end does (`FunctionAt.KeepsIff`, `FunctionAt.RefineFuncStart`).
- The order in which symbols are inserted into a function table can show (`InsertOrder.OrderShows`). All orders give the same
  table if and only if, for every new symbol with no start of the base table above it, the next symbol above lies no further
  than the end of its section (`InsertOrder.OrdersAgreeIff`), as when all symbols lie in one section.
- The chain parser judges quotes by the rules of bash, where a backslash escapes. PowerShell does not escape with it, so the
  command `"\"&&"` counts as free of operators and is passed on although PowerShell sees `&&` in it
  (`PowerShellReading.ReadingsDiffer`). Without backslashes and backticks the two readings agree
  (`PowerShellReading.ReadingsAgree`).

## Model

| member | source | states |
|---|---|---|
| `ControlFlow.FunctionContains` | tools/analyze/exports_anchor.go:47-118 | true only if a control-flow walk from start to query avoids other starts, int3 and undecodable bytes; true whenever one exists unless 60000 offsets were visited; terminates on cyclic graphs |
| `ControlFlow.Pushes` | tools/analyze/exports_anchor.go:81-115 | one visit pushes every in-range successor that is not yet visited, and nothing else in range |
| `BranchEncoding.BranchTargetMoves` | tools/analyze/exports_anchor.go:122-131 | operand 0 targets the next instruction, and the target moves with the operand and with the instruction; no operand, no target |
| `BranchEncoding.BranchLeads` | tools/analyze/exports_anchor.go:81-115 | where the decoder reports a direct branch as its bytes E8, E9, EB, 70 to 7F or 0F 80 to 8F encode it, control flow leads exactly to the byte counted from the end of the encoding and, unless the jump is unconditional, to the next instruction; a call calls that byte |
| `BranchEncoding.OtherLeads` | tools/analyze/exports_anchor.go:69-115 | control flow ends at returns, padding and undecodable bytes; without a direct operand it goes on with the next instruction, or the cases of a resolved switch |
| `BranchEncoding.ShortJumpContains` | tools/analyze/exports_anchor.go:47-118 | EB 02 CC CC C3: the last byte belongs to the function |
| `ControlFlow.ContainsNoWall` | tools/analyze/exports_anchor.go:55-65 | no offset that a function contains, but its own start, is another known start |
| `ControlFlow.ContainsGoesOn` | tools/analyze/exports_anchor.go:81-115 | and control flow is followed from there to every offset above the start that is no other start |
| `Reachability.WalkIs` | tools/analyze/exports_anchor.go:47-118 | a walk is a sequence of edges from the start through each node to the next, which pins what being reached means |
| `ControlFlow.DiscoverFunctionStarts` | tools/analyze/exports_anchor.go:148-216 | every start found is a seed or an in-range direct-call target reached through unwalled control flow and calls; if budget is left, all of them are found whatever the order; budget is left in every section below 4000 bytes |
| `ControlFlow.WalkBody` | tools/analyze/exports_anchor.go:160-213 | one traversal keeps everything recorded grounded, forgets no successor unless the budget ends, and costs at most the section size |
| `ControlFlow.CompleteFlagMisleads` | tools/analyze/exports_anchor.go:215 | a concrete section on which the flag is true although a start is missing |
| `ControlFlow.SledHidesCall` | tools/analyze/exports_anchor.go:148-216 | with at most n decoded instructions, a call behind n one-byte instructions stays unknown |
| `CallTargets.ScanSection` | tools/analyze/callgraph.go:391-462 | the result is sorted and distinct, each entry is a call on the function's control flow, and it is all of them unless the walk's cap was reached |
| `CallTargets.ScanCallTargets` | tools/analyze/callgraph.go:373-462 | the same for the first section that holds the function; nothing when no section does |
| `BranchEncoding.CallSiteIsTarget` | tools/analyze/callgraph.go:418-422 | a direct call is recorded under the 32-bit address of the offset that start discovery takes for its target |
| `BranchEncoding.TargetIsCallSite` | tools/analyze/callgraph.go:418-422 | and, in sections of at most two gigabytes, exactly then |
| `BranchEncoding.SlotCallSite` | tools/analyze/callgraph.go:423-437 | a call through a slot: relative to the next instruction in 64-bit code, absolute from the image base in 32-bit code |
| `BranchEncoding.OnlyCallsAreSites` | tools/analyze/callgraph.go:417-437 | only E8 with four bytes of operand and FF 15 are calls |
| `CallTargets.PathMeetsNoStart` | tools/analyze/callgraph.go:405-407 | the walk passes no known start but its own |
| `CallTargets.PathGoesOn` | tools/analyze/callgraph.go:440-458 | and follows control flow to every other offset |
| `Words.Little32IsValue` | tools/analyze/callgraph.go:419 | a word is the number its four bytes stand for, least significant first |
| `FunctionAt.FindEpilogueForward` | tools/analyze/heuristic.go:169-221 | some offset of the window holds a return that padding, a prologue or the end of the data confirms, no earlier one does, and the result is where that return ends; none when no return in the window is confirmed |
| `FunctionAt.FindPrologueBackward` | tools/analyze/heuristic.go:107-165 | the query itself at a prologue, else the start suggested by the nearest boundary byte below it, else the first prologue near the scan limit; no boundary byte lies between the one taken and the query, and no prologue before the one taken; every result stands at a prologue or just after padding or a return |
| `FunctionAt.EndsAfterMeans` | tools/analyze/heuristic.go:169-221 | opcode by opcode: C3, or C2 with its two bytes, followed by CC, 90, a prologue or the end |
| `FunctionAt.StartAfterMeans` | tools/analyze/heuristic.go:124-148 | byte by byte: a start is suggested after CC, 90 and C3, and after C2 and its two bytes |
| `FunctionAt.ScanWindows` | tools/analyze/heuristic.go:27-31 | the windows are 65536 bytes forward, 4096 backward, and 16 at the far end |
| `PrologueTable.TableDecides` | tools/analyze/heuristic.go:223-252 | a place is taken for a prologue exactly when a pattern of the table that suits the mode occurs there |
| `PrologueTable.StrongIs` | tools/analyze/exports_anchor.go:625-664 | a place is a strong prologue exactly when a pattern of two bytes or more, or in 32-bit code an entry sequence, occurs there |
| `FunctionAt.GuessConfidence` | tools/analyze/heuristic.go:88-92 | medium exactly within 2048 bytes of the start and 32768 of the end |
| `FunctionAt.HeuristicFuncBounds` | tools/analyze/heuristic.go:70-102 | a guess spans from the scanned start to the scanned end and never claims more than medium confidence; it holds the query and lies in the section when the section's addresses fit 32 bits, and in any section it ends above the query if and only if the scanned end does not leave 32 bits; there is none only when the query is outside, no start is suggested or no return is confirmed |
| `FunctionAt.GuessWraps` | tools/analyze/heuristic.go:94-101 | code up to the last address: the end of the guess wraps to zero |
| `FunctionAt.HeuristicBoundsAt` | tools/analyze/heuristic.go:287-315 | with sections that share no file bytes, a guess for a query inside its section's bytes is made for that section, and is missing only when the section's addresses leave 32 bits, it is not executable or readable, or it has no guess |
| `FunctionAt.SameSection` | tools/analyze/pe.go:326-334 | the 32-bit lookup of the guess finds the section that the 64-bit lookup finds, or none when that section's addresses leave 32 bits |
| `FunctionAt.ComputeFuncEnd` | tools/analyze/exports_anchor.go:669-682 | the end is the guessed end, the scanned return or the section's end, capped by the next known start; it lies after the query and within the section; without guess and next start, in 32-bit arithmetic it stays above the query if and only if it does not leave 32 bits |
| `FunctionAt.NearestStarts` | tools/analyze/exports_anchor.go:496-507 | for any iteration order, the greatest start at or below the query and the least one above it |
| `FunctionAt.Anchor` | tools/analyze/exports_anchor.go:512-539 | an answer from a known start: greatest start, proven containment, end after the query and before the next start; export is exact and call target high unless the discovery is partial |
| `FunctionAt.KeepsIff` | tools/analyze/exports_anchor.go:452-475 | the seed filter, whose sum wraps, keeps exactly the section's addresses when they fit 32 bits and none at all otherwise |
| `FunctionAt.GatherSeeds` | tools/analyze/exports_anchor.go:445-475 | the seeds are the offsets of the kept exports, data pointers and swept targets in this order, and the names those of the kept exports |
| `FunctionAt.SeedsAre` | tools/analyze/exports_anchor.go:445-475 | an offset is a seed exactly when its address is kept and one of the three lists holds it |
| `FunctionAt.Weigh` | tools/analyze/exports_anchor.go:559-592 | within the visit cap, a guessed start earns medium confidence exactly when control flow proves that it holds the query and it is a strong prologue outside any known body, and is misaligned exactly when it does not hold the query |
| `FunctionAt.CredibleIff` | tools/analyze/exports_anchor.go:559-579 | a guess is credible exactly when it is a strong prologue and no known start lies below it, or two padding bytes lie between them or right before it |
| `FunctionAt.JudgeGuess` | tools/analyze/exports_anchor.go:541-592 | a guess keeps its range, never becomes exact or high, is prologue, heuristic or misaligned by the same conditions, and carries the nearest known start as a hint |
| `FunctionAt.RefineFuncStart` | tools/analyze/exports_anchor.go:433-593 | every answer from a known start is anchored, wherever the section lies; exact exactly for labelled exports; exact or high only from a known start and not when flagged partial; any other answer keeps the guessed range; when the greatest start contains the query and the section is within the visit cap, the answer is from it |
| `FunctionAt.HighThoughIncomplete` | tools/analyze/exports_anchor.go:493-528 | a section whose discovery ran out of budget unnoticed: high confidence for a start although the function that holds the query starts elsewhere |
| `FunctionAt.FunctionAt` | tools/analyze/pdata.go:148-150 | the same for an address looked up among sections that share no file bytes, of which one whose addresses leave 32 bits shares no address either; completeness within the visit cap included |
| `JumpTable.SwitchCases` | tools/analyze/jumptable.go:52-107 | the cases of the first section that holds the table, up to the first entry whose four bytes are no address in the code section; none below the image base or outside every section |
| `JumpTable.CasesAre` | tools/analyze/jumptable.go:86-105 | the cases are the longest run of entries that are addresses in the code section, at most 1024, read as offsets |
| `JumpTable.SwitchEdgesInRange` | tools/analyze/jumptable.go:52-107 | every switch edge that the traversals follow through this resolver stays in the section |
| `FuncTable.RangeTable` | tools/analyze/callgraph.go:1118-1155 | the table of a set of starts: ordered, disjoint, one range per start in a section, each ending at the next start or the section's end |
| `FuncTable.SectionEndIs` | tools/analyze/callgraph.go:647-656 | a start runs at most to the end of the first section that holds it, or to the last 32-bit address |
| `FuncTable.MergeStarts` | tools/analyze/callgraph.go:294-334 | the table of the base starts and the extra starts that lie in a section |
| `FuncTable.TableUnique` | tools/analyze/callgraph.go:294-334 | a set of starts has exactly one table |
| `FuncTable.FindFunc` | tools/analyze/callgraph.go:348-358 | the one range that holds the address, or none when no range does |
| `FuncTable.InsertFunc` | tools/analyze/callgraph.go:635-673 | the start is spliced in before the next one and the range before it cut, or nothing changes; every table stays ordered and disjoint; with one code section the result is the table of the enlarged set |
| `FuncTable.InsertAll` | tools/analyze/callgraph.go:873-889 | inserting symbols in any order gives the table of all their starts |
| `FuncTable.InsertingIsMerging` | tools/analyze/callgraph.go:873-889 | with one code section, inserting one by one and merging at once give the same table |
| `InsertOrder.OrdersAgreeIff` | tools/analyze/callgraph.go:635-673 | for any ordered base table, any sections and any symbols with room or nothing above them: all insertion orders give the same table if and only if, for every new symbol with no base start above it, the next symbol above lies no further than the end of its section |
| `InsertOrder.InsertSymbols` | tools/analyze/callgraph.go:873-889 | for 32-bit addresses and any sections, the table is the one some order gives, and the one every order gives when the symbols are near enough |
| `InsertOrder.InSectionsPlaced` | tools/analyze/callgraph.go:884 | symbols that lie in a section have room, or stand at the last 32-bit address with nothing above |
| `InsertOrder.SeqFits` | tools/analyze/callgraph.go:635-673 | what holds of the table after any prefix of any order: ordered, one range per start, a base range ends where it did or at a new start, a new one at a start or its section's end |
| `InsertOrder.FarOrdersDiffer` | tools/analyze/callgraph.go:642-656 | a next symbol beyond the section's end gives two orders whose tables differ, whatever the other symbols |
| `InsertOrder.SameSectionIsNear` | tools/analyze/callgraph.go:647-656 | symbols that all end with the same section meet the condition |
| `InsertOrder.OneSectionIsNear` | tools/analyze/callgraph.go:647-656 | so do all symbols when there is one code section |
| `InsertOrder.TwoSymbols` | tools/analyze/callgraph.go:642-656 | two symbols inserted into an empty table may come in either order if and only if the higher one lies no further than the end of the lower one's section |
| `InsertOrder.OrderShows` | tools/analyze/callgraph.go:642-656 | the two tables of two symbols in two code sections |
| `ShellPoolInvariant.StepKeepsInv` | tools/bash/pool.go:55-211 | every step of getOrCreate, execute, remove, reaper, evict and close keeps the invariant, whatever the interleaving; what each step does is told by the rows below |
| `ShellPoolSafety.ReachableInv` | tools/bash/pool.go:55-211 | the invariant holds in every reachable state of every run |
| `ShellPoolSafety.RunningIsUndisturbed` | tools/bash/exec.go:36-88 | while a command runs its session is open, its lock is held by the running thread, and no other thread runs on it or closes it |
| `ShellPoolSafety.NoSessionIsLost` | tools/bash/pool.go:92-157 | every started session is in the map, closed, or owned by exactly one thread that will publish or close it |
| `ShellPoolSafety.LockOrder` | tools/bash/pool.go:92-211 | a thread holding the pool lock never waits for a session lock, nor the other way round |
| `ShellPoolSafety.NoDeadlock` | tools/bash/pool.go:55-211 | in every reachable state with work in progress some busy thread can take a step |
| `ShellPoolLaws.PassBegins` | tools/bash/pool.go:164-167 | a pass of the reaper reads the clock once and looks at every listed session |
| `ShellPoolLaws.ReapsExactlyTheStale` | tools/bash/pool.go:168-171 | in every reachable state the reaper closes the session in hand exactly when it is dead or was last used more than half an hour ago and nobody holds its lock; otherwise it changes nothing |
| `ShellPoolLaws.ReapedIsUnlisted` | tools/bash/pool.go:172-175 | a reaped session is closed and exactly its key unlisted |
| `ShellPoolLaws.ClosesOnlyItsOwn` | tools/bash/pool.go:92-211 | close() is entered only on a session whose lock the thread holds, one it spawned and did not publish, or a dead one |
| `ShellPoolLaws.ClockMovesOnUse` | tools/bash/exec.go:36-128 | the time of last use is set when a session is spawned and when a command on it starts or finishes, and at no other time |
| `ShellPoolLaws.ListedIsReused` | tools/bash/pool.go:95-104 | a listed session that is not dead is returned at once, a dead one closed and replaced |
| `ShellPoolLaws.StartsOneSession` | tools/bash/pool.go:113-119 | a successful spawn adds one open session |
| `ShellPoolLaws.ListedMeanwhileWins` | tools/bash/pool.go:125-130 | a session listed meanwhile is used and the spawned one closed |
| `ShellPoolLaws.ReturnsTheListed` | tools/bash/pool.go:92-137 | getOrCreate returns the session listed under its key, with the pool lock free |
| `ShellPoolLaws.CommandIsChecked` | tools/bash/exec.go:36-121 | a command runs exactly on a session that is not dead; it ends well only when it finished, and then the session is still open |
| `ShellPoolLaws.FailureIsRemoved` | tools/bash/handler.go:98-103 | otherwise the session is removed next |
| `ShellPoolLaws.TimeoutFails` | tools/bash/exec.go:80-88 | after a timeout the session is closed and the command has failed |
| `ShellPoolLaws.RemovesTheListed` | tools/bash/pool.go:140-157 | removing unlists exactly the key and goes on to that session |
| `ShellPoolLaws.EvictsTheFirstFree` | tools/bash/pool.go:201-210 | eviction closes the first candidate whose lock is free and passes over the others |
| `ShellPoolCapacity.EvictsOnlyWhenFull` | tools/bash/pool.go:106-109 | a session is evicted only while five are listed |
| `ShellPoolCapacity.CapacityIsKept` | tools/bash/pool.go:106-136 | in every run in which eviction meets no busy session, at most five sessions are listed |
| `ShellPoolWitness.RunningIsReachable` | tools/bash/pool.go:92-137 | a run in which a thread spawns, publishes, locks and runs on a session exists, so the claims about running commands are not empty |
| `ShellPoolSafety.RunInv` | tools/bash/handler.go:44-104 | all states of an interleaved run satisfy the invariant |
| `LineEndings.ResolvesUnique` | common/lineending.go:17-34 | the stateless answer for a span is unique |
| `LineEndings.ClampLeavesSpans` | common/lineending.go:49-62 | a span inside the text is left alone, and what lies outside the text does not count |
| `LineEndings.TokensSpell` | common/lineending.go:84-125 | a form stands exactly where its characters do, CR LF being one token |
| `LineEndings.LineEndingCursor.constructor` | common/lineending.go:36-43 | a new cursor is valid and knows nothing |
| `LineEndings.LineEndingCursor.At` | common/lineending.go:49-80 | for every earlier sequence of queries the answer is the stateless one: span majority, else the terminating newline, else the one that opened the line; over forward queries each byte is examined at most once |
| `LineEndings.LineEndingCursor.SpanMajority` | common/lineending.go:84-143 | the most frequent form in the span, the earliest among equals, or none |
| `LineEndings.LineEndingCursor.Terminator` | common/lineending.go:147-182 | the first newline at or after the end of the span, with the cache kept coherent |
| `LineEndings.LineEndingCursor.Final` | common/lineending.go:186-205 | the form of the last newline of the text, resolved once |
| `LineEndings.PickMajority` | common/lineending.go:126-142 | the three-way comparison of tallies finds the majority |
| `LineEndingMaps.DetectLineEnding` | common/fileutil.go:398-461 | the most frequent form; among equals the form of the first newline, else CRLF before LF before CR |
| `LineEndingMaps.DominatesIs` | common/fileutil.go:430-461 | the dominant form is unique: the first newline's when it is as frequent as any, else the first of CRLF, LF and CR that is |
| `LineEndingMaps.CollapseIsNormalize` | common/fileutil.go:465-475 | collapsing in one pass equals the two library replacements |
| `LineEndingMaps.LineEndingMap.constructor` | common/lineending.go:240-268 | the view is NormalizeLineEndings(original, "\n") |
| `LineEndingMaps.LineEndingMap.OrigOffset` | common/lineending.go:272-295 | the image of the clipped query, whatever was asked before |
| `LineEndingMaps.ClipIsNearest` | common/lineending.go:272-278 | an offset outside the view is moved to the nearest one inside |
| `LineEndingMaps.LineEndingMap.LocalLineEnding` | common/lineending.go:300-302 | the stateless answer for the image of the span |
| `LineEndingMaps.OffsetIncreases` | common/lineending.go:272-295 | offsets are strictly increasing |
| `LineEndingMaps.OffsetEnd` | common/lineending.go:272-295 | the end of the view maps to the end of the original |
| `LineEndingMaps.OffsetNeverSplits` | common/lineending.go:215-238 | an image never falls inside a CRLF |
| `LineEndingMaps.OffsetSlice` | common/lineending.go:215-238 | normalizing the original between two images gives the view between the two offsets |
| `LineEndingMaps.SpliceCommutes` | common/lineending.go:215-238 | splicing into the original and into the view agree if and only if no CR LF pair forms at a seam |
| `LineEndingMaps.CollapseConcat` | common/fileutil.go:465-475 | normalization distributes over concatenation, except that a seam loses one character |
| `CodeIndex.Index.PrepareExtractorVersion` | tools/codegraph/db.go:374-399 | a changed version blanks every hash, in one transaction with recording the version, or nothing changes |
| `CodeIndex.Index.FlushBatch` | tools/codegraph/operations.go:240-272 | fault by fault: which rows a batch leaves, and that it reports no error exactly when every operation succeeds; faithful rows stay faithful unless a rollback fails |
| `CodeIndex.BatchFaithfulIff` | tools/codegraph/db.go:783-805 | a committed batch keeps the rows faithful if and only if every row that a failed rollback leaves is overwritten later in the batch or happens to be faithful itself |
| `CodeIndex.Index.Scan` | tools/codegraph/operations.go:103-164 | the files seen are exactly those found with a detected language; without errors, those to parse are exactly the new ones and those whose content hash differs from the stored one |
| `CodeIndex.Index.PurgeStaleFiles` | tools/codegraph/operations.go:346-396 | exactly the rows of files not seen are removed, or nothing |
| `CodeIndex.Index.ParseAndStore` | tools/codegraph/operations.go:202-280 | whatever order results arrive in, an error-free pass stores the current parse of every listed file and nothing else |
| `CodeIndex.Index.OpIndex` | tools/codegraph/operations.go:93-301 | under any failures but failing rollbacks rows stay faithful; a run without errors over a stable tree ends with the rows of `CodeIndex.Indexed`; a run in which nothing fails reports no error |
| `CodeIndex.Index.Runs` | tools/codegraph/operations.go:68-301 | over any number of runs and versions and any failures but failing rollbacks, each hash is empty or the digest of the bytes whose current-version parse the row stores |
| `CodeIndex.ConvergesUpToPromotion` | tools/codegraph/operations.go:93-301 | from any faithful state an error-free run ends with the file set, hashes and parsed facts of a fresh index |
| `CodeIndex.ConvergesExactlyWhen` | tools/codegraph/db.go:752-763 | it equals the fresh index, promoted kinds included, if and only if no kept row holds a stale promotion and none was missed in an unchanged tree |
| `CodeIndexLaws.PromotionIsNarrow` | tools/codegraph/db.go:752-763 | the pass makes functions with an owner methods, changes nothing else, and repeating it changes nothing |
| `CodeIndexLaws.TouchedIff` | tools/codegraph/operations.go:282-287 | the graph counts as changed, within a version, exactly when refreshing the rows changes them |
| `CodeIndex.StalePromotionSurvives` | tools/codegraph/db.go:752-763 | a class that disappears leaves its methods promoted |
| `CodeIndex.MissedPromotionSurvives` | tools/codegraph/operations.go:282-287 | a kind pass that failed once is not repeated over an unchanged tree |
| `CodeIndex.FailedRollbackPersists` | tools/codegraph/db.go:783-805 | a new hash over fewer facts than the parse is not faithful and no later error-free run repairs it |
| `CodeIndex.FailedRollbackRun` | tools/codegraph/db.go:787-800 | a run: a store that fails with its rollback commits such a row, and a following run in which nothing fails keeps it |
| `SourceConditions.SourceConditions` | tools/codegraph/semantic_facts.go:268-311 | each line maps to the conditions active after it, and has no entry when there are none |
| `SourceConditions.RecordedIffKept` | tools/codegraph/semantic_facts.go:268-311 | for every well-nested sequence and truth assignment, a line's conditions all hold exactly when section 6.10.1 of ISO/IEC 9899:2011 keeps it |
| `SourceConditions.GroupRight` | tools/codegraph/semantic_facts.go:276-299 | processing a group restores the frame stack and judges each of its lines rightly under any enclosing conditions |
| `SourceConditions.FrameOfBranches` | tools/codegraph/semantic_facts.go:279-292 | after #if and any number of #elif the frame holds all conditions and the last branch's formula |
| `SourceConditions.SiblingsExclusive` | tools/codegraph/semantic_facts.go:288-295 | no two sibling branches hold together |
| `SourceConditions.SiblingsExhaustive` | tools/codegraph/semantic_facts.go:288-295 | some branch holds exactly when there is an #else or a condition is true |
| `SourceConditions.RecordedBalanced` | tools/codegraph/semantic_facts.go:279-307 | the text recorded for a line has balanced parentheses when its #if expressions have |
| `ConditionStrings.RecordedText` | tools/codegraph/semantic_facts.go:268-311 | the string that the scanner builds, branch by branch and frame by frame, shows the recorded conditions, and is empty exactly when there are none |
| `SourceReading.ReadAlikeIff` | tools/codegraph/semantic_facts.go:275-298 | the scanner reads a line as C does after line ends, splices and comments are resolved, word and condition, if and only if neither a splice nor a comment touches the line and it is plainly spelled, # included, or neither sees a conditional directive |
| `SourceReading.TrimChomp` | tools/codegraph/semantic_facts.go:41 | the carriage return that stays on a line split at line feeds does not change what the scanner reads |
| `SourceReading.SameReadingIffPlain` | tools/codegraph/semantic_facts.go:278-298 | on one text the scanner and C read the same word and condition exactly when one space follows a word that takes a condition and nothing follows the others |
| `SourceReading.CommentShows` | tools/codegraph/semantic_facts.go:275-298 | a directive that a comment touches is never read alike |
| `ConditionalInclusion.FileRecordedIffKept` | tools/codegraph/semantic_facts.go:268-311 | in a file read as C does, for all macros and all values of the #if expressions, the conditions recorded for an ordinary line all hold exactly when C processes the line; C tests #ifdef, #ifndef and #if by word, apart from the scanner's formulas |
| `ConditionalInclusion.ConditionHolds` | tools/codegraph/semantic_facts.go:279-287 | what is recorded for an opening directive holds exactly when its test passes: the macro is defined, is not, or the expression is true |
| `LexicalPhases.SplicesVanish` | tools/codegraph/semantic_facts.go:41 | however a text is cut into spliced lines, C puts it together again |
| `LexicalPhases.BlockCommentIsSpace` | tools/codegraph/semantic_facts.go:275 | C sees a block comment as one space and goes on behind it |
| `LexicalPhases.LineCommentIsSpace` | tools/codegraph/semantic_facts.go:275 | and a line comment as a space up to the end of the line |
| `LexicalPhases.LiteralStands` | tools/codegraph/semantic_facts.go:275 | what looks like a comment inside a literal is none |
| `SourceReading.CommentStaysOpen` | tools/codegraph/semantic_facts.go:275 | a comment is open behind a line exactly when the end of a comment put there is swallowed |
| `SourceReading.CommentedIsMissed` | tools/codegraph/semantic_facts.go:296-297 | the scanner sees nothing in `#endif //` |
| `SourceReading.CommentedIsSeen` | tools/codegraph/semantic_facts.go:296-297 | C sees an #endif there |
| `SourceReading.MissedEndifLeaks` | tools/codegraph/semantic_facts.go:296-307 | for the lines `#if A`, `#endif //` and any line that is no directive, the scanner records the last one under A and C under nothing |
| `IncludeGraph.DirectIncludes` | tools/codegraph/project_resolver.go:256-298 | the edges are exactly the resolved includes; a pair keeps the condition of its last include |
| `IncludeGraph.LastConditionIs` | tools/codegraph/project_resolver.go:256-298 | the condition of a pair is that of its last include, and empty without one |
| `IncludeGraph.IncludeDistances` | tools/codegraph/project_resolver.go:306-321 | terminates on cyclic graphs; the distances are defined exactly on reachable files, are shortest, and each condition is gathered along a walk of that length |
| `IncludeGraph.Expand` | tools/codegraph/project_resolver.go:312-320 | one file's includes keep distances traced, the queue layered and everything expanded |
| `IncludeGraph.AlongIsConjunction` | tools/codegraph/project_resolver.go:346-354 | for balanced conditions and every reading of texts under which "(l) && (r)" is a conjunction of balanced texts, the joined text holds exactly when every edge of the walk does |
| `IncludeGraph.EdgesFrom` | tools/codegraph/project_resolver.go:322-337 | one row for each other reachable file, by ascending target, with shortest distance and a shortest walk's condition |
| `IncludeGraph.RowMeaning` | tools/codegraph/project_resolver.go:317-334 | a row's condition holds, under every such reading, exactly when every include on one shortest walk does |
| `ConditionText.PartsOfConjunction` | tools/codegraph/project_resolver.go:346-354 | the two conditions joined by "(l) && (r)" are found again in the text, so it has one such reading |
| `ConditionText.EveryAssignmentExtends` | tools/codegraph/project_resolver.go:346-354 | every truth assignment to texts that are no conjunctions extends to such a reading |
| `ConditionText.EnclosedIsFree` | tools/codegraph/semantic_facts.go:300-307 | a balanced text in parentheses is no conjunction, so an assignment may make it true or false |
| `ConditionText.UnbalancedIsFree` | tools/codegraph/project_resolver.go:346-354 | for an unbalanced condition there is such a reading under which the joined text is no conjunction |
| `IncludeGraph.RebuildIncludeEdges` | tools/codegraph/project_resolver.go:211-340 | the rows of every file of the project, over conditions that are balanced when those of the includes are |
| `ChainOps.ParseChainOps` | tools/bash/chainops.go:48-126 | the byte loop computes the cuts and the nested-operator flag of the reference scan, which the laws on quotes, escapes and parentheses below describe |
| `ChainOps.ParseInvertsJoin` | tools/bash/chainops.go:48-126 | joining balanced, trimmed, operator-free commands with their operators and parsing gives the commands and operators back |
| `ChainOps.CutsTile` | tools/bash/chainops.go:93-120 | the segments lie end to end over the whole command with exactly one operator between two; only the last has none |
| `ChainOps.SingleQuotedAtomic` | tools/bash/chainops.go:61-77 | whatever a text without single quotes holds, in single quotes it is one command without operators, backslashes being literal |
| `ChainOps.DoubleQuotedAtomic` | tools/bash/chainops.go:58-77 | the same for double quotes and texts without double quotes and backslashes |
| `ChainOps.EscapedAtomic` | tools/bash/chainops.go:58-67 | a backslash takes the meaning from any character outside single quotes |
| `Enclosure.EnclosedAtomic` | tools/bash/chainops.go:78-110 | in parentheses every text whose quotes, escapes and parentheses are closed is one command, whatever operators it holds |
| `Enclosure.EnclosedNests` | tools/bash/chainops.go:78-120 | it parses to one segment, and the flag for nested operators is raised exactly when the text alone shows an operator at some depth |
| `Enclosure.SubshellKept` | tools/bash/chainops.go:78-120 | `(a&&b)` is one segment with nested operators |
| `PowerShellChain.BuildPSChainOps` | tools/bash/shell_windows.go:137-157 | the text is the rendering of the translated statements |
| `PowerShellReading.GuardReads` | tools/bash/shell_windows.go:143-150 | read back, a guarded command is the command under a test, -eq or -ne, that passes exactly when the exit code calls for it |
| `PowerShellChain.TranslationIsOperatorFree` | tools/bash/shell_windows.go:137-157 | for every parse without nested operators, the emitted text read again shows no chain operator at any depth |
| `PowerShellChain.TranslationKeepsMeaning` | tools/bash/shell_windows.go:132-157 | for every parsed command: the translation keeps step with left-associative AND-OR evaluation (section 2.9.3 of the POSIX Shell Command Language) if and only if each command that is run sets the exit code or has the status that is there already; then the whole run does and reports the same |
| `PowerShellChain.KeepsStepIff` | tools/bash/shell_windows.go:132-157 | the same for every chain of segments |
| `PowerShellChain.SettingTells` | tools/bash/shell_windows.go:139-142 | a command that sets the exit code, or a first one that succeeds without, meets the condition |
| `PowerShellChain.SilentFailureRunsOn` | tools/bash/shell_windows.go:139-142 | a first cmdlet that fails without setting the exit code does not, and lets the second command run |
| `Delegation.LiteralRoundTrip` | tools/bash/shell_windows.go:163-177 | PowerShell reads a quoted command back exactly |
| `Delegation.UserCommand` | tools/bash/shell_windows.go:223-246 | nested operators and empty segments are delegated, other chains translated, the rest passed on; by the scanner's own rules whatever is passed on shows no chain operator at any depth, unless it is delegated through a git-bash path that is not safe; by PowerShell's rules it shows none when the path has no single quote and the command is delegated or has neither backslash nor backtick |
| `Delegation.DelegatedUnchained` | tools/bash/shell_windows.go:163-177 | by PowerShell's rules every command delegated to cmd.exe or through a path without a single quote is free of chain operators |
| `PowerShellReading.ReadingsAgree` | tools/bash/chainops.go:48-126 | for texts without backslash and backtick, PowerShell sees a chain operator exactly when the scanner does |
| `PowerShellReading.ReadingsDiffer` | tools/bash/chainops.go:58-60 | a string that ends in a backslash by PowerShell's rules hides an operator from the scanner |
| `PowerShellReading.TranslationUnchained` | tools/bash/shell_windows.go:137-157 | a chain without them is translated into a text that shows PowerShell no chain operator |
| `Delegation.DelegationSafeIff` | tools/bash/shell_windows.go:163-185 | every delegated command is free of operators if and only if the unescaped lead, with the path in it, shows no operator and leaves no quote open |
| `Delegation.QuoteFreePathIsSafe` | tools/bash/shell_windows.go:163-168 | a path without a single quote is safe |
| `Delegation.QuotedPathIsUnsafe` | tools/bash/shell_windows.go:163-168 | a path with one single quote among ordinary characters and backslashes, as under a user directory named O'Brien, is not |
| `Delegation.CmdIsSafe` | tools/bash/shell_windows.go:173-177 | the cmd.exe call is safe |
| `Delegation.HasEmptySegment` | tools/bash/chainops.go:29-36 | true exactly when some segment is empty |
| `TypeChase.TransitiveParents` | tools/codegraph/project_resolver.go:1885-1900 | exactly the types reached by one or more edges, each once, on any cyclic hierarchy |
| `TypeChase.OwnerCompatible` | tools/codegraph/project_resolver.go:1872-1883 | true exactly when the receiver's type or one above it is the owner's |
| `TypeChase.Choose` | tools/codegraph/project_resolver.go:1420-1431 | the first alias of the calling file if there is one, else the first of all |
| `TypeChase.ResolveProjectType` | tools/codegraph/project_resolver.go:1411-1438 | at most one replacement per alias name however the text grows; stops where no alias applies or a base name recurs |
| `TypeChase.ResolvedIsChainType` | tools/codegraph/project_resolver.go:1513-1544 | when no key of owner, name and line repeats on its chain, a variable gets the type of the first explicitly typed one there |
| `TypeChase.ResolvedAlways` | tools/codegraph/project_resolver.go:1513-1544 | for all facts, cyclic or not: the chase stops after at most one step per unseen key, at an explicit type, a fact without source or a repeated key, and the answer is what is found there, nothing in the last two cases, with the fields of the chain selected |
| `TypeChase.DeclaredTypeStands` | tools/codegraph/project_resolver.go:1519-1525 | a declared type stands; without one, or with `auto` or `var`, the chase goes on to the source |
| `TypeChase.SelectIs` | tools/codegraph/project_resolver.go:1533-1540 | fields are selected one after another, the first one first |
| `TypeChase.DifferentKeys` | tools/codegraph/project_resolver.go:1514-1518 | no key repeats on a chain when no two facts share one |
| `AliasTypes.PropagateTypes` | tools/codegraph/language_enhance.go:165-173 | terminates, and for every iteration order each variable has the type of the first declared one on its alias chain, or none |
| `AliasTypes.PropagatedUnique` | tools/codegraph/language_enhance.go:165-173 | the outcome does not depend on the order |
| `AliasTypes.Pass` | tools/codegraph/language_enhance.go:166-172 | one pass keeps types sound and either types a further alias or shows the fixed point |
| `RawOutput.RawOutputStore.constructor` | common/rawoutput.go:38-45 | a new store is valid and empty |
| `RawOutput.RawOutputStore.Put` | common/rawoutput.go:60-87 | a nonempty content that fits is always stored; order and map stay in bijection, bytes exact, both caps kept; with a clock that never goes back the survivors are the longest unexpired suffix of puts that fits |
| `RawOutput.RawOutputStore.Get` | common/rawoutput.go:89-95 | finds exactly the held records, and never an expired one when the clock never goes back |
| `RawOutput.RawOutputStore.RemoveExpired` | common/rawoutput.go:97-105 | only expired records go, and the oldest left is unexpired |
| `RawOutput.RawOutputStore.RemoveFirst` | common/rawoutput.go:107-119 | removing the oldest record keeps the bijection and the byte count |
| `RawOutput.AfterExpiry` | common/rawoutput.go:97-105 | dropping an expired run leaves the longest qualifying suffix for the later time |
| `RawOutput.AfterPut` | common/rawoutput.go:76-86 | making room and appending leaves the longest qualifying suffix of the longer log |
| `Capture.BoundedCapture.constructor` | common/capture.go:25-33 | a negative limit becomes zero; nothing is captured yet |
| `Capture.BoundedCapture.Write` | common/capture.go:35-65 | head and tail are the prefix and the last bytes of the remainder of everything written |
| `Capture.BoundedCapture.WriteAll` | common/capture.go:35-65 | for every split into writes only the concatenation matters |
| `Capture.BoundedCapture.Result` | common/capture.go:69-85 | the whole stream when it fits, exactly `limit` bytes of it when it does not |
| `Capture.Retained` | common/capture.go:44-63 | for every mode and limit, head and tail hold the whole stream or exactly `limit` bytes |
| `Capture.ModesKeep` | common/capture.go:44-63 | each mode keeps of a stream that does not fit the first bytes, the last bytes, or two halves of which the first takes the odd byte |
| `Capture.BackOfMore` | common/capture.go:58-63 | cutting to the last bytes commutes with further writes |
| `Navigation.ParsePath` | common/navigate.go:78-120 | the loop reads exactly the tokens of the trimmed query |
| `Navigation.TokensLoseOnlyDots` | common/navigate.go:78-120 | of any query nothing is lost but the dots outside brackets |
| `Navigation.BuildRemainingPath` | common/navigate.go:123-142 | the text of the parts after the wildcard |
| `Navigation.ParseInvertsPrint` | common/navigate.go:78-142 | for clean keys and machine integers, parsing the rebuilt text gives the parts back |
| `Navigation.FormatRoundTrip` | common/navigate.go:99-104 | reading a printed integer gives it back |
| `Navigation.FormatCanonical` | common/navigate.go:135 | integers are printed without leading zeros and signed exactly when negative |
| `Navigation.Navigate` | common/navigate.go:20-75 | with clean parts after the first wildcard, string rebuilding finds and fails exactly as direct evaluation of the parsed parts |
| `Navigation.WildcardMaps` | common/navigate.go:25-46 | a wildcard evaluates the rest of the path in every element, in order, and fails when one does |
| `Navigation.ItemAtCounts` | common/navigate.go:46-60 | index k names the k-th element from the front, -1 - k the k-th from the back, and there are no others |

## Left out

- The x86 and ARM decoders, regular expressions, text codecs, UTF-8 repair, file, network, process and database APIs: parameters, or not modelled.
- Strings are sequences of characters; the byte loops of the source test only ASCII characters, so the two agree.
- Candidate scoring with floating point, call-candidate resolution and the choice of the file an include resolves to: the choice is an input of `IncludeGraph`.
- The interned condition ids of the index and the recorded source root: facts carry no condition ids here.
- Textual operator precedence inside #if expressions: each expression is an atom of `SourceConditions`, and `IncludeGraph` speaks of every reading of the joined text.
- Trigraphs and raw string literals in what C reads: `SourceReading` resolves line ends, splices, comments, the digraph `%:`, and string and character literals.
- White space that C does not know, such as U+00A0: `SourceReading` lets C skip the same spaces around a directive as the scanner does.
- Comments, here-strings and subexpressions in PowerShell text: `PowerShellReading` knows quotes and the backtick.
- The sweep for call targets, the export table and the pointers in data: `FunctionAt.Leads` holds the addresses they give.
- IncludeGraph.AlongIsConjunction: claimed for conditions with balanced parentheses; for others it fails, as `ConditionText.UnbalancedIsFree` shows.
- Bracketed keys that contain a dot or an opening bracket: they do not survive the rebuild, and `Navigation.Navigate` excludes them by its condition.
- ShellPoolInvariant.StepKeepsInv: the pool is modelled on values, as a state machine over its atomic steps, not as a class; a step touches the shared state at most once between two points at which another thread may run.
- The order in which eviction tries sessions: it sorts by times that running commands keep writing, so the model lets it be any order.
- Progress of a blocked thread under a fair scheduler: only the absence of deadlock is stated.
- FunctionAt.FindPrologueBackward: the branch for a query inside padding is dead code in the source and has no counterpart here.
- FunctionAt.JudgeGuess: the guess is returned as a new value; the source updates the caller's record in place.
- RawOutput.RawOutputStore.RemoveFirst: the source removes an arbitrary id but is only ever called with the oldest one.
- RawOutput.RawOutputStore.Put: the early return for an empty store is unreachable and is not modelled; identifiers are taken to be new among those held.
- Capture.BoundedCapture.Result: the truncation marker and the replacement of invalid UTF-8 are not modelled.
- Error messages, warnings, result formatting, installers, archive handling, header dumpers and the path and request guards: they report, transport or refuse, and none of the modelled state depends on them.
