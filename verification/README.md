# Verification of the hard cores of the server

This project models the parts of the repository whose correctness is hardest to see by reading and proves what
they promise. Each component is modelled in the form it has: code that changes state step by step is a class or a
method over arrays, proved against functions on values; code that computes is functions and lemmas.

- **LPeg** (`Peg*.dfy`): the trees of patterns and their meaning as parsing expression grammars (PegTree), the
  analyses (PegAnalysis), the arrays and operators that build and fix trees (PegFlat, PegBuild), the check of grammars
  (PegVerify, PegLeft) and the exactness of the analyses (PegExact), the machine (PegMachine), the code generator as a function (PegCode) and as the imperative compiler
  (PegCompiler, PegCharset), the simulation of patterns by code (PegBlocks, PegClose, PegCorrect), tail calls (PegTail),
  jump threading (PegThread, PegJumps), the interpreter with its stack (PegMatch), the theorem (PegTheorem), what finalfix
  keeps (PegFixed), and the two places where compiling goes wrong, with their exact conditions: the generator (PegOpt,
  PegGuard, PegGuardExact) and the peephole pass as written (PegPass, PegSteady, PegHangs).
- **The dictionary** (`Dict*.dfy`, Entries, ReverseBits, ScanCursor, WordReverse): tables and operations on values
  (DictTables, DictState, DictProgress), the class with its two tables and the iterator (Dict), runs, scans and iterations
  (DictScan, DictCalls, DictRuns, DictFinish, DictShrink, DictIter, DictIterRuns).
- **The lock-free queue and the scheduler** (`Ring*.dfy`, `Sched*.dfy`): every shared read, write and exchange is one step of a
  state machine with any number of threads. The mailbox, the run queue and the pointer queue are the same algorithm, so one
  model stands for the three of them.
- **The allocator**: page runs, page map, counters, purging and the order of purging (`Arena*.dfy`, with two runs in
  ArenaExamples), extents (Extents, Chunks), the cuckoo hash (Cuckoo, CuckooWalk, Ckh).
- **The serializer** (`Seri*.dfy`): format, block chain, reader, and the round trip through all of them.
- **The JSON tokenizer** (JsonTokens, JsonText, JsonWriter, Jsmn).

Wrappers and Division hold what several modules share. `dafny verify dfyconfig.toml` checks everything.

Bit operations on cursors, sizes and bucket numbers are written as divisions by powers of two; the reversal of a word is
also proved on 64-bit words. Foreign functions (hashes, random numbers, allocation, memory of the system) are parameters.

## Findings

What the proofs found to be otherwise than a reader may expect.

| where | what happens | proved as |
|---|---|---|
| 3rd/lpeg-0.12/lpcode.c:740 | coderep gives opt on to the body of a loop that is entered by a test: ((a (b c)?)*)? matches only the first character of "aa". The code is the right one exactly if SafeOpt holds, and with 0 in place of opt it always is | PegOpt.OptionalMiscompiled, PegGuardExact.SameProgram, PegGuard.GuardedMeans |
| 3rd/lpeg-0.12/lpcode.c:930 | the comment says that the instruction is looked at again, but the loop then adds the size of the slot in front. Both are the same exactly if that slot, be it an offset or a buffer, counts as one; always if the jump stands behind an instruction. Else the pass may skip: on (P"a" * P"bc"^-1 + P"de")^0 * S" !#a" it never ends. What is proved of compiled patterns is for the pass that is meant | PegPass.SamePass, PegSteady.ClearIsSame, PegHangs.PassHangs |
| src/dict.c:799 | the inner loop of a scan visits all that it passes exactly if the cursor bits between the two sizes, as a number h, are ones at the right end only (h + 1 is a power of two), which a shrinking table can violate; then a key is missed | DictScan.CompleteIsNeeded, DictShrink.ShrinkingMisses |
| src/messagequeue.c:57-65, and alike src/contextqueue.c | a push may answer that the queue is full when it is empty: exactly if the queue is full, or other threads have taken out the ticket it meant to claim, and perhaps whole rounds more, between its two reads | RingAnswers.FullExactly, RingAnswers.FullWhenEmpty |
| src/worker_pool.c:67, 197 | the answer of contextQueuePush is not looked at: a context that is refused has inGlobal set for good and is never run again | SchedRuns.TokensAreExact, SchedRuns.RefusedIsLost |
| src/worker_pool.c:58-63 | a message sent after the worker found the mailbox empty and before it clears inGlobal is left in the mailbox until another one is sent; that step is the only one that leaves messages behind | SchedWakes.AwakeExactly, SchedWakes.ItIsLeft |
| 3rd/jemalloc/src/ckh.c:455-476 | an insertion that fails because the table cannot grow loses an item, and that is an old one unless the table has grown before; the map is unchanged exactly if the lost item is the new one | Cuckoo.FailureLosesOld, Ckh.Ckh.Insert |
| 3rd/jemalloc/src/arena.c:977-982 | the branch for the spare chunk is never taken: a spare chunk is not in the tree the chunk comes from | ArenaMap.SpareNotDirty |
| 3rd/jemalloc/src/arena.c:2029 | a size below the old size wraps around, so growing in place then fails even if there is room | ArenaChunk.Chunk.RallocGrow, ArenaExamples.GrowingRefused |
| 3rd/jemalloc/src/arena.c:1074-1078 | a chunk may give more pages in fragments than are left to purge; exactly then what is left wraps around, and purging goes on until no page is dirty | ArenaPool.Arena.PurgeRound, ArenaPool.Arena.Purge, ArenaExamples.PurgeWraps |
| 3rd/jemalloc/src/arena.c:120-149 | the comment has the more fragmented chunk purged first, the code has the less fragmented one first: one free run comes before two side by side | ArenaOrder.BeforeExactly, ArenaOrder.CommentIsReversed |
| 3rd/jsmn/jsmn.c:113-141 | a text that is cut off right behind a backslash in a string is called invalid, not partial | JsonText.CutString |
| 3rd/jemalloc/src/chunk.c:106-109 | without a node for the second piece the trailing space is lost | Chunks.Recycler.Recycle |

## Model

| member | source | states |
|---|---|---|
| PegTheorem.CompiledMeans | 3rd/lpeg-0.12/lpcode.c:849-893 | matching with the compiled program always ends; it accepts r exactly if the pattern matches up to r and gives up exactly if it fails; for every well-formed, acceptable pattern for which SafeOpt holds, compiled with the peephole pass that is meant |
| PegTheorem.PlainProgramMeans | 3rd/lpeg-0.12/lpcode.c:868-893 | the same, one way, for the program in which every call is still a call |
| PegTheorem.CompiledReaches | 3rd/lpeg-0.12/lpcode.c:950-959 | the same, one way, for the program after tail calls and jump threading by the pass that is meant |
| PegCorrect.Simulates | 3rd/lpeg-0.12/lpcode.c:512-787 | under the contract of codegen (the text behind starts in fl, the test at tt held, the top choice is that of the option if opt) the code emitted for a pattern does on the machine what the pattern means |
| PegGuardExact.SameProgram | 3rd/lpeg-0.12/lpcode.c:727-763 | giving opt on to loop bodies and giving 0 make the same program if and only if SafeOpt holds |
| PegGuardExact.Compare | 3rd/lpeg-0.12/lpcode.c:628-893 | the same for every piece of code under any opt, test and follow set; where SafeOpt fails the two pieces differ in a slot |
| PegGuard.GuardedMeans | 3rd/lpeg-0.12/lpcode.c:740-740 | with 0 as opt for loop bodies every well-formed, acceptable pattern is compiled to what it means, without any further condition |
| PegGuard.GuardedLoop | 3rd/lpeg-0.12/lpcode.c:727-763 | the code of a guarded loop is what coderep emits with 0 as opt for the body |
| PegGuard.GuardMeans | 3rd/lpeg-0.12/lpcode.c:727-763 | guarding the loops of a pattern changes none of its matches |
| PegOpt.OptionalIsAcceptable | 3rd/lpeg-0.12/lpcode.c:740-740 | the patterns ((a (b c)?)*)? are well formed and acceptable, and SafeOpt fails for each of them |
| PegOpt.OptionalMeans | 3rd/lpeg-0.12/lpcode.c:740-740 | such a pattern matches both characters of the subject a a |
| PegOpt.OptionalMiscompiled | 3rd/lpeg-0.12/lpcode.c:740-740 | its program accepts after the first of them |
| PegAnalysis.NullableSound | 3rd/lpeg-0.12/lpcode.c:168-202 | a pattern that matches the empty string is reported nullable |
| PegAnalysis.NoFailSound | 3rd/lpeg-0.12/lpcode.c:168-202 | a pattern reported nofail never fails |
| PegAnalysis.FixedLenSound | 3rd/lpeg-0.12/lpcode.c:209-242 | a pattern of fixed length consumes just that many characters in every match |
| PegAnalysis.FirstSound | 3rd/lpeg-0.12/lpcode.c:259-334 | a match that is followed by a character in follow starts with a character of the first set, and none is possible at the end of the subject if getfirst returns 0 |
| PegAnalysis.HeadFailExact | 3rd/lpeg-0.12/lpcode.c:341-363 | under headfail a pattern matches exactly if there is a next character and it is in the first set |
| PegExact.NullableExact | 3rd/lpeg-0.12/lpcode.c:168-202 | without predicates, look-behinds and calls a pattern is nullable, and cannot fail, exactly if it matches the empty subject |
| PegExact.FixedLenExact | 3rd/lpeg-0.12/lpcode.c:209-242 | without repetitions and calls the length is n exactly if every way through the pattern passes n characters, and none is given exactly if two ways differ |
| PegExact.FirstExact | 3rd/lpeg-0.12/lpcode.c:259-334 | without predicates, look-behinds and calls the first set is exactly that of the characters with which a way through begins, with the follow set if the pattern may be empty |
| PegCorrect.TestIsExact | 3rd/lpeg-0.12/lpcode.c:565-586 | where a test of the first set fails the pattern fails; under headfail the test decides |
| PegCharset.CharsetType | 3rd/lpeg-0.12/lpcode.c:39-78 | the class found for a set (empty, full, one character, other) is the true one |
| PegCompiler.Compiler.CodeGen | 3rd/lpeg-0.12/lpcode.c:868-893 | appends the specified code of the pattern and changes nothing before it |
| PegCompiler.Compiler.CodeChoice | 3rd/lpeg-0.12/lpcode.c:628-663 | appends the specified code of a choice, by test, by partial commit or by choice |
| PegCompiler.Compiler.CodeRep | 3rd/lpeg-0.12/lpcode.c:727-763 | appends the specified code of a repetition |
| PegCompiler.Compiler.CodeNot | 3rd/lpeg-0.12/lpcode.c:773-787 | appends the specified code of a negative predicate |
| PegCompiler.Compiler.CodeAnd | 3rd/lpeg-0.12/lpcode.c:671-687 | appends the specified code of a positive predicate |
| PegCompiler.Compiler.CodeGrammar | 3rd/lpeg-0.12/lpcode.c:818-834 | appends the specified code of a grammar, its calls closed |
| PegCompiler.Compiler.CorrectCalls | 3rd/lpeg-0.12/lpcode.c:794-811 | turns every open call of the rules into a call of its rule, or into a jump if a return follows |
| PegCompiler.Compiler.FinalTarget | 3rd/lpeg-0.12/lpcode.c:592-596 | ends, and gives the slot behind all jumps |
| PegCompiler.Compiler.Peephole | 3rd/lpeg-0.12/lpcode.c:905-944 | the pass as it is meant (a jump that became a commit is looked at again) ends, keeps every result of the program and leaves no label at a jump; the pass as written ends with the same program if every slot it steps back over counts as one |
| PegPass.SamePass | 3rd/lpeg-0.12/lpcode.c:905-944 | the pass as written and the pass as meant go through the same steps if and only if each jump that is turned into a commit has in front of it a slot whose lowest byte, read as an opcode, has size one |
| PegSteady.ClearIsSame | 3rd/lpeg-0.12/lpcode.c:905-944 | they do if no jump that leads to a commit stands behind an offset or a buffer |
| PegSteady.RunThreads | 3rd/lpeg-0.12/lpcode.c:905-944 | the pass as meant never hangs and never leaves the program |
| PegHangs.CompiledAsWritten | 3rd/lpeg-0.12/lpcode.c:927-932 | the same for the program of a pattern: then compiling as written is compiling as meant |
| PegHangs.PassHangs | 3rd/lpeg-0.12/lpcode.c:924-932 | for the pattern (P"a" * P"bc"^-1 + P"de")^0 * S" !#a", which the compiler accepts, the pass as written is caught in finaltarget and never ends |
| PegCompiler.Compiler.Compile | 3rd/lpeg-0.12/lpcode.c:950-959 | with the peephole pass that is meant, makes a program with every result of the specified one, of the same length, in which no label is at a jump; with the pass as written it is the same program if every slot stepped back over counts as one |
| PegJumps.CompiledLabelsEnd | 3rd/lpeg-0.12/lpcode.c:592-604 | no chain of jumps in a compiled pattern is endless |
| PegTail.TailCallsKeepResults | 3rd/lpeg-0.12/lpcode.c:794-811 | jumps in place of calls in front of returns keep every result |
| PegThread.RewritingKeeps | 3rd/lpeg-0.12/lpcode.c:905-944 | each rewriting of a label or a jump keeps every result |
| PegVerify.PatternTerminates | 3rd/lpeg-0.12/lptree.c:895-995 | matching an acceptable pattern gives a result on every subject |
| PegVerify.Terminates | 3rd/lpeg-0.12/lptree.c:934-995 | matching any rule of a grammar that verifygrammar accepts gives a result |
| PegLeft.AcceptedExactly | 3rd/lpeg-0.12/lptree.c:895-995 | verifygrammar accepts a grammar if and only if no used rule starts a row of more than MAXRULES calls, each made before anything that must consume, and none has a repetition of what may be empty |
| PegLeft.AcceptedIffNotLeftRecursive | 3rd/lpeg-0.12/lptree.c:934-1016 | for a grammar of no more than MAXRULES rules, which is what newgrammar lets pass: it is accepted if and only if no used rule can come back to itself without having consumed anything, and none has a repetition of what may be empty |
| PegLeft.FailsOnChains | 3rd/lpeg-0.12/lptree.c:934-974 | verifyrule fails if and only if a row of more such calls starts than it may still follow |
| PegLeft.ChecksLoops | 3rd/lpeg-0.12/lptree.c:895-915 | checkloops finds a loop if and only if some repetition, not inside a grammar of its own, has a nullable body |
| PegLeft.NotLeftRecursiveTerminates | 3rd/lpeg-0.12/lptree.c:934-995 | a grammar that is not left recursive and has no such repetition can be used as a pattern, and matching any used rule ends |
| PegLeft.MatchedIsEmpty | 3rd/lpeg-0.12/lptree.c:934-974 | what matches without consuming is counted as what may be empty |
| PegLeft.RightIsAccepted | 3rd/lpeg-0.12/lptree.c:953-957 | A <- a A / b is accepted |
| PegLeft.LeftIsRejected | 3rd/lpeg-0.12/lptree.c:953-957 | A <- A a / b is rejected |
| PegMatch.Match | 3rd/lpeg-0.12/lpvm.c:147-351 | the interpreter with its array stack ends with the result of the machine, or reports too many pending choices exactly if some state of the run is deeper than the limit |
| PegMatch.MatchPattern | 3rd/lpeg-0.12/lptree.c:1088-1106 | turning the tree, compiling it (with the peephole pass that is meant) and matching gives what the pattern means, unless the stack overflows; SafeOpt is asked of the turned tree |
| PegMatch.Vm.DoubleStack | 3rd/lpeg-0.12/lpvm.c:64-81 | fails only at the limit, and otherwise keeps the contents in a larger stack |
| PegMatch.Vm.Fail | 3rd/lpeg-0.12/lpvm.c:272-288 | drops the pending calls and takes up the last choice |
| PegFlat.CorrectAssociativity | 3rd/lpeg-0.12/lptree.c:78-90 | the loop ends, turns an operator that leans to the left to the right in place, and leaves the rest of the array as it was |
| PegFlat.FinalFix | 3rd/lpeg-0.12/lptree.c:100-126 | every sequence and choice of a tree in an array is turned in place |
| PegFlat.FixedMeans | 3rd/lpeg-0.12/lptree.c:78-126 | the turned tree matches as the tree did, for every subject |
| PegFixed.FixedKeeps | 3rd/lpeg-0.12/lptree.c:1088-1106 | a tree that is well formed and acceptable is so after finalfix, keeps SafeOpt if it had it, and has the same matches |
| PegFlat.FixedLeansRight | 3rd/lpeg-0.12/lptree.c:78-126 | afterwards no left operand has the operator of its node |
| PegBuild.LpStar | 3rd/lpeg-0.12/lptree.c:525-555 | fills an array of exactly the size asked for with the tree of p^n, or rejects an empty loop |
| PegBuild.AtLeastMeans | 3rd/lpeg-0.12/lptree.c:530-538 | p^n matches n times and then as often as it can |
| PegBuild.AtMostMeans | 3rd/lpeg-0.12/lptree.c:540-552 | p^-n matches as often as it can, but at most n times |
| PegBuild.SeqMeans | 3rd/lpeg-0.12/lptree.c:485-495 | the shortcuts of the sequence operator change no match |
| PegBuild.ChoiceMeans | 3rd/lpeg-0.12/lptree.c:504-519 | the shortcuts of the choice operator change no match |
| PegBuild.SubMeans | 3rd/lpeg-0.12/lptree.c:580-599 | the difference of charsets matches as the general form does |
| PegBuild.NewRoot2Sib | 3rd/lpeg-0.12/lptree.c:458-469 | the array of a new root with its two operands |
| PegBuild.NewSub | 3rd/lpeg-0.12/lptree.c:588-597 | the array of a difference |
| PegBuild.FillSeq | 3rd/lpeg-0.12/lptree.c:237-247 | fills the array from a place to its end with the sequence of single characters |
| PegBuild.NumberMeans | 3rd/lpeg-0.12/lptree.c:255-271 | a number matches that many characters, a negative one where there are fewer |
| PegBuild.StringMeans | 3rd/lpeg-0.12/lptree.c:277-291 | a string matches itself |
| DictRuns.RunContents | src/dict.c:208-438 | after any sequence of operations the two tables are in order and stand for the map that the same operations make of the old map |
| DictState.AddContents | src/dict.c:312-359 | adding gives the map with the new key, or leaves it if the key is there |
| DictState.ReplaceContents | src/dict.c:365-384 | replacing sets the value of the key and says whether it was new |
| DictState.DeleteContents | src/dict.c:399-434 | deleting removes the key, and says whether it was there |
| DictState.LookupIsContents | src/dict.c:479-498 | finding looks up the map, in both tables during a rehash |
| DictState.UsedIsSize | src/dict.c:336-434 | the two used counters together are the number of keys |
| DictProgress.StepMoves | src/dict.c:300-309 | a step moves the first bucket that is not empty into the other table, or puts that table in place when all is moved; with a safe iterator it does nothing |
| DictProgress.ReplaceProgress | src/dict.c:365-384 | replacing takes a rehash further or ends it |
| DictFinish.RehashFinishes | src/dict.c:300-309 | any run of additions, replacements, deletions and lookups without safe iterators ends a rehash within as many operations as there are buckets left, and one |
| DictFinish.LookupsFinish | src/dict.c:479-498 | after that many lookups and deletions there is no rehash, and dictResize works again |
| DictProgress.NextPowerLeast | src/dict.c:842-852 | the capacity is the least power of two, from the initial one on, that is not below what is asked for |
| DictProgress.AddGrows | src/dict.c:820-839 | adding to a table without a rehash starts one exactly if the table is full and may be resized, or is too full; it is to at least twice and less than four times what the table holds; otherwise the table is not overfull afterwards |
| Dict.Dict.Expand | src/dict.c:208-235 | makes the first table, or the second one of a rehash; the new state is the specified one |
| Dict.Dict.Rehash | src/dict.c:241-278 | moves n buckets, skipping empty ones, and ends the rehash when nothing is left; it ends |
| Dict.Dict.Add | src/dict.c:312-359 | adds a key if it is not there; the new state is the specified one; without safe iterators a rehash goes a bucket further or ends |
| Dict.Dict.Replace | src/dict.c:365-384 | adds or overwrites; the new state is the specified one; without safe iterators a rehash goes further or ends |
| Dict.Dict.Delete | src/dict.c:399-434 | unlinks the entry from the table that has it; the new state is the specified one; without safe iterators a rehash goes a bucket further or ends |
| Dict.Dict.Find | src/dict.c:479-498 | gives the value of the key in the map; without safe iterators a rehash goes a bucket further or ends |
| Dict.Dict.Scan | src/dict.c:746-815 | emits the buckets of the call and gives the next cursor, as specified |
| Dict.DictIterator.Next | src/dict.c:565-598 | gives the next entry and remembers the one behind it, as specified |
| WordReverse.Reverse | src/dict.c:652-660 | bit i of the result is bit 63 - i of the word, and the number it stands for is the reversal of the word's |
| DictRuns.ScanGuarantee | src/dict.c:746-815 | a scan from cursor 0 back to 0 reports every key that is there throughout, with any operations between the calls that do not start a shrinking rehash |
| DictRuns.ScanReportsAll | src/dict.c:746-815 | the same for any tables at the calls, if every call is complete |
| DictScan.CompleteIsNeeded | src/dict.c:788-811 | a call visits every bucket that it passes if and only if the cursor bits between the two sizes, read as a number h, are ones at the right end only (h + 1 is a power of two) |
| DictRuns.GrowingIsComplete | src/dict.c:799-808 | if the tables never shrink every call of a scan is complete |
| DictRuns.HalfIsComplete | src/dict.c:799-808 | every call is complete while the large table is at most twice the small one |
| DictShrink.ShrinkingMisses | src/dict.c:799-808 | a scan during which the table shrinks to a quarter misses a key that is there at every call |
| DictRuns.ScanVisitsOnce | src/dict.c:746-815 | on an unchanging table a scan ends after as many calls as there are buckets and visits each just once |
| DictCalls.ScanExactly | src/dict.c:746-815 | a call reports exactly the entries whose hashes agree with the cursor in the bits of the smaller table and that are in it or not behind the cursor in the larger one, each once |
| DictCalls.ReturnedIsThere | src/dict.c:565-598 | what an iterator returns is a key of the dictionary |
| DictIterRuns.IteratesOnce | src/dict.c:565-609 | with a safe iterator an entry that stays is returned at most once, and exactly once by the end, whatever is added, replaced or looked up meanwhile and whichever returned entries are deleted |
| Ring.StepInv | src/messagequeue.c:47-107 | every step of every thread keeps the tickets in order, the slots between them filled, and the counter exact modulo 2^32 but for the additions under way |
| Ring.StepRefines | src/messagequeue.c:52-107 | publishing appends to the queue, the successful exchange of the read index takes out the first message, and no other step changes the queue |
| Ring.RunIsFifo | src/messagequeue.c:52-107 | in every interleaving what was popped and what is queued is what was pushed, in order; never more than fits |
| Ring.QuietIsExact | src/messagequeue.c:43-45 | with no operation under way the counter is the length of the queue modulo 2^32 |
| Ring.SoloPush | src/messagequeue.c:52-77 | undisturbed, a push fails exactly if the queue is full |
| Ring.SoloPop | src/messagequeue.c:79-107 | undisturbed, a pop fails exactly if the queue is empty, and else gives the oldest message |
| RingAnswers.FullExactly | src/messagequeue.c:52-66 | in every interleaving a push answers full exactly if the queue is full, or if the ticket that seemed to be the next has been claimed, published and taken out, and whole rounds since, between the two reads |
| RingAnswers.EmptyExactly | src/messagequeue.c:79-94 | in every interleaving a pop answers that there is nothing exactly if the queue is empty, or if whole rounds of messages have been published since readIndex was read |
| RingAnswers.EndsWithAnswer | src/messagequeue.c:52-107 | an operation ends in no other way than with one of these answers or with its effect |
| RingAnswers.FullWhenEmpty | src/messagequeue.c:57-65 | one push and one pop between the two reads: the queue is empty and the answer is full |
| Ring.NextPow2Is | src/messagequeue.c:11-19 | the least power of two that is not smaller |
| RingSize.CreatedSize | src/messagequeue.c:22-32 | a queue is made with a power of two of slots, the least that is not below the number asked for, and masking a count gives the place that the model computes as a remainder |
| RingSize.MaskIsRemainder | src/messagequeue.c:47-50 | masking a word by a power of two less one is taking the remainder |
| RingSize.CreatedIsInitial | src/messagequeue.c:22-32 | a new queue is one that the runs of the model begin with |
| Scheduler.PoolIsSafe | src/worker_pool.c:51-203 | in every run no two workers dispatch one context, inGlobal is set while one does, the assertion after the exchange never fails, and each context handles its messages in mailbox order |
| Scheduler.NextGood | src/worker_pool.c:51-203 | every step keeps at most one token per context, and none where inGlobal is 0 |
| Scheduler.OneWorker | src/worker_pool.c:51-88 | no two workers run the same context |
| Scheduler.ReleaseSucceeds | src/worker_pool.c:58-63 | a worker about to release finds inGlobal set |
| Scheduler.HandledInOrder | src/context.c:74-111 | the messages a context has handled are a prefix of those its mailbox got |
| SchedTokens.Conserves | src/worker_pool.c:51-203 | with each step of each thread the tokens of a context less its inGlobal stay as they are, but for one that is lost if the run queue refuses the context |
| SchedRuns.TokensAreExact | src/worker_pool.c:51-203 | in every run a context is refused at most once; until then inGlobal is set exactly while one thread or the run queue has the token of the context, and afterwards it is set for good and there is no token |
| SchedRuns.RefusedIsLost | src/worker_pool.c:196-197 | a context that the run queue has refused is never run again |
| SchedSend.MessageIsHandled | src/worker_pool.c:134-203 | in a quiet pool a message that is sent is queued, taken by a worker and handled, and all else is as before |
| SchedWakes.AwakeExactly | src/worker_pool.c:51-203 | through every step of every thread a mailbox with messages has its inGlobal set or a sender that is still to look at it, but exactly not after a worker clears inGlobal while there is a message and no such sender; where inGlobal is set, SchedRuns.TokensAreExact says who has the context |
| SchedWakes.NothingIsLeft | src/worker_pool.c:51-203 | so it does in every run without such a step |
| SchedWakes.ItIsLeft | src/worker_pool.c:58-63 | a second message sent before the worker that found nothing clears inGlobal stays in the mailbox, with nobody to see to it |
| Seri.OneBack | lualib-src/lua-seri.c:310-353 | unpacking what was packed gives the value back and leaves what follows |
| Seri.AllBack | lualib-src/lua-seri.c:552-601 | the same for a list of values: all bytes are used up |
| Seri.GetStripped | lualib-src/lua-seri.c:263-300 | under every key that is no table the unpacked table holds the packed value, whatever the order of enumeration |
| SeriFormat.IntegerFormat | lualib-src/lua-seri.c:200-223 | an integer is a header byte of type and width and the digits of its complement, lowest first, in 0, 1, 2 or 4 bytes and in as few as hold it |
| SeriFormat.StringFormat | lualib-src/lua-seri.c:237-259 | a string of up to 31 bytes has its length in the header, a longer one in two bytes, or four if these are too few |
| SeriFormat.ScalarFormat | lualib-src/lua-seri.c:190-235 | the bytes of nil, booleans, doubles and pointers |
| SeriFormat.TableFormat | lualib-src/lua-seri.c:263-308 | a table has the length of its array part in the header or behind it, and ends with a nil |
| SeriFormat.PackedExactly | lualib-src/lua-seri.c:310-353 | packing fails exactly for values that cannot be sent and for tables more than 32 deep |
| SeriFormat.IntegerRead | lualib-src/lua-seri.c:373-402 | an integer of 0, 1, 2 or 4 bytes is read whether it is written as short as may be or not; four bytes are signed, fewer are not |
| SeriCut.CutIsInvalid | lualib-src/lua-seri.c:363-517 | no beginning of the bytes of a value is read as a value |
| SeriCut.CutBetween | lualib-src/lua-seri.c:552-585 | a message that is cut off is read exactly if it is cut between two values |
| SeriBlocks.WriteBlock.Push | lualib-src/lua-seri.c:57-76 | appends the bytes to what the chain of blocks holds, across block boundaries |
| SeriBlocks.WriteBlock.Close | lualib-src/lua-seri.c:99-105 | writes the total length into the first four bytes and changes no other |
| SeriBlocks.WriteBlock.Flatten | lualib-src/lua-seri.c:519-550 | the flat buffer is the concatenation of all pushed bytes behind the header |
| SeriBlocks.LuaSeriPack | lualib-src/lua-seri.c:587-601 | the buffer holds the specified bytes of all values, or nothing is made if nesting is too deep |
| SeriReader.LuaSeriUnpack | lualib-src/lua-seri.c:552-585 | gives the values that the bytes stand for, or fails on an invalid stream |
| SeriRoundTrip.PackAndUnpack | lualib-src/lua-seri.c:552-601 | packing into blocks, flattening and reading gives every list of values back |
| Cuckoo.EvictConserves | 3rd/jemalloc/src/ckh.c:124-191 | at every eviction the table and the item in hand are the old table and the new item, and every item is in one of its buckets |
| Cuckoo.InsertConserves | 3rd/jemalloc/src/ckh.c:194-216 | the same for a whole attempt |
| Cuckoo.RoomSuffices | 3rd/jemalloc/src/ckh.c:194-216 | a free cell in one of the two buckets is enough to succeed |
| Cuckoo.FailureLosesOld | 3rd/jemalloc/src/ckh.c:124-216 | a failed attempt always leaves the new item in the table and an old one in hand; the table is never as it was |
| Cuckoo.NewItemDisplaces | 3rd/jemalloc/src/ckh.c:124-216 | in every full table of one bucket, of any number of cells, the attempt fails so |
| CuckooWalk.EvictExactly | 3rd/jemalloc/src/ckh.c:124-191 | an eviction ends at the first bucket on its walk that has room, where the item then in hand is put, or when it is back at the bucket where it began |
| CuckooWalk.FewGetIn | 3rd/jemalloc/src/ckh.c:223-243 | as many items as a bucket has cells always get into a new table |
| Cuckoo.SearchFinds | 3rd/jemalloc/src/ckh.c:71-89 | looking into two buckets finds exactly the keys of the table |
| Ckh.Ckh.TryBucketInsert | 3rd/jemalloc/src/ckh.c:92-115 | puts the item into the first free cell around from the offset, or says that the bucket is full |
| Ckh.Ckh.EvictRelocInsert | 3rd/jemalloc/src/ckh.c:124-191 | the walk of evictions as specified; a cycle gives back the item in hand |
| Ckh.Ckh.Rebuild | 3rd/jemalloc/src/ckh.c:223-243 | the attempts to insert the items of the old table one after the other: the new table holds them, or one attempt has failed and the count is as before |
| Ckh.Ckh.Grow | 3rd/jemalloc/src/ckh.c:246-298 | a larger table with the same items, or the old table, size and count; it gives up only when an allocation fails, after trying each table it could get |
| Ckh.Ckh.Shrink | 3rd/jemalloc/src/ckh.c:301-345 | half the buckets with the same items exactly if there is memory and they get in, or else everything as it was |
| Ckh.Ckh.Insert | 3rd/jemalloc/src/ckh.c:455-476 | success adds exactly the key; failure loses one item, an old one unless the table has grown, and the map is as it was if and only if the lost item is the new one; with a free cell in a bucket of the key it succeeds; it fails only after trying each larger table it could get |
| Ckh.Ckh.Remove | 3rd/jemalloc/src/ckh.c:479-507 | removes exactly the key; the table is halved exactly if it has become sparse, is above its least size and shrinking works out |
| Ckh.Ckh.Find | 3rd/jemalloc/src/ckh.c:510-526 | gives the value of the key in the map |
| ArenaChunk.Chunk.AvailInsert | 3rd/jemalloc/src/arena.c:214-244 | the counters, the dirty tree and the list of free runs after a run is put on |
| ArenaChunk.Chunk.AvailRemove | 3rd/jemalloc/src/arena.c:247-278 | the same after a run is taken off |
| ArenaMap.InsertedCounts | 3rd/jemalloc/src/arena.c:214-244 | inserting keeps the counters equal to a recount, and there are more free runs than pairs |
| ArenaMap.RemovedCounts | 3rd/jemalloc/src/arena.c:247-278 | removing keeps the counters equal to a recount |
| ArenaMap.Neighbours | 3rd/jemalloc/src/arena.c:175-203 | the tags beside a run tell whether its neighbours are free |
| ArenaChunk.Chunk.SplitLarge | 3rd/jemalloc/src/arena.c:370-468 | the first pages of a free run come into use and the rest stays free; tags, tiling, counters and coalescing are kept |
| ArenaChunk.Chunk.AllocLarge | 3rd/jemalloc/src/arena.c:663-715 | splits the smallest sufficient free run, of those the first, or the spare chunk; fails exactly if no run is large enough |
| ArenaChunk.Chunk.CoalesceForward | 3rd/jemalloc/src/arena.c:1092-1124 | joins the run to the one behind it exactly if that is free and as dirty |
| ArenaChunk.Chunk.CoalesceBackward | 3rd/jemalloc/src/arena.c:1126-1157 | joins it to the one before; then no two free runs of a kind are side by side |
| ArenaChunk.Chunk.Dealloc | 3rd/jemalloc/src/arena.c:1160-1233 | the runs become those with the run given back and joined; the chunk becomes the spare exactly if it is one free run |
| ArenaChunk.Chunk.TrimHead | 3rd/jemalloc/src/arena.c:1236-1265 | the head of a run in use is cut off and given back |
| ArenaChunk.Chunk.TrimTail | 3rd/jemalloc/src/arena.c:1268-1298 | the tail of a run in use is cut off and given back |
| ArenaChunk.Chunk.RallocGrow | 3rd/jemalloc/src/arena.c:2014-2076 | grows exactly if the next run is free and large enough and size is not below the old size, by the pages the code computes; otherwise nothing changes |
| ArenaChunk.Chunk.StashDirty | 3rd/jemalloc/src/arena.c:828-883 | takes just the purgeable runs into use; no free runs are side by side then, and none is dirty if all were asked for |
| ArenaChunk.Chunk.UnstashPurged | 3rd/jemalloc/src/arena.c:934-952 | gives the stashed runs back clean; no free runs are side by side |
| ArenaChunk.Chunk.Purge | 3rd/jemalloc/src/arena.c:955-999 | the number returned is that of the pages in the runs taken: all dirty ones if everything is asked for or nothing is fragmented, and else just the fragments; the dirty pages go down by it; pages in use are as before; none are dirty if all were asked for or nothing was fragmented |
| ArenaChunk.Chunk.ChunkDealloc | 3rd/jemalloc/src/arena.c:631-660 | a chunk that is one free run becomes the spare, and its run leaves the list |
| ArenaMap.SpareNotDirty | 3rd/jemalloc/src/arena.c:955-978 | a chunk in the tree of dirty chunks is never the spare |
| ArenaRuns.SplitThenRelease | 3rd/jemalloc/src/arena.c:370-1233 | giving back what was split off undoes the split |
| ArenaOrder.DirtyCompTotal | 3rd/jemalloc/src/arena.c:105-160 | of two different chunks in the tree exactly one comes first, whichever way they are compared |
| ArenaOrder.BeforeExactly | 3rd/jemalloc/src/arena.c:105-160 | the chunk comes first of whose free runs the smaller part is next to another; of equally fragmented ones the one at the higher address if they have no such runs, else the one at the lower |
| ArenaOrder.UnfragmentedFirst | 3rd/jemalloc/src/arena.c:139-149 | a chunk without free runs side by side comes before every chunk with some |
| ArenaOrder.CommentIsReversed | 3rd/jemalloc/src/arena.c:119-149 | one free run comes before two side by side, where the comment has the second first |
| ArenaOrder.DirtyCompTransitive | 3rd/jemalloc/src/arena.c:105-160 | the order of purging is transitive |
| ArenaPool.Arena.AllocLarge | 3rd/jemalloc/src/arena.c:663-715 | takes the first pages of the best free run of all chunks, else of the spare chunk, else of a new one; fails exactly if there is none of these; the counters of the arena are the sums over its chunks |
| ArenaPool.Arena.SearchAll | 3rd/jemalloc/src/arena.c:663-683 | finds the first run in the order of the tree that is large enough, over all chunks but the spare |
| ArenaPool.Arena.Dealloc | 3rd/jemalloc/src/arena.c:1160-1233 | gives a run back; a chunk that is one free run becomes the spare and only the old spare leaves the arena, with the sums unchanged |
| ArenaPool.Arena.FirstDirty | 3rd/jemalloc/src/arena.c:1028-1038 | the least fragmented chunk with dirty pages, of several the last without fragments or else the first; one without fragments if there is one; if none is found no page is dirty |
| ArenaPool.Arena.WrapsOnlyFragmented | 3rd/jemalloc/src/arena.c:1040-1079 | the first round wraps around only if every chunk with dirty pages has fragments |
| ArenaPool.Arena.PurgeRound | 3rd/jemalloc/src/arena.c:1040-1079 | a round purges some pages, and what is left to do wraps around if and only if the chunk has fragments and they are more pages than was asked for; else it is what was asked for (all dirty pages, if these are more and no fragments) less the pages purged |
| ArenaPool.Arena.Purge | 3rd/jemalloc/src/arena.c:1002-1080 | purging ends, leaves the pages in use as they are, and leaves no dirty page or, if not all were asked for, few enough, but no whole chunk less than that; none if what is left to do has wrapped around, which happens if the first chunk purged has more pages in fragments than are asked for, and not if all is purged or nothing is fragmented |
| ArenaExamples.PurgeWraps | 3rd/jemalloc/src/arena.c:1040-1079 | 80 pages in use and a fragment of 12 dirty ones, of which 2 are to be purged: what is left to do wraps around |
| ArenaExamples.GrowingRefused | 3rd/jemalloc/src/arena.c:2013-2034 | a run of 10 pages with 989 free ones behind it that is to have 5 pages and up to 20 more is not grown |
| Chunks.Recycler.Recycle | 3rd/jemalloc/src/chunk.c:45-136 | takes an aligned range out of the best fitting extent and covers all else as before, or fails exactly if nothing fits or no node is left for a second piece, whose loss it states; both trees hold the same sound extents |
| Chunks.Recycler.Record | 3rd/jemalloc/src/chunk.c:213-298 | exactly the range is added, joined to the extents it touches, or nothing if there is no node and no extent begins behind it; the joined extent is known to be zeroed exactly if all of it was |
| Extents.Joins | 3rd/jemalloc/src/chunk.c:235-285 | joined with the extents it touches a range is apart from all others |
| Extents.Carved | 3rd/jemalloc/src/chunk.c:76-118 | what is left of an extent covers all of it but the range |
| Extents.LeadBound | 3rd/jemalloc/src/chunk.c:75-77 | the leading space of an aligned range is at most the alignment less a chunk |
| Jsmn.Parser.Parse | 3rd/jsmn/jsmn.c:153-271 | the result and the tokens are those of Fill in every case; on success the tokens are a forest in the order of the text with exact numbers of children, all closed, and their number is the result and that of the run without tokens |
| Jsmn.Parser.ParseString | 3rd/jsmn/jsmn.c:86-148 | the string ends where StringEnd says, by JsonText.StringEndIs the first quote that is not escaped, or the specified error is given and the place restored |
| Jsmn.Parser.ParsePrimitive | 3rd/jsmn/jsmn.c:37-81 | the primitive ends at the next delimiter or at the end of the text |
| Jsmn.Parser.CloseBracket | 3rd/jsmn/jsmn.c:184-229 | closes the innermost open container if it is of the kind of the bracket, and makes the next one outwards the current one |
| Jsmn.Parser.OpenBracket | 3rd/jsmn/jsmn.c:166-183 | a new open container, counted as a child of the current one |
| JsonTokens.ParsedIsCount | 3rd/jsmn/jsmn.c:153-271 | a text that parses has as many tokens as a run without a token array counts |
| JsonTokens.AddedForest | 3rd/jsmn/jsmn.c:153-271 | a token added behind all others keeps the forest and every number of children |
| JsonTokens.ClosedForest | 3rd/jsmn/jsmn.c:184-229 | closing the innermost open container keeps the forest |
| JsonText.StringEndIs | 3rd/jsmn/jsmn.c:96-148 | a string ends at the quote behind its plain characters and whole escapes, and at no quote within them |
| JsonText.WrittenParses | 3rd/jsmn/jsmn.c:153-271 | a text written from values, containers and any gaps has just the tokens of these values, with the places where they were written and the numbers of their parts; without room for all the result is that there is none |
| JsonWriter.WrittenIsRead | 3rd/jsmn/jsmn.c:153-271 | a JSON value that is written with quotes, backslashes and control characters escaped, and any white space, is read with one token for each value and key |
| JsonWriter.EscapeAllBack | 3rd/jsmn/jsmn.c:113-141 | what was escaped for writing stands for the same characters |
| JsonWriter.QuoteInString | 3rd/jsmn/jsmn.c:99-122 | the text ["a\"b"] has two tokens, the string at 2 to 6 |
| JsonText.CutParses | 3rd/jsmn/jsmn.c:264-269 | a text that ends inside a container is partial |
| JsonText.WrongBracket | 3rd/jsmn/jsmn.c:184-229 | a bracket that does not close the innermost container makes the text invalid |
| JsonText.CutString | 3rd/jsmn/jsmn.c:96-148 | a string that is cut off is partial, but invalid if it is cut right behind a backslash |

## Left out

- LPeg captures, run-time captures, printing, the Lua stack and the key table.
- Grammars inside rules of grammars: verifyrule gives their plain nullability and drops what surrounds them, so acceptance is not enough there.
- Open calls outside grammars and the collecting of rules (lptree.c:815-889); a call is a rule number from the start.
- The byte layout of instructions: a slot of the program is an instruction, an offset or a part of a character set. PegPass reads slots by their lowest byte, as on a machine that stores it first; what addinstruction leaves unwritten is not read.
- PegCompiler.Compiler.Peephole: is the pass that the comments describe, because the pass as written need not end (PegHangs.PassHangs); what that one does once it has skipped is not described further.
- PegCompiler.Compiler.Compile: is compiling with that pass.
- PegTheorem.CompiledMeans: needs SafeOpt, because lpcode.c:740 miscompiles some patterns without it; whether a pattern that violates it still matches as it should on every subject asks whether one pattern can match where another fails, so the exact condition is stated for the code (PegGuardExact.SameProgram) and not for the matches.
- PegMatch.MatchPattern: is matching with a program compiled with that pass; it says nothing of the result when the stack limit is reached, as the original raises an error then.
- Dict: chains are sequences and not linked nodes; tables of 2^31 buckets and more, destructors, random keys, fingerprints of unsafe iterators and wall-clock rehashing.
- Ring: tickets are unbounded, so a thread that stalls for 2^32 operations is not modelled; steps are sequentially consistent; reading or writing a message is one step.
- Scheduler: that threads go on being scheduled, the lifetime of contexts across the lookup, reference counts, sleeping and waking of workers; src/worker.c calls functions that the pool does not have.
- Seri: strings whose length has its top bit set, array sizes sent as doubles, NaN as a key, identity of tables used as keys, and the reader's mode over a chain of blocks. Numbers that are no integers are opaque eight-byte values.
- Ckh: random numbers come from a finite supply for each attempt; an attempt that uses it up has no claim but that. Element sizes and memory limits of the table are parameters.
- ArenaChunk: small runs, whose size comes from their bin, zeroing, statistics and locks.
- ArenaPool: a chunk's place among the others stands for its address; what another thread does while the lock is dropped for purging is not modelled, so no pages are in purgatory when purging begins.
- Chunks: red-black trees are sets; whether a range is in the data segment, the radix tree and statistics.
- Jsmn: texts of 2^31 characters and more, parsing that goes on with a parser that was stopped by an error, the strict mode and parent links. Behind the text there is its terminating NUL.
- Sockets, event loops, logging, timers, framing buffers, lists and block queues are calls into the system or would only add easy members.
