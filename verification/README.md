# Proofs about xv6, its paging extension, and the Sixth Edition C compiler

This project models the parts of the repository whose correctness is hardest to
see from the code, and proves what they are for.  All sources are cited by path
and line in the table below.  `dafny verify dfyconfig.toml` checks everything.

Code that changes state step by step is modelled as classes and loops proved
against functions and predicates over values; the theorems about whole runs,
whole programs and round trips are lemmas about those.

## What is modelled

**Crash-safe log** (`LogFormat`, `LogCache`, `LogReserve`, `LogDevice`, `LogRuns`,
`LogDurable`, `LogBuffers`; `xv6-x86/log.c`).  The redo log over a cached disk, first as an object
whose ghost field records every disk image a power failure can leave, then as a machine
in which operations of many processes interleave and which may crash before or after any
single block write, recovery included.  A buffer is changed and logged in one step,
because its sleep lock is held meanwhile; home blocks lie outside the log.  Atomicity
holds for operations that write as much and as often as they like.  So does durability:
what has ended is on disk for good as soon as no operation is outstanding and no commit
under way (`Durability`); a step can be taken wherever the code can go on
(`StepsExactly`), and a commit ends after a number of block writes that is known
(`ProceedEnds`).  The reservation of
`begin_op` is a promise about distinct blocks: what is listed and what the open
operations may still name fit in `LOGSIZE` blocks, in every run in which each operation
names at most `MAXOPBLOCKS`.  Three findings.  In a log of the size that `mkfs` makes,
`LOGSIZE` blocks with the header, one too few, `log_write` can panic within the
reservation (`NeverPanicsIff` gives the exact condition).  In a longer log it can panic
for a block that is listed already, when the log is full, because the test for a full log
comes before absorption (`PanicsExactly`, `RewritePanics`).  And since `NBUF` is
`LOGSIZE`, in a longer log a full commit finds no buffer for the blocks of the log, so
that no length of the log is safe (`SafeIff`, `NeverSafe`).

**File contents** (`FsLayout`, `FsInodes`, `FsState`, `FsSteps`, `FsRoom`, `FsFiles`,
`CrashFiles`; `xv6-x86/fs.c`, `xv6-x86/file.c`).  Bitmap bytes, direct and indirect block
maps, inodes in memory and as 64-byte slots of the inode blocks.  Files refine flat byte
strings; each block has at most one owner and is marked; reading and writing are exact at
every offset, including the error returns; each chunk of `filewrite` names no more
distinct blocks than the log allows an operation, and every block it changes is among
them.  The panic of `balloc` is a result, and comes exactly when fewer blocks are free
than the file needs to grow.  Each file operation is one step here.  `CrashFiles` puts
this on the log: what a crash leaves recovers to the files, with their types, devices and
link counts, as whole operations have left them, for operations whose writes to the log follow one another.

**Buffer cache** (`BufRing`, `BufCache`; `xv6-x86/bio.c`, `xv6-x86/memide.c`).
The ring by pointer surgery, reference counts, sleep locks, dirty bits and the
synchronous disk.  Clients follow the protocol of the code's own comments: they
change a buffer only while it is locked, and write it or mark it dirty before they
let it go.

**Heap** (`HeapLists`, `Heap`, `HeapAllocator`; `xv6-x86/umalloc.c`).  The circular
free list through headers in memory, `sbrk` as a break that the kernel moves or
refuses to move.  Sizes are 32-bit: `RoomIff`, `ShiftIff` and `HugeRequest` say
exactly when rounding up and the byte count given to `sbrk` wrap, and `Malloc` says what
then happens: a block is handed out that `sbrk` has not given.

**Address spaces** (`PageTables`, `FrameLists`, `Mappings`, `PageCounts`, `PageAccess`,
`AddressSpaces`; `xv6-x86/vm.c`, `xv6-x86/kalloc.c`).  Physical memory as pages of 32-bit words, the
frame list threaded through the free pages, two-level tables as words in those
pages.  Frames are conserved on every path, including each failure; a call fails exactly
when fewer pages are free than it takes, page tables included.  `PageAccess` is the
processor's view: it goes through both levels, and a page may be written, or used by user
programs, only if both entries say so.

**Swapping** (`SwapState`, `SwapRelease`, `Swapping`; `xv7/paging.c`, `xv7/fs.c`,
`xv7/bio.c`, `xv7/vm.c`).  Pages move between frames and runs of eight disk blocks.  The
entries of all address spaces form one table; the choice of the victim is a parameter;
the bitmap is written outside the log, so nothing is claimed of crashes.  Findings:
`map_address` loses a frame exactly when the page has no page table, or is present and is
not itself swapped out to make room (the test for a present page is commented out at
xv7/paging.c:238-257); `deallocuvm` frees the run of a swapped page but leaves the entry,
so it keeps the invariant exactly if no page of its range is swapped (`DropKeepsIff`).
Freeing such a page once more, as `freevm` does after `sbrk` has shrunk a process, panics
if the run is still free (`SecondDropPanics`) and otherwise frees blocks of whoever has
been given them (`DropTakes`, `StealsRun`, `StolenRun`).  And a page comes back from disk
readable, writable and open to its process, whatever it was before (`AccessKeptIff`).

**Processes and pipes** (`ProcTable`, `ProcRuns`, `ProcSteps`, `Pipe`, `PipeRuns`;
`xv6-x86/proc.c`, `xv6-x86/pipe.c`).  Interleavings of the code that the locks keep
together, any number of CPUs and processes of the table.  `ProcSteps` says exactly when a
process changes its state and by whose doing, and that the lock is always given up again.  The counters of the pipe
wrap at 2^32.  A writer killed while the pipe is full returns without waking the
readers; `CalmIff` shows that this is the only step that loses a wakeup, and
`LostWakeup` is a run that does.

**Shell parser** (`ShellGrammar`, `ShellRoundTrip`, `ShellAccept`, `ShellParser`;
`xv6-x86/sh.c`).  Tokens, the recursive parser over a moving pointer, and the termination of all
strings in the one shared buffer.  The words of a command are stored through a
pointer to the inner command while redirections are wrapped around it; here the
tree is a value, and the word is added below the redirections.  `ShellAccept` says what a
line means from its tokens alone; the parser gives that tree, and panics on every other
line.

**Matcher** (`Matcher`; `xv6-x86/grep.c`).  The recursive matcher against a
declarative meaning of patterns.

**Expression parser** (`ExprParser`, `ExprTrees`, `ExprRoundTrip`, `ExprLevels`,
`ExprAccept`; `v6/c/c00.c`, `v6/c/c05.c`).
The two-stack operator-precedence parser with its priorities, its symbol-dependent
changes of operators and both stack limits.  With `initflg` set, a comma and a colon
are weaker than the bottom of the stack, as in the code.  `ExprLevels` lists the levels of
C's operators apart from the parser's table; `|` and `^` share one, as in the code.
`AcceptedIff` says that what is accepted is exactly the texts of expression trees, as long
as a name follows each `.` and `->`; where a parenthesis or a prefix operator does, the
selection is built too early, and `c+a.(b)` is read as `(c.a)+b` (`DotMisread`).

**Optimizer** (`Words`, `Trees`, `OptimTerms`, `Optimizer`; `v6/c/c12.c`,
`v6/c/c11.c`).  16-bit words, `ash` with six-bit counts, trees of type INT without
side effects, division by zero as an arbitrary value, folding a division by zero as
a stop.  The rule that takes a shift into a sum is wrong exactly for positive constant
counts that `ash` reads as right shifts (`ExpandShiftIff`).  `Optim` keeps the value of
every tree on which that rule is never applied with such a count; no such application
happens in a tree without a constant shift of that kind over a sum; and for
`((x+c)<<d)+y` the value is kept if and only if `d` is not such a count
(`OptimShiftedSum`).  A division by a power of two becomes a shift that is right only for
some dividends (`ShiftForQuotientIff`).  Running past the twenty nodes of the list is an
outcome: a tree with more than twenty nodes of one operator on top never yields a result,
one with only leaves below them overflows exactly then, and a tree never does in which
each operator that may come into a list has a weight of at most 61.  A division check comes
only where a divisor is 0 in every environment.

**Statements** (`Statements`, `StmtMeaning`, `StmtLaws`, `StmtLabels`, `StmtPasses`,
`StmtCorrect`, `StmtEmit`; `v6/c/c02.c`, `v6/c/c04.c`, `v6/c/c11.c`, `v6/c/c10.c`).
If, while, do, for, switch, break, continue and return in every legal nest, with
conditions left to the second pass, which splits them into branches on their leaves.
What a statement means is given by an interpreter with a step bound, which obeys the laws
by which C defines its loops (`StmtLaws`); what the code
means, by a small machine over labels and branches.  The first pass's labels are
numbered below the second's.

**Intermediate file** (`Intermediate`, `IntermediateRoundTrip`, `IntermediateFile`;
`v6/c/c04.c`, `v6/c/c11.c`).  Trees, labels and branches as bytes and back.  Where the
code complains and goes on, or runs below its stack, the reader stops here; the end
of the file reads as -1.

**Switches** (`Switches`; `v6/c/c11.c`).  Sorting with duplicate detection and the
three kinds of dispatch, interpreted on the tables they print.  The loop that prints
a direct table never ends if the last case is 32767.

## Model

| member | source | states |
|---|---|---|
| LogFormat.RecoverIff | xv6-x86/log.c:70-122 | recovery leaves home blocks e exactly when e shows, for every block the header names, its log slot, and every other home block as it was |
| LogFormat.RecoveredAt | xv6-x86/log.c:70-122 | what recovery restores, block by block |
| LogFormat.RecoverTwice | xv6-x86/log.c:116-122 | recovering a recovered image changes no home block |
| LogFormat.RecoverAfterPartialInstall | xv6-x86/log.c:70-82 | a crash after any number of installed blocks recovers to the same home blocks |
| LogCache.LogStep | xv6-x86/log.c:178-190 | copying one pinned block to its slot leaves every home block and the recovered image alone |
| LogCache.HeadStep | xv6-x86/log.c:193-198 | the header write is the commit point: before it the old image is recovered, from it on the new one |
| LogCache.InstallStep | xv6-x86/log.c:70-82 | installing one slot keeps the image that recovery would restore |
| LogCache.EraseStep | xv6-x86/log.c:199-201 | the erasing header write leaves a quiet log over the installed image |
| LogCache.CrashWhileInstalling | xv6-x86/log.c:70-82 | at every moment of installing, recovery restores the whole group |
| LogCache.LogWriteStep | xv6-x86/log.c:214-233 | a logged write shows in the cache, is absorbed if the block is already named, and touches no disk block |
| LogDevice.Log.constructor | xv6-x86/log.c:54-66 | booting from any image a crash may leave restores its committed blocks, and a crash at any write of the recovery is harmless |
| LogDevice.Log.RecoverFromLog | xv6-x86/log.c:116-122 | the disk ends up recovered, with an empty log; each image on the way recovers to the same home blocks |
| LogDevice.Log.ReadHead | xv6-x86/log.c:86-96 | the list in memory is what the header block names |
| LogDevice.Log.WriteHead | xv6-x86/log.c:102-113 | one write, which changes only the count and the first n words of the header |
| LogDevice.Log.WriteLog | xv6-x86/log.c:178-190 | all slots hold what the file system sees of their blocks, and every crash on the way recovers the old home blocks |
| LogDevice.Log.InstallTrans | xv6-x86/log.c:70-82 | every home block named gets its slot; every crash on the way recovers the new image |
| LogDevice.Log.Commit | xv6-x86/log.c:193-202 | there is one write before which every image recovers to the old home blocks and from which on every image recovers to the new ones |
| LogDevice.Log.BeginOp | xv6-x86/log.c:126-141 | an operation waits exactly while a commit runs or the log could not hold MAXOPBLOCKS distinct blocks of every operation; once admitted, the listed blocks and all the blocks that the open operations may still name fit in the log |
| LogDevice.Log.EndOp | xv6-x86/log.c:146-174 | the last operation to leave commits all that was written; the others change nothing on disk; the reservation of those that stay is kept |
| LogDevice.Log.LogWrite | xv6-x86/log.c:214-233 | succeeds exactly when the log is not full (tested before absorption) and an operation is open, which is so for every operation that has named fewer than MAXOPBLOCKS blocks if all kept within that; then the block shows the new data, is pinned, and is listed once |
| LogRuns.NextKeeps | xv6-x86/log.c:126-233 | the invariant of the logging layer is kept by every step of every interleaving, crashes during recovery included |
| LogRuns.RunInv | xv6-x86/log.c:126-233 | and so it holds all through every run |
| LogRuns.CrashAtomicity | xv6-x86/log.c:68-202 | at every point of every run, whatever the operations write and however often, the disk recovers to exactly the committed groups, and a group is all the writes of whole operations, never part of one |
| LogRuns.RecoveryCompletes | xv6-x86/log.c:116-122 | whenever no commit or recovery is under way, the disk itself holds the committed image and readers see it with the open group applied |
| LogRuns.CommittedGrows | xv6-x86/log.c:193-202 | what was committed stays committed through crashes and all |
| LogDurable.StepsExactly | xv6-x86/log.c:126-233 | in every state of the invariant a step can be taken if and only if its part of the code can be reached there, told without the steps: an operation begins only between commits, logs only while open, and a commit or a recovery goes on until it is over |
| LogDurable.ProceedEnds | xv6-x86/log.c:69-123 | each block write brings a commit or a recovery nearer to its end, where operations run again over an empty log |
| LogDurable.AlwaysSettled | xv6-x86/log.c:145-175 | in every state of every run in which no commit is under way and no operation is outstanding, nothing is pending: no group is open, no operation has ended uncommitted and no block is listed |
| LogDurable.IssuedIsGiven | xv6-x86/log.c:213-233 | the writes on record for an operation are those its calls of log_write gave, in order |
| LogDurable.Durability | xv6-x86/log.c:145-175 | once an operation has ended and, without a crash in between, no operation is outstanding and no commit under way, then at every later point of the run, through any number of crashes, the disk recovers to an image that holds all writes this operation ever gave to log_write |
| LogReserve.Admitted | xv6-x86/log.c:134-136 | the test of begin_op is enough for what is listed and all that may still be named to fit in LOGSIZE blocks |
| LogReserve.Named | xv6-x86/log.c:221-229 | naming a block, new or absorbed, within the allowance keeps it so |
| LogReserve.Gone | xv6-x86/log.c:146-155 | and so does an operation that leaves |
| LogRuns.PromiseKept | xv6-x86/log.c:126-233 | every step of every interleaving in which no operation names more than MAXOPBLOCKS distinct blocks keeps the reservation |
| LogRuns.PromiseAlways | xv6-x86/log.c:126-233 | and so it holds all through every such run |
| LogRuns.PanicsExactly | xv6-x86/log.c:218-219 | within the allowance, with any number of buffers, log_write panics if and only if LOGSIZE blocks are listed, and then only for a block its operation has named before, every operation having used up its allowance |
| LogRuns.RewritePanics | xv6-x86/log.c:218-226 | a reachable state in which log_write of a block that is listed already panics, because the test for a full log comes before absorption |
| LogRuns.FitsWithRoom | xv6-x86/log.c:134-136 | with a log of more than LOGSIZE blocks, log_write does not panic while the reservation holds and the operation has named fewer than MAXOPBLOCKS blocks |
| LogRuns.NeverPanicsIff | xv6-x86/mkfs.c:25 | with at least LOGSIZE buffers log_write never panics, in any reachable state, for an operation with fewer than MAXOPBLOCKS blocks named, if and only if the log has more than LOGSIZE blocks; mkfs gives it exactly LOGSIZE, one too few |
| LogBuffers.NoBufferIff | xv6-x86/bio.c:78-93 | bget finds no buffer to recycle if and only if as many dirty blocks are cached as there are buffers |
| LogBuffers.StuckIff | xv6-x86/log.c:178-190 | write_log finds no buffer for a log block if and only if as many blocks are listed as there are buffers |
| LogBuffers.SafeIff | xv6-x86/param.h:10-12 | operations within their allowance make neither log_write nor a commit panic if and only if the log has more than LOGSIZE blocks and there are more than LOGSIZE buffers |
| LogBuffers.NeverSafe | xv6-x86/param.h:11-12 | with NBUF equal to LOGSIZE every length of the log lets one of the two panic |
| Words.ShiftForQuotientIff | v6/c/c11.c:473-490 | an arithmetic right shift equals division by 2^k exactly for dividends that are not negative or that 2^k divides |
| Words.ClearLowest | v6/c/c11.c:459-471 | d & (d-1) is zero only for powers of two |
| Words.AshAddIff | v6/c/c12.c:527-543 | shifting distributes over addition exactly for counts that ash takes as left shifts |
| OptimTerms.RelTables | v6/c/c10.c:11-17 | maprel is the relation with its operands exchanged, notrel its negation, and both undo themselves |
| OptimTerms.ExpandKeeps | v6/c/c12.c:527-543 | c1*(x+c2) as c1*x + c1*c2, and (x+c2)<<c1 likewise, keeps the value modulo 2^16 unless c1 is a shift count that is positive and 32 or more modulo 64 |
| OptimTerms.ExpandShiftIff | v6/c/c12.c:527-543 | for a variable x and any c2 other than 0 the rule on (x+c2)<<c1 keeps the value if and only if c1 modulo 64 is below 32 |
| OptimTerms.ExpandShiftFails | v6/c/c12.c:527-543 | for any other count the value changes where x is the largest word, or the smallest if c2 is negative |
| OptimTerms.FactorValue | v6/c/c12.c:371-442 | x*c1 + y*c2 equals (x*q + y)*c2 modulo 2^16 when c1 is q*c2 |
| OptimTerms.NandValue | v6/c/c12.c:34-48 | a & b equals a &~ ~b on words |
| Optimizer.Const | v6/c/c12.c:453-505 | folding gives the machine's own result on words, and fails exactly on division by zero |
| Optimizer.Scan | v6/c/c12.c:371-442 | the pair distrib works on has equal scales, or a dividend and a divisor with the fewest candidates; none is reported only if none qualifies |
| Optimizer.Acl.Insert | v6/c/c12.c:507-554 | flattening keeps the joined value of the list and of what is still to be inserted for every tree, unless the rule on shifts is applied with a count that ash reads the other way round; a tree over leaves overflows the list exactly if its operator nodes and those listed are more than 20; no division check without a division by what is always 0 |
| Optimizer.Acl.Place | v6/c/c12.c:544-553 | the operand joins the list, which stays in descending degree |
| Optimizer.Acl.FoldConstants | v6/c/c12.c:307-316 | at most one constant is left and the value is kept |
| Optimizer.Acl.Distrib | v6/c/c12.c:371-442 | the sum keeps its value under every environment, each round shortens the list, and no pair that qualifies is left; no division check without a division by what is always 0 |
| Optimizer.ReducedMeans | v6/c/c12.c:371-442 | after distrib no constant factor divides another, unless two are equal up to sign |
| Optimizer.Trim | v6/c/c12.c:317-340 | +0, *1, x*0 and the offset of &x go without changing the value; the units that should go are gone |
| Optimizer.Rebuild | v6/c/c12.c:343-368 | the list becomes a left-leaning tree with the same value |
| Optimizer.Acommute | v6/c/c12.c:294-369 | flattening, folding, dropping, factoring and rebuilding keep the value but for that one application; a tree with more than 20 operator nodes on top yields no result, and one with only leaves below them overflows exactly then; no division check without a division by what is always 0 |
| Optimizer.OptimRelation | v6/c/c12.c:52-59 | exchanging the operands of a comparison under maprel keeps its value, and leaves the harder one on the left |
| Optimizer.OptimQuotient | v6/c/c12.c:117-156 | dropping a divisor of one and folding constants keep the value; a division check comes exactly for a constant divided by the constant 0, and x/c and x%c otherwise stay as they are |
| Optimizer.OptimShift | v6/c/c12.c:133-156 | folding constants and dropping a zero count keep the value |
| Optimizer.Unoptim | v6/c/c12.c:167-285 | folding, pushing and doubling - ~ and ! keep the value, and leave no constant, no double and no comparison below them |
| Optimizer.Optim | v6/c/c12.c:9-165 | for every side-effect-free INT tree optim terminates, and its result has the same value modulo 2^16 under every environment unless a sum with a constant was shifted by a positive constant that is 32 or more modulo 64, which no tree without such a shift reaches; what ((x+c)<<d)+y becomes in that case differs; a division check only if some / or % in the tree has a right operand that is 0 in every environment, or that holds such a shifted sum, and none for x/c and x%c; an overflow only if some operator that may come into a list has more below it than a list holds; and no rule of folding, dropping or exchanging applies to the root of the result |
| Optimizer.ConstantDivisor | v6/c/c12.c:117-156 | a division by a constant is one by what is always 0 exactly if the constant is the word 0 |
| OptimTerms.LightTrees | v6/c/c12.c:287-292 | a tree of weight 61 or less has no operator with more below it than a list holds |
| Optimizer.OptimShiftedSum | v6/c/c12.c:527-543 | ((x+c)<<d)+y, c not 0, keeps its value through optim if and only if d is not positive or is below 32 modulo 64 |
| Optimizer.LogTwo | v6/c/c11.c:480-482 | the loop finds the exponent of the highest bit |
| Optimizer.PowerIs | v6/c/c11.c:459-482 | for a constant that ispow2 accepts, that exponent gives the constant back |
| Optimizer.StrengthReduce | v6/c/c11.c:479-486 | * by a power of two as << keeps the value; / as >> is right exactly for the dividends ShiftForQuotientIff names |
| Optimizer.PowerToShift | v6/c/c11.c:473-490 | the same after the shift has been optimized; a tree that ispow2 refuses is returned as it is |
| StmtMeaning.Simulate | v6/c/c02.c:240-551 | from any entry, the branches and labels emitted for a statement run as the statement means, for every form and every fuel |
| StmtMeaning.PickIndex | v6/c/c02.c:528-551 | dispatch takes the first case with the value, or the default, or goes behind the switch |
| StmtMeaning.TableMatches | v6/c/c02.c:377-392 | the case table lists exactly the cases of the innermost switch, in order |
| StmtLaws.GivesOne | v6/c/c02.c:240-455 | a statement has one outcome at most, whatever the bound on its steps |
| StmtLaws.SeqMeans | v6/c/c02.c:260-268 | of two statements the second runs only if the first comes to its end |
| StmtLaws.WhileMeans | v6/c/c02.c:338-358 | a while ends where its condition is false, and otherwise runs its body and itself again, which break ends and continue takes up |
| StmtLaws.DoMeans | v6/c/c02.c:360-388 | a do runs its body and then itself again if its condition is true |
| StmtLaws.ForStarts | v6/c/c02.c:458-484 | a for is its first expression and then the loop without it |
| StmtLaws.ForMeans | v6/c/c02.c:458-500 | each round of a for is the test, the body and the increment, which continue does not leave out |
| StmtLabels.FunctionLabelsUnique | v6/c/c02.c:62-77 | no label of a function is defined twice |
| StmtLabels.FunctionLabelsDefined | v6/c/c02.c:62-77 | every label a function uses is defined in it exactly once |
| StmtLabels.LabelsInRange | v6/c/c02.c:240-502 | a statement defines only labels between isn before and after it |
| StmtPasses.BranchRight | v6/c/c11.c:492-563 | the branch code of a condition jumps to lbl exactly if its truth equals cond, evaluating leaves in short-circuit order |
| StmtPasses.StaysInside | v6/c/c02.c:350-358 | break and continue never leave the construct they are legal in |
| StmtPasses.LowerUnique | v6/c/c11.c:492-563 | the labels that the second pass adds meet none of the first pass |
| StmtPasses.FunctionRuns | v6/c/c02.c:62-77 | a function's code before the second pass does what its body means |
| StmtCorrect.LowerStep | v6/c/c11.c:492-563 | each step of the first pass's code is one or more steps of the final code to the matching place |
| StmtCorrect.LowerRun | v6/c/c11.c:492-563 | and so for runs of every length |
| StmtCorrect.CompiledLabels | v6/c/c04.c:105-114 | the labels of both passes together are unique and all defined |
| StmtCorrect.CompiledRuns | v6/c/c02.c:240-551 | a call that ends makes the compiled function end with the same memory and result; one that does not keeps it running |
| StmtCorrect.CompiledStops | v6/c/c02.c:240-551 | if the compiled function stops, it is at its end and the call ends the same way |
| StmtCorrect.CompiledRight | v6/c/c02.c:240-551 | the compiled function ends with a memory if and only if the call does |
| StmtCorrect.ValueRight | v6/c/c10.c:383-406 | the value form of a condition or ?: yields its value and runs the leaves in order |
| StmtEmit.Emitter.Statement | v6/c/c02.c:240-453 | one pass with label counter and current labels writes exactly the code that is proved right, or counts an error exactly if the statement is illegal |
| StmtEmit.Emitter.SimpIf | v6/c/c02.c:306-322 | an if over break, continue or return branches straight to the target |
| StmtEmit.Emitter.HardIf | v6/c/c02.c:323-336 | the labels around both parts are as proved |
| StmtEmit.Emitter.WhileLoop | v6/c/c02.c:338-348 | while: code as proved and contlab and brklab restored |
| StmtEmit.Emitter.DoLoop | v6/c/c02.c:360-375 | do: code as proved and contlab and brklab restored |
| StmtEmit.Emitter.ForLoop | v6/c/c02.c:412-502 | for: code as proved and contlab and brklab restored |
| StmtEmit.Emitter.SwitchStatement | v6/c/c02.c:394-402 | switch: code as proved, and the enclosing switch's table, deflab and brklab restored |
| StmtEmit.Emitter.CaseLabel | v6/c/c02.c:377-392 | a case joins the table of the innermost switch, or is an error outside one or in a full table |
| StmtEmit.Emitter.DefaultLabel | v6/c/c02.c:404-410 | default sets deflab, or is an error outside a switch |
| StmtEmit.Emitter.ChConBrk | v6/c/c04.c:253-257 | an error is counted if and only if the break stands in no loop or switch, or the continue in no loop; nothing else changes |
| StmtEmit.Emitter.Function | v6/c/c02.c:62-77 | no error is counted exactly if the body is legal, and then the code is the function's |
| Switches.Pass | v6/c/c11.c:428-457 | one pass of the bubble sort permutes the table, puts its largest value last, and reports only real duplicates |
| Switches.Sort | v6/c/c11.c:428-457 | a duplicate is reported if and only if one exists; otherwise the table is a strictly ascending permutation |
| Switches.DistinctPermutes | v6/c/c11.c:428-457 | having a duplicate does not depend on the order |
| Switches.PickPermutes | v6/c/c11.c:428-457 | nor does which label a value picks |
| Switches.DirectTable | v6/c/c11.c:361-377 | the direct table holds, for each value from first to last case, its label or the default |
| Switches.DirectRight | v6/c/c11.c:311-318 | the direct jump takes every 16-bit r0 to its label or the default |
| Switches.LinearRight | v6/c/c11.c:319-325 | the scan that ends at its sentinel takes every r0 to its label or the default |
| Switches.HashSize | v6/c/c11.c:391-409 | the chosen size is the cheapest between a quarter and half of the number of cases |
| Switches.HashRight | v6/c/c11.c:326-340 | quotient and remainder with the backward scan take every r0 to its label or the default |
| Switches.SameWord | v6/c/c11.c:326-340 | quotient and remainder determine a word |
| Switches.QuotientFits | v6/c/c11.c:326-340 | the quotient of an unsigned word by two or more fits what div leaves |
| Switches.PSwitch | v6/c/c11.c:342-426 | for every table of words: duplicate reported iff there is one, the direct loop is endless iff the last case is 32767, and otherwise every r0 reaches the label of its case or the default |
| ExprParser.Tree | v6/c/c00.c:468-670 | the loop over two stacks does what the step machine does, on every input, errors included, and takes as many symbols |
| ExprParser.Operator | v6/c/c00.c:604-665 | the inner loop builds exactly the operators that the new one does not go above |
| ExprRoundTrip.Flush | v6/c/c00.c:604-665 | an operator of lower priority builds all that is pending of a tree, in order |
| ExprRoundTrip.ReadTree | v6/c/c00.c:468-670 | reading a printed tree leaves its pending operators on the stack and has made the other calls |
| ExprRoundTrip.RoundTrip | v6/c/c00.c:468-670 | for every tree printed with only the parentheses priority and associativity need, or with more, within the stack limits, the build calls are exactly those of the tree in postorder, and the symbol that ends it is left |
| ExprLevels.TableAgrees | v6/c/c05.c:14-106 | the table orders the infix operators, and groups them to the left or right, as C's levels do, from * / % down to the comma |
| ExprLevels.SameText | v6/c/c05.c:14-106 | printing by the table and printing by C's levels give the same text |
| ExprLevels.ReadsAsC | v6/c/c00.c:468-670 | every expression written by C's levels and associativities, with no more parentheses than they take, is read as itself |
| ExprAccept.Reduces | v6/c/c00.c:604-665 | an operator or a closing symbol builds pending operators with their operands until it meets a bracket, the bottom or a weaker operator, and the text read so far is that of what is held |
| ExprAccept.Step | v6/c/c00.c:482-622 | each symbol extends the text of the expression that is held, or ends it, or is refused |
| ExprAccept.AcceptedIff | v6/c/c00.c:468-670 | tree() takes the first n symbols, a name following each . and -> among them, and makes certain calls, if and only if they are the text of an expression tree within the stack limits with exactly these calls |
| ExprAccept.DotMisread | v6/c/c00.c:604-622 | c+a.(b) is no expression, but is read as (c.a)+b |
| Intermediate.TablesAgree | v6/c/c05.c:16-128 | the two passes' tables give an operator the same BINARY bit if and only if it is none of the eleven listed ones |
| Intermediate.BuiltAgreed | v6/c/c01.c:17-82 | every operator the expression parser builds a node with, but sizeof, is one on which the tables agree |
| IntermediateRoundTrip.StepNode | v6/c/c11.c:630-818 | each record takes its operands off the stack and puts its node there, or finds the stack or treespace full |
| IntermediateRoundTrip.NameRead | v6/c/c11.c:820-834 | an external name comes back with its eight bytes |
| IntermediateRoundTrip.TreeRead | v6/c/c11.c:630-818 | reading what treeout wrote puts the same tree on the stack, on top of whatever is there |
| IntermediateRoundTrip.TreeBotched | v6/c/c11.c:641-642 | a tree too deep or too large makes the reader complain |
| IntermediateRoundTrip.FileRead | v6/c/c11.c:630-818 | a written file reads back record by record as it was if every expression fits, and ends in a complaint if one does not |
| IntermediateFile.TreeWriter.TreeOut | v6/c/c04.c:56-100 | exactly the bytes that are proved to read back are appended |
| IntermediateFile.TreeWriter.PutString | v6/c/c04.c:322-329 | at most eight characters up to a zero, then a zero |
| IntermediateFile.TreeWriter.Rcexpr | v6/c/c04.c:48-54 | a tree and its EXPR record |
| IntermediateFile.TreeReader.OutName | v6/c/c11.c:820-834 | the characters up to a zero, padded to eight |
| IntermediateFile.TreeReader.ReadRecord | v6/c/c11.c:640-816 | one round of the loop on expstack is one step of the reader |
| IntermediateFile.TreeReader.GetTree | v6/c/c11.c:630-818 | the loop gives all records of the file, or the complaint, as specified |
| Heap.AddedTouch | xv6-x86/umalloc.c:25-44 | only the block put in can come to touch a neighbour |
| Heap.FreedChain | xv6-x86/umalloc.c:25-44 | after a free the list is in address order and no two blocks touch |
| Heap.FreedUnits | xv6-x86/umalloc.c:25-44 | exactly the units of the freed block join the list |
| Heap.FreedLinks | xv6-x86/umalloc.c:25-44 | the two header writes of free link the new list in one cycle |
| HeapAllocator.Allocator.constructor | xv6-x86/umalloc.c:21-22 | before the first call nothing is on the list and nothing is handed out |
| HeapAllocator.Allocator.FindPlace | xv6-x86/umalloc.c:31-33 | the search stops at the block behind which the address belongs, from wherever freep stands |
| HeapAllocator.Allocator.Release | xv6-x86/umalloc.c:34-43 | the headers become those of the merged list and no other header changes |
| HeapAllocator.Allocator.Free | xv6-x86/umalloc.c:25-44 | the block leaves the blocks handed out, the list gains it, and the heap invariant holds |
| HeapAllocator.Allocator.Sbrk | xv6-x86/proc.c:159-175 | the break moves by n and its old value is returned; -1 exactly for a growth beyond the limit or a shrinking to nothing; one below zero leaves the break alone |
| HeapAllocator.Allocator.Morecore | xv6-x86/umalloc.c:47-61 | the heap grows by at least 4096 units, all of them free, or nothing changes exactly if sbrk refuses; then some block has the units wanted; all units have been obtained from sbrk if and only if their byte count is below 2^31 |
| HeapAllocator.Allocator.Take | xv6-x86/umalloc.c:75-84 | the units handed out are the tail of the block found, and all else stays |
| HeapAllocator.Allocator.Malloc | xv6-x86/umalloc.c:64-90 | the scan ends after at most one morecore; a block of the rounded size that overlaps none is handed out, cut from the end of the first block behind freep that is large enough, or no block fits and sbrk refused; every unit is accounted for and below the break if and only if a block fitted, sbrk refused or the byte count is below 2^31 |
| HeapAllocator.FreedFits | xv6-x86/umalloc.c:47-61 | after n units are freed some block has at least n, which is why the scan succeeds |
| HeapAllocator.RoomIff | xv6-x86/umalloc.c:69-69 | the block has room for nbytes if and only if rounding up does not wrap at 2^32, and then wastes less than a unit |
| HeapAllocator.ShiftIff | xv6-x86/umalloc.c:52-55 | the bytes asked of sbrk are those of the units wanted if and only if they are below 2^31 |
| HeapAllocator.HugeRequest | xv6-x86/umalloc.c:52-55 | a request for which the byte count wraps to nothing |
| FsLayout.BitSet | xv6-x86/fs.c:66-67 | setting a bit of the bitmap changes that bit only |
| FsLayout.BitClear | xv6-x86/fs.c:91-92 | clearing a bit changes that bit only |
| FsLayout.UintSet | xv6-x86/fs.c:388-395 | writing an entry of the indirect block changes that entry only |
| FsInodes.InodeIs | xv6-x86/fs.c:228-234 | an inode slot whose shorts and words were put one by one decodes to that inode |
| FsInodes.OthersOnDisk | xv6-x86/fs.c:227-235 | bytes written inside one inode slot leave every other inode on disk as it was |
| FsState.TakenBase | xv6-x86/fs.c:57-78 | taking and clearing a free block changes no file and no owner |
| FsState.PointedBase | xv6-x86/fs.c:373-400 | a fresh block entered in a file keeps every block with one owner at most and marked |
| FsState.GivenStep | xv6-x86/fs.c:373-400 | one file gains one slot and no byte that was there changes |
| FsState.WrittenGood | xv6-x86/fs.c:482-511 | overwriting a file's block keeps ownership and marks |
| FsSteps.WriteKeeps | xv6-x86/fs.c:496-503 | each round of writei extends what is written by its bytes and touches no other file |
| FsSteps.WritingEnds | xv6-x86/fs.c:505-510 | at the end the file's content is the splice, its holes are none, and all other files are the same |
| FsSteps.LoopCount | xv6-x86/file.c:127-134 | one chunk of filewrite logs at most MAXOPBLOCKS distinct blocks, for every offset |
| FsSteps.Truncated | xv6-x86/fs.c:408-435 | once the freed blocks are unmarked, exactly the file's blocks have become free and no other file changed |
| FsFiles.FileSystem.Balloc | xv6-x86/fs.c:57-78 | the lowest free block is marked and cleared, with two blocks logged; failure only if none is free |
| FsFiles.FileSystem.Bfree | xv6-x86/fs.c:82-95 | the block's bit and no other is cleared; panics exactly if it was free |
| FsFiles.FileSystem.Bmap | xv6-x86/fs.c:373-400 | a block that is there is returned without change; otherwise the file grows by one, and what is logged is bounded; the panic comes exactly when fewer blocks are free than that takes, one or, with a new indirect block, two |
| FsFiles.FileSystem.Iupdate | xv6-x86/fs.c:221-236 | the slot of the inode in its block reads back as the inode in memory, field by field; the other inodes of that block and all other blocks are untouched |
| FsFiles.FileSystem.Readi | xv6-x86/fs.c:453-476 | exactly the file's bytes from off, cut at its end; -1 exactly past the end or on wrap-around; nothing changes |
| FsFiles.FileSystem.Writei | xv6-x86/fs.c:482-511 | the file's bytes become the splice, its type, device and link count stay, its size becomes the larger of the old one and the end of the range, every other file is untouched, the disk inode equals the one in memory, a chunk logs at most MAXOPBLOCKS blocks, and every block changed is logged; -1 exactly for a bad range; balloc panics if and only if fewer blocks are free than the file needs to grow |
| FsFiles.FileSystem.WriteThenRead | xv6-x86/fs.c:453-511 | readi after writei at the same place gives back the bytes written, all of them, unless the range is bad or too few blocks are free |
| FsFiles.FileSystem.FileWrite | xv6-x86/file.c:118-156 | the chunks together write a prefix of the buffer, all of it unless the range ends beyond the largest file; each chunk logs at most MAXOPBLOCKS distinct blocks; within the largest file balloc panics if and only if fewer blocks are free than the whole range needs; of the file only size and blocks change, and no other file changes |
| FsRoom.NeededSum | xv6-x86/fs.c:373-400 | the blocks needed for a write in two parts are those needed for the parts, the indirect block counted once |
| FsFiles.FileSystem.Itrunc | xv6-x86/fs.c:408-435 | exactly the blocks the file owned become free, bfree never panics, the inode keeps its type, device and link count, and no other file changes |
| CrashFiles.BytesBack | xv6-x86/fs.c:234-234 | a block written as words is read back as the same bytes |
| CrashFiles.RestUnique | xv6-x86/fs.c:453-476 | an image holds the files of given inodes, their types, devices, link counts and contents, in one way only |
| CrashFiles.WritesShow | xv6-x86/fs.c:482-511 | if every block an operation changed was given to log_write, those writes carry the image it started from to the one it left |
| CrashFiles.WriteOperation | xv6-x86/file.c:118-156 | writei as an operation: its at most MAXOPBLOCKS writes, all of file system blocks, take an image that holds the files to one that holds them with the bytes put into one and nothing else changed |
| CrashFiles.CrashKeepsFiles | xv6-x86/log.c:68-202 | at every point of every run, the disk recovers to files as all committed operations, performed one after the other, have left them, types, devices and link counts included |
| CrashFiles.OperationsWhole | xv6-x86/log.c:126-202 | and each of these operations is there with all it ever gave to log_write |
| BufRing.Unlink | xv6-x86/bio.c:129-130 | two pointer writes take a buffer out of the ring |
| BufRing.Relink | xv6-x86/bio.c:131-134 | four pointer writes put it behind the head |
| BufCache.Cache.constructor | xv6-x86/bio.c:39-56 | all buffers are on one ring through the head |
| BufCache.Cache.FindCached | xv6-x86/bio.c:69-76 | the scan finds the buffer of the block if there is one |
| BufCache.Cache.FindUnused | xv6-x86/bio.c:81-91 | the scan from the other end finds the clean, unreferenced buffer released longest ago |
| BufCache.LastIsOldest | xv6-x86/bio.c:78-91 | the last unused buffer on the ring is the one released longest ago |
| BufCache.Cache.Bget | xv6-x86/bio.c:62-93 | a cached block gets one more reference; otherwise the victim is the oldest unused buffer; a panic only when none is left |
| BufCache.Cache.AcquireSleep | xv6-x86/bio.c:73-73 | a reference holder gets the lock when it is free |
| BufCache.Cache.Iderw | xv6-x86/memide.c:39-60 | buffer and disk block agree afterwards, in the direction B_DIRTY says; the panics are exactly those of the code |
| BufCache.Cache.Bread | xv6-x86/bio.c:97-106 | the buffer returned is locked and has the contents last given to the block, or those on disk; nothing is written and no other buffer changes |
| BufCache.Cache.Bwrite | xv6-x86/bio.c:110-116 | the disk has the buffer's contents and the buffer is clean and valid, whether or not it had been read; it panics exactly for a block that the disk does not have |
| BufCache.Cache.ReleaseSleep | xv6-x86/bio.c:121-126 | only a buffer that was written back or marked dirty after a change is released |
| BufCache.Cache.Drop | xv6-x86/bio.c:127-141 | the last reference to go moves the buffer to the head and its release is the latest of all; another one moves nothing; the cache invariant holds |
| BufCache.Cache.MoveToHead | xv6-x86/bio.c:129-134 | the ring stays one cycle through all buffers |
| BufCache.OthersCoherent | xv6-x86/bio.c:110-116 | a disk write concerns no other buffer |
| PageTables.InstalledKeeps | xv6-x86/vm.c:45-53 | a zeroed table under an empty directory entry maps nothing and is owned by the space; the entry is present, writable and for the user, so that it takes nothing away from what the table's entries allow |
| PageAccess.WalkIs | xv6-x86/vm.c:36-55 | the processor, going through both levels, allows on a page exactly what the page's own entry says |
| PageAccess.EntryGrants | xv6-x86/vm.c:75-75 | an entry made of a frame and perm allows what perm names: writing for PTE_W, user access for PTE_U |
| PageAccess.KernelOpens | xv6-x86/vm.c:106-115 | the entries of kmap open the kernel's memory and the devices to the kernel only, the text read-only |
| PageTables.WrittenLookup | xv6-x86/vm.c:73-73 | writing the entry of a page changes the mapping of that page and of no other |
| PageTables.WrittenUser | xv6-x86/vm.c:73-73 | a user page mapped anew adds its frame, and no frame is mapped twice |
| PageTables.WrittenZero | xv6-x86/vm.c:275-275 | an entry cleared gives up exactly its frame |
| PageTables.Elsewhere | xv6-x86/vm.c:36-55 | writes to pages outside the tables change no mapping |
| FrameLists.Popped | xv6-x86/kalloc.c:83-95 | the link in the first free page leads to the rest of the list |
| FrameLists.Pushed | xv6-x86/kalloc.c:60-77 | a page filled with junk and linked in front is the new head of a list with one page more |
| Mappings.RowPages | xv6-x86/vm.c:105-115 | the page ranges of kmap are disjoint and add up to the kernel's half, also for the row whose size wraps |
| PageCounts.KernelTables | xv6-x86/vm.c:105-115 | the rows of kmap use exactly 64 page tables |
| PageCounts.KeptCounts | xv6-x86/vm.c:45-53 | mapping takes a free page for each new page table and no other |
| Mappings.ClearedSets | xv6-x86/vm.c:256-279 | clearing a range gives up the frames of that range and no other |
| Mappings.Undone | xv6-x86/vm.c:234-245 | growing part of a range and clearing the whole range restores the mappings |
| AddressSpaces.Vm.constructor | xv6-x86/kalloc.c:31-53 | every page from the end of the kernel to PHYSTOP is free once |
| AddressSpaces.Vm.Kalloc | xv6-x86/kalloc.c:83-95 | a free page leaves the list; failure exactly if none is free |
| AddressSpaces.Vm.Kfree | xv6-x86/kalloc.c:60-77 | exactly this page becomes free and no other page is written |
| AddressSpaces.Vm.WalkPgdir | xv6-x86/vm.c:36-55 | finds the table of a page, taking a free page for it only when asked; no mapping changes, and every directory entry allows all accesses |
| AddressSpaces.Vm.MapPages | xv6-x86/vm.c:61-80 | exactly the pages of the range get consecutive frames, and the processor allows on them what perm names; it stops where memory runs out, or at the first page mapped already, which is the panic; only tables were taken |
| AddressSpaces.Vm.SetupKvm | xv6-x86/vm.c:119-136 | the kernel's mappings and no others, none of them open to user programs and only its text read-only, every page taken being owned by the new space, if and only if 65 pages are free, one for the directory and 64 for the tables; otherwise the free set is as before |
| AddressSpaces.Vm.DeallocUvm | xv6-x86/vm.c:256-279 | exactly the frames mapped in the range are freed and unmapped, ranges without a table being skipped |
| AddressSpaces.Vm.FreeVm | xv6-x86/vm.c:284-298 | exactly what the space owned becomes free, nothing twice, and no other page changes |
| AddressSpaces.Vm.AllocUvm | xv6-x86/vm.c:222-249 | the new pages are zeroed frames of their own, which the user may read and write, if and only if there are free pages for them and for the page tables they lack; otherwise every user frame is back, the mappings are as before and only page table pages stay |
| AddressSpaces.Vm.CopyUvm | xv6-x86/vm.c:316-345 | at every page below sz the child may do what the parent may and finds the same contents, on frames disjoint from the parent's, if and only if there are free pages for the directory, the kernel's tables, the frames and a table for each 1024 of them; otherwise the free set is as before; no page in use changes |
| AddressSpaces.Vm.CopyThenFree | xv6-x86/vm.c:284-345 | copying and then freeing restores the free set and touches no page in use |
| SwapState.JoinPieces | xv7/bio.c:99-139 | eight blocks that hold the pieces of a page join to that page |
| SwapState.SwapOutKeeps | xv7/paging.c:35-73 | swapping out changes the content of no page and keeps each swapped page on its own run of eight marked blocks, counted by numallocblocks |
| SwapState.SwapInKeeps | xv7/paging.c:115-160 | swapping in does the same |
| SwapState.ZeroFillKeeps | xv7/paging.c:147-156 | a page mapped on demand is zero and no other page changes |
| SwapState.SwapOutLoses | xv7/paging.c:35-73 | a swap-out loses no frame and finds none again |
| SwapState.SwapInLoses | xv7/paging.c:115-160 | neither does a swap-in |
| SwapState.ZeroFillLoses | xv7/paging.c:147-156 | a zero fill loses exactly the frame that the page had, if it had one |
| SwapState.LeakLoses | xv7/paging.c:147-160 | a frame taken and entered nowhere is lost, and no other |
| SwapState.RunTransparent | xv7/paging.c:34-160 | over every run of swap-outs and swap-ins each page keeps its content |
| SwapState.RunEntry | xv7/paging.c:34-160 | over every run of swap-outs and swap-ins a page has the entry it had if it has not been on disk, and otherwise one that is open to its process or that names a run |
| SwapState.AccessKeptIff | xv7/paging.c:59-63 | swapping keeps what a process may do with a page if and only if the page has not been on disk or was readable, writable and for the user before: the flags are not kept on disk, and a guard page comes back open |
| Swapping.Swapper.Balloc | xv7/fs.c:59-81 | the lowest free block is taken and zeroed |
| Swapping.Swapper.TakeRun | xv7/fs.c:88-105 | the retry loop ends at the lowest run of eight free blocks if the array is long enough, and the taken blocks are all free ones up to there |
| Swapping.Swapper.FreeSurplus | xv7/fs.c:106-108 | all but the run is given back |
| Swapping.Swapper.BallocPage | xv7/fs.c:88-112 | the lowest run of eight, all other bits as before and no block in use written; failure only if there is no run, or more than 100000 blocks are free up to its end |
| Swapping.Swapper.BfreePage | xv7/fs.c:117-125 | frees the run exactly if all of it is in use |
| Swapping.Swapper.WritePageToDisk | xv7/bio.c:99-119 | the eight blocks hold the page and no other block changes |
| Swapping.Swapper.ReadPageFromDisk | xv7/bio.c:125-139 | the page the eight blocks hold |
| Swapping.Swapper.SwapPageFromPte | xv7/paging.c:35-73 | one swap-out as specified; no page's content changes; otherwise there is no run of eight, or more than 100000 blocks are free up to the end of each, and no page or frame has changed |
| Swapping.Swapper.MapAddress | xv7/paging.c:115-160 | one swap-in or zero fill as specified, after a swap-out if no frame is free; a frame is lost if and only if the page has no page table, or is present and is not itself the victim of a swap-out, and then exactly that one frame; a panic only if balloc_page finds no run |
| Swapping.Swapper.DeallocUvm | xv7/vm.c:258-290 | the loop over the range frees the frame of each present page and the run of each swapped one, skipping missing tables, and panics exactly where a run is not in use any more |
| SwapRelease.DropKeepsIff | xv7/vm.c:258-290 | the first deallocuvm over a range never panics, and keeps the swapping invariant if and only if no page of the range is swapped |
| SwapRelease.SecondDropPanics | xv7/vm.c:275-278 | a second deallocuvm over a page that was swapped panics, its blocks being free already |
| SwapRelease.DropTakes | xv7/vm.c:266-289 | the blocks that deallocuvm frees are exactly those of the runs named in its range, whoever holds them by then |
| SwapRelease.StealsRun | xv7/vm.c:275-278 | a deallocuvm over a swapped page whose run has been given away meanwhile succeeds and frees every block of it, a file's as well as those of any page whose run shares one |
| SwapRelease.StolenRun | xv7/vm.c:275-278 | a run from a good state in which that happens |
| ProcTable.Table.Wakeup1 | xv6-x86/proc.c:457-465 | exactly the sleepers on the channel become runnable, and none is left asleep on it |
| ProcTable.Table.AllocSlot | xv6-x86/proc.c:74-95 | the first unused slot becomes EMBRYO; failure only if there is none |
| ProcTable.Table.WaitScan | xv6-x86/proc.c:279-300 | the first dead child is cleared, field by field, or it is told whether there are children at all |
| ProcTable.Table.Kill | xv6-x86/proc.c:480-497 | the first process with the pid is marked killed, runnable if it slept, and otherwise in the state it was in |
| ProcTable.Table.Exit | xv6-x86/proc.c:228-268 | parent woken, children passed to init, init woken if it inherits a dead one, and the process dead |
| ProcRuns.NextInv | xv6-x86/proc.c:181-474 | the invariant is kept by every step of every interleaving of CPUs |
| ProcRuns.RunInv | xv6-x86/proc.c:181-474 | and so holds in every reachable state |
| ProcRuns.RunningIffOnOneCpu | xv6-x86/proc.c:323-356 | with ptable.lock free, a process is RUNNING if and only if a CPU has it, and then exactly one |
| ProcRuns.NoZombieChildWhileWaiting | xv6-x86/proc.c:273-312 | no process asleep in wait has a dead child |
| ProcRuns.NoZombieParent | xv6-x86/proc.c:228-268 | no process has a dead or unused parent |
| ProcRuns.ReapSafe | xv6-x86/proc.c:279-300 | the child wait clears away is on no CPU and has no children |
| ProcRuns.NeverReapsRunning | xv6-x86/proc.c:273-312 | in every run wait never clears a process that a CPU still has |
| ProcSteps.ChangesIff | xv6-x86/proc.c:181-497 | a process changes its state if and only if the step has a cause for it, and only in one of the nine ways there are: who makes a process ready, runs it, puts it to sleep, wakes it, ends it and clears it away |
| ProcSteps.FieldsIff | xv6-x86/proc.c:181-497 | who is marked killed, whose parent becomes whom and who gets a pid, by which step and no other |
| ProcSteps.HolderMoves | xv6-x86/proc.c:273-391 | whoever holds ptable.lock can take a step that brings it nearer to being free |
| ProcSteps.WaitSettled | xv6-x86/proc.c:277-310 | in wait, exactly one of reaping a certain child, giving up and sleeping can happen |
| ProcSteps.Schedules | xv6-x86/proc.c:323-356 | with the lock free, an idle CPU can run any ready process, in three steps that change nothing else |
| ProcSteps.StepsExactly | xv6-x86/proc.c:181-497 | a step can be taken if and only if its part of the code can be reached, told without the steps |
| Pipe.Counters | xv6-x86/pipe.c:84-118 | 32-bit counters at most PIPESIZE apart tell empty and full although they wrap |
| Pipe.HoldsMore | xv6-x86/pipe.c:93-93 | a byte stored overwrites none that is still to be read |
| Pipe.Ring.Store | xv6-x86/pipe.c:84-94 | the bytes go in order behind those stored, until all are or the pipe is full |
| Pipe.Ring.Fetch | xv6-x86/pipe.c:113-117 | the bytes come out in order, as many as asked or as there are |
| PipeRuns.NextSound | xv6-x86/pipe.c:60-121 | every step of every interleaving keeps what is read a prefix of what was stored and the occupancy within 512 |
| PipeRuns.ReadTakes | xv6-x86/pipe.c:101-121 | a reader takes the next bytes in order, as many as it asked for or all there are, and sleeps exactly if there are none, more may come and it is not killed |
| PipeRuns.WriteStores | xv6-x86/pipe.c:79-98 | a writer stores its next bytes until all are in or the pipe is full, and then ends, sleeps or gives up |
| PipeRuns.WokenIff | xv6-x86/pipe.c:60-121 | a sleeper is woken if and only if the step is a write that does not give up, a read that does not wait, a close of the other end or its own kill |
| PipeRuns.OthersGoOn | xv6-x86/pipe.c:60-121 | a process that a step is not about goes on with what it does |
| PipeRuns.FromTheStart | xv6-x86/pipe.c:60-121 | so in every run; and no sleeper is wrong unless a writer was killed in mid-write |
| PipeRuns.CalmIff | xv6-x86/pipe.c:86-89 | a step breaks the rule on sleepers if and only if it is a killed writer leaving a pipe it has filled with a reader asleep |
| PipeRuns.NoLostWakeups | xv6-x86/pipe.c:60-121 | a sleeping reader means an empty open pipe and a sleeping writer a full one, in every run without such a step |
| PipeRuns.NotBothAsleep | xv6-x86/pipe.c:60-121 | readers and writers never sleep at once |
| PipeRuns.LostWakeup | xv6-x86/pipe.c:86-89 | a run in which a killed writer leaves a reader asleep at a full pipe |
| ShellGrammar.GetToken | xv6-x86/sh.c:266-308 | a token lies between the blanks, consumes at least a character, and a word is a maximal run of word characters |
| ShellRoundTrip.RoundTrip | xv6-x86/sh.c:328-446 | every text whose tokens are those of a legal command tree parses to that tree, whatever its blanks |
| ShellRoundTrip.LexLayout | xv6-x86/sh.c:266-308 | tokens laid out with blanks where they would run together are read back |
| ShellRoundTrip.PrintedParses | xv6-x86/sh.c:328-446 | so printing any tree of at most nine words per command and parsing it gives the tree |
| ShellRoundTrip.ParsedLegal | xv6-x86/sh.c:328-446 | whatever parses is such a tree |
| ShellAccept.ParsesIff | xv6-x86/sh.c:328-446 | the parser makes a tree of a line if and only if the line's tokens mean that tree, words and redirections in any order: told from the tokens alone |
| ShellAccept.RefusedIff | xv6-x86/sh.c:328-446 | a line panics if and only if it means nothing |
| ShellAccept.OneMeaning | xv6-x86/sh.c:328-446 | no line has two meanings |
| ShellParser.Parser.Next | xv6-x86/sh.c:266-308 | the scanning loops give the token as specified and move the pointer behind the blanks that follow |
| ShellParser.Parser.ParseRedirs | xv6-x86/sh.c:375-397 | redirections are wrapped around the command, the last outermost, or the panic is as specified |
| ShellParser.Parser.ParseExec | xv6-x86/sh.c:416-446 | words stored through the inner command while redirections wrap it give the tree as specified, or the panic |
| ShellParser.Parser.ParseBlock | xv6-x86/sh.c:400-413 | a parenthesised line with its redirections, or the panic |
| ShellParser.Parser.ParsePipe | xv6-x86/sh.c:362-372 | as specified, and terminating |
| ShellParser.Parser.ParseLine | xv6-x86/sh.c:345-359 | as specified, and terminating |
| ShellParser.WordReads | xv6-x86/sh.c:450-493 | a word whose end holds a NUL reads as itself, wherever else NULs were written |
| ShellParser.TreeReads | xv6-x86/sh.c:450-493 | the terminated tree read as C strings is the tree that was parsed |
| ShellParser.Parser.NulTerminate | xv6-x86/sh.c:450-493 | a NUL goes behind every string of the tree and nowhere else |
| ShellParser.ParseCmd | xv6-x86/sh.c:328-342 | parsing ends with the tree or the panic; afterwards every string of the tree, read up to its NUL in the one shared buffer, is its token |
| Matcher.HereEnd | xv6-x86/grep.c:85-96 | a pattern that is only $ fits the end of the text |
| Matcher.HereOne | xv6-x86/grep.c:85-96 | a literal or dot takes one character |
| Matcher.HereStar | xv6-x86/grep.c:99-106 | a star takes a run of any length |
| Matcher.MatchStar | xv6-x86/grep.c:99-106 | found if and only if some run of c is followed by the rest of the pattern |
| Matcher.MatchHere | xv6-x86/grep.c:85-96 | found if and only if the text begins with the pattern's language |
| Matcher.Match | xv6-x86/grep.c:73-82 | 1 if and only if the text has a substring, anchored by ^ and $, in the declarative meaning of the pattern; the recursion terminates |

## Left out

- Optimizer.Optim: that no division check comes where no divisor is always 0 is stated for trees whose divisors hold no shift of a sum by a count that ash reads the other way round, because that rule may change what a divisor is; and that the value changes whenever the rule on shifts of sums is applied with a count it is wrong for is stated for one application (`OptimTerms.ExpandShiftIff`) and for the trees of `Optimizer.OptimShiftedSum`; in other trees an operation around it can hide the difference, as `0*x` does. What `distrib` leaves of a sum is stated by `Optimizer.ReducedMeans` and for sums of leaves, not as a form of the whole sum.
- AddressSpaces.Vm.MapPages: in the user half it is stated for one page, which is how every caller in the repository uses it.
- ShellRoundTrip.RoundTrip: a command built by the parser opens files for reading or for writing with creation only, so the round trip is stated for those two redirections; `>>` opens as `>` does in the code.
- Intermediate.TablesAgree: compares the BINARY bit only; the other bits of the two tables are used within one pass.
- IntermediateRoundTrip.FileRead: data, symbol, switch and SAVE records are not among the records of the file, because each is a list of words without structure.
- IntermediateFile.TreeReader.GetTree: reports such a record as an unknown one and stops, for the same reason.
- Intermediate records other than trees, labels, branches and the end of file (data, symbols, switch tables, SAVE and the like): each is a list of words without structure.
- Storage classes, register choice, code tables (`regtab` and others), floating point, LONG and CHAR arithmetic, and the rewriting of `*`, `&` and field selections in `unoptim`: the value theorem is about INT trees.
- Compound assignments and other side effects in expressions: the optimizer drops operands such as `x` in `x*0`, so the theorem would be false of them.
- Degrees as estimates of registers: they decide orders, which are proved harmless; that they bound the registers used is not modelled.
- goto and labelled statements, the comma inside conditions, and floating-point tests in `cbranch`.
- Declarations, initializers, the preprocessor, symbol tables and error messages of the compiler.
- Directories, path names, inode allocation and reference counts of files and inodes (`iget`, `iput`, `filealloc`, `fileclose`): counting without much structure.
- Device files in `readi` and `writei`: a call through a table.
- CrashFiles.CrashKeepsFiles: stated for file writes whose calls of `log_write` do not interleave with those of other operations; the log's own theorem has no such limit, but what interleaved operations make of a file depends on the inode locks, which are not modelled.
- ExprAccept.AcceptedIff: the constants and strings among the operands are names here, and what build() does with a call that it should not have got, as in `DotMisread`, is not modelled.
- LogBuffers.SafeIff: counts the buffers that commits and logged blocks need; other processes that hold buffers at the same time only make them fewer.
- Stack contents, trap frames and context-switch assembly: `swtch` is a step; spinlocks and sleep locks are taken and released in one step.
- `growproc`, `exec`, `loaduvm`, `inituvm`, `copyout`: loops over operations that are modelled.
- xv7's victim selection, its `copyuvm` and access bits: the access-bit test does not tell pages apart; contents, access, and ownership of blocks and frames are claimed.
- Running shell commands (`runcmd`), reading lines, and `cd`.
- grep's line buffering, printf formatting and the user utilities.
- Hardware: IDE, APICs, serial line, keyboard, display, boot loader.
- The copies of the same files in `xv6-rust` and `xv7`, other than the swapping code.
