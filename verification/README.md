# uftrace: the recording side, modelled and proved in Dafny

uftrace records function calls of a running program. This project models the parts of it whose
correctness spans whole runs and proves what they are for. It has five groups.

**The buffer hand-off pipeline.** A traced thread appends records to shared buffers and announces full
ones over a pipe; the recorder's main thread queues them; N writer threads drain the queues.
`BufferProtocol` has one indivisible action per flag write, size bump, message and lock section, for the
buffers of one thread: what has been announced and not yet released is a conveyor belt.
`RecordingPipeline` interleaves these actions over any number of threads and writers.
`RecordingPipelineProofs` shows that for every thread id the data file followed by what is left on the
belt is the thread's append-only log, in every reachable state; `RecordingOutcome` what the files hold
when the recorder is done, including after the pipe was closed; `RecordingContents` that the log is what
the run asked the thread to write; `RecordingProgress` that the recorder gets done. `ShmemThread` and
`WriterLists` are the same operations as loops over mutable state, proved to do exactly these actions.

**The shadow return stack.** `CygprofStack`, `FilterPath`, `LazyRecording` and `CallTree` treat the
`-finstrument-functions` path: incremental filter counters equal a predicate on the path of active
calls, and recording on demand equals serialising the pruned call tree. `ReturnHooks` treats hijacked
return addresses with tail calls and auto-recover against a traced program that calls, stores and
returns; `HookHistory` says which calls are hooked, from the run alone. `StackRepair` treats restore,
rehook and exceptions; `EstimateReturn` the mode that guesses returns. `McountThread`, `HookedThread`,
`RepairThread` and `EstimateThread` are the array-and-index forms, proved against these specifications.

**Enums.** `EnumText` and `EnumDef` are the tokenizer, parser and printer on characters; `EnumDecode`
the decoder of a number into constants; `EnumTree` and `EnumSyntax` treat whole texts, saved or as a
programmer writes them; `EnumReader` has their loops.

**Two allocators and the Python hook.** `SymbolTable` is the compare-and-swap loop on the shared header
and the growth of the shared file and its mappings, `CodePages` and `CodeWriter` the code-page allocator
with freezing and branch tables, `PythonHooks` the filter and library-call decisions for Python events,
`ShmemBounds` the fill level of a buffer. `SharedTable`, `PythonTracer` and `ShmemWriter` are their
mutable forms.

**The folding-tree cursor.** `TreeCursor` and `TreeWindow` walk a folding tree by parent and sibling
pointers and keep display lines; `TreeFolding` says which nodes a fold shows and hides.

Modules whose names end in `Proofs` hold the lemmas about the module of the same name; `Wrappers` holds
types that several modules share.

Some promises turn out to hold only under a condition. Each is stated as an equivalence, with a run or
input where it fails:

- Messages sent after the pipe is closed are dropped: `mcount_trace_finish` closes it for the whole
  process while other threads may still be recording. A thread's file is complete iff the thread
  appends nothing after announcing a buffer into the closed pipe; it always is if the thread has ended
  by then (`CompleteIff`, `CompleteContentsIff`, `CompleteWhenOver`, `LateSwitchLoses`).
- Rehook undoes restore iff no tail-call chain starts with one kind of frame and ends with the other
  (`RepairIsIdentityIff`, `MixedChainDiffers`).
- In estimate-return mode a running call is closed iff it is a PLT frame and the sibling test succeeds
  on it, as for a callback (`EntryKeepsActiveIff`, `CallbackClosesPlt`); and fake exits are stamped
  after the next call's start iff the clock has too few ticks for them (`FakeExitsBeforeStartIff`,
  `LateFakeExit`). In this mode a full stack stays full for ever (`FullForEver`).
- An enum survives saving and loading iff it is not empty and the printer's `int` counter does not wrap
  onto one of its values; C enums always do (`RoundTripIff`, `WideEnumChanges`). The comment in
  `utils/dwarf.c` promises compatibility without condition; the code is followed.
- Enlarging the Python symbol table sets the length of the shared file from the process's own mapping,
  which may lag behind. At every moment of a run all mappings are backed by the file and all lines about
  to be written lie inside mapping and file, iff each line ends, in whole tables, at most one past the
  previous line of its process and no process sets a length below the current one (`RoomIff`). Neither
  half can be dropped (`SecondProcessMisses`, `LaggardShrinks`); alone, a process has room up to the
  last table size below 4 GiB (`SoloFits`).
- The Python hooks are balanced for a nest of calls iff no call is matched negatively, alone, below a
  positively matched one, library functions not counting when they are not traced; otherwise there are
  more exits than entries (`BalancedIff`, `MixedSignsUnbalanced`).
- The fill level stays within the buffer iff the buffer size modulo 8 is below 4 (`BoundedIff`); page
  multiples are.

Clocks, memory contents, allocation success, which messages the scheduler delays and what filters match
are parameters. Integers are unbounded except where the source's width matters: 64-bit time differences
in the threshold test, 32- and 64-bit wrap-around in enum values and in the symbol-table header, bytes of
machine code.

## Model

| member | source | states |
|---|---|---|
| BufferProtocolProofs.InFlightUntouched | libmcount/record.c:93-180 | a buffer between its REC_START and its WRITTEN flag that is not the open one keeps contents, flag and mapping through any action of the traced thread |
| BufferProtocolProofs.OpenGrows | libmcount/record.c:854-881 | the announced, unended buffer grows by exactly the bytes logged |
| BufferProtocolProofs.MessageMatchesPhase | libmcount/record.c:182-190 | messages sent match the open buffer; an announced buffer is empty and not already announced |
| BufferProtocolProofs.ThreadKeepsShrink | libmcount/record.c:140-158 | unmapping the last buffer never hits one that is still announced |
| BufferProtocolProofs.TraceeKeepsInv | libmcount/record.c:93-180 | any action of the thread keeps: log is file plus contents of the belt, belt distinct, mapped and RECORDING |
| BufferProtocolProofs.ReceiveKeeps | cmds/record.c:1107-1148 | reading REC_START or REC_END keeps the invariant |
| BufferProtocolProofs.ExamineKeeps | cmds/record.c:848-876 | dropping a buffer that is empty or not RECORDING loses nothing |
| BufferProtocolProofs.EnqueueKeeps | cmds/record.c:786-827 | queueing, or passing to the serving writer, keeps order and contents |
| BufferProtocolProofs.FlushKeeps | cmds/record.c:908-921 | flushing an announced buffer keeps order and contents |
| BufferProtocolProofs.DrainKeeps | cmds/record.c:886-899 | draining appends the oldest queued buffer and nothing else |
| BufferProtocolProofs.TakeKeeps | cmds/record.c:707-725 | taking all queued buffers of a thread keeps their order |
| BufferProtocolProofs.WriteKeeps | cmds/record.c:573-603 | saving, resetting the size, raising WRITTEN and looking for more each keep the invariant |
| RecordingPipelineProofs.TraceeNextView | libmcount/record.c:93-180 | an action of one thread is that action in its own view and nothing in any other view |
| RecordingPipelineProofs.TakeView | cmds/record.c:707-725 | a writer taking a thread is seen only in that thread's view |
| RecordingPipelineProofs.WritingViewAll | cmds/record.c:727-741 | a writer's step is seen only in the view of the thread it serves |
| RecordingPipelineProofs.EnqueueingView | cmds/record.c:809-826 | queueing is seen only in the buffer's own thread |
| RecordingPipelineProofs.NextKeeps | cmds/record.c:681-758 | every step of every participant keeps the global invariant |
| RecordingPipelineProofs.ExecKeeps | cmds/record.c:681-758 | so does every run |
| RecordingPipelineProofs.FileThenLoad | cmds/record.c:573-827 | in every reachable state: log == file, then the writer's list, its direct list, the queue, the main thread's buffer and the announced ones, each once, in order |
| RecordingPipelineProofs.OneOwner | cmds/record.c:707-741 | at most one registered writer per thread id, and nothing of that thread is queued meanwhile |
| RecordingPipelineProofs.HandOffSafe | libmcount/record.c:101-158 | in every reachable state the traced thread's next action leaves every handed-over buffer alone |
| RecordingPipelineProofs.ReceiveNextKeeps | cmds/record.c:1107-1148 | reading a message in the poll loop or after the hang-up keeps the global invariant |
| RecordingPipelineProofs.HangupKeeps | libmcount/mcount.c:690-693 | so does closing the pipe at any moment |
| RecordingOutcome.LostStep | libmcount/misc.c:79-80 | over any step, what is lost grows by exactly what the thread appends once an announcement of its has found the pipe closed |
| RecordingOutcome.FinalFile | cmds/record.c:1970-2000 | after stop, join, flush and drain each file followed by what was lost is the whole log |
| RecordingOutcome.CompleteIff | cmds/record.c:2128-2145 | a file is the whole log iff along the run the thread appends nothing after announcing a buffer into a closed pipe |
| RecordingOutcome.CompleteWhenOver | cmds/record.c:1903-1932 | a thread that has ended whenever the pipe is closed has its whole log in its file |
| RecordingContents.LogIsAsked | libmcount/record.c:934-1026 | after any run a thread's log, followed by the pieces it has still to write, is what the run asked it to record: LOST records and the pieces of every record that got a buffer, in order; computed from the run's actions alone |
| RecordingContents.FileThenRest | cmds/record.c:573-827 | in every reachable state that text is the file, then what is on its way or was lost, then the pieces still to write |
| RecordingContents.FinalContents | cmds/record.c:1970-2000 | when the recorder is done it is the file, then what was lost, then the pieces still to write |
| RecordingContents.CompleteContentsIff | cmds/record.c:2128-2145 | the file of a thread that has ended is exactly what the run asked it to record iff it appends nothing after announcing a buffer into a closed pipe |
| RecordingProgress.CanFinish | cmds/record.c:1970-2000 | from every reachable state with the pipe closed and all threads over, steps of the main thread and the writers alone, no more than the work left, finish the recording |
| RecordingProgress.FinishedBuffer | cmds/record.c:786-876 | the main thread on a finished buffer: dropped if empty or not RECORDING, else passed to the serving writer or to the end of the queue |
| LateSwitch.LateSwitchLoses | libmcount/misc.c:79-80 | a run in which a sibling switches buffers after the pipe was closed, and its second buffer never reaches the file; it fails the condition of CompleteIff |
| ShmemThread.SwitchChooses | libmcount/record.c:93-180 | a switch takes the first free buffer or a new one, empties, marks and announces exactly it; it gives up the last buffer iff that one and at least three behind the chosen one are unused; without a buffer it counts two losses |
| ShmemThread.Shmem.Scan | libmcount/record.c:101-106 | the scan stops at the first buffer that is not RECORDING |
| ShmemThread.Shmem.Shrink | libmcount/record.c:140-158 | the shrinking loop is the sequence of shrinking steps |
| ShmemThread.Shmem.GetNewShmemBuffer | libmcount/record.c:93-165 | the whole switch is the sequence of single steps of the protocol |
| WriterLists.SavedByTid | cmds/record.c:573-591 | each file grows by its own buffers in list order and by nothing else |
| WriterLists.Lists.TakeBuffers | cmds/record.c:707-725 | the lock section moves the first queued buffer and all of its thread, leaving the others in order |
| WriterLists.Lists.TakeDirect | cmds/record.c:730-740 | the lock section splices the direct list or leaves the writer list |
| WriterLists.Lists.CopyToBuffer | cmds/record.c:786-827 | direct to the first writer of the thread, else to the queue's end with a wake-up |
| WriterLists.Lists.WriteBufList | cmds/record.c:573-603 | appends every buffer in order and leaves it empty and WRITTEN |
| WriterLists.Lists.RecordRemainingBuffer | cmds/record.c:886-899 | writes everything queued and empties the queue |
| FilterPath.CtlClosedForm | libmcount/mcount.c:1002-1096 | the incremental counters and depth are functions of the path of active calls |
| FilterPath.OutIsOne | libmcount/mcount.c:1016-1018 | out_count is 1 if some function on the path is notrace-matched, else 0 |
| FilterPath.RecordIffAccepted | libmcount/mcount.c:1002-1096 | a call is recordable iff no notrace match, a filter match if filters are positive, and depth below the limit on its path |
| FilterPath.AcceptedIff | libmcount/mcount.c:1002-1096 | the verdict of the filter check, as a predicate on the path: a notrace-matched call is itself let in, nothing below it is |
| LazyRecording.FlushIsPending | libmcount/record.c:1090-1143 | the backward walk up to the first written frame finds every owed ENTRY |
| LazyRecording.FlushNests | libmcount/record.c:1124-1143 | a flush opens the unwritten recordable calls, each at its nesting level |
| LazyRecording.EnterKeeps | libmcount/mcount.c:1640-1733 | an entry, also past the stack limit, keeps state determined by path and records well nested |
| LazyRecording.LeaveKeeps | libmcount/mcount.c:1735-1790 | so does an exit |
| CallTree.TopRecordedIff | libmcount/mcount.c:1184-1192 | in any run the top frame is recordable iff its path passes the path predicate |
| CallTree.WarnedIff | libmcount/mcount.c:948-967 | after any run the warning flag is up iff the latest entry was beyond the stack limit; an accepted entry within it has its start time |
| CallTree.CountersCountFrames | libmcount/mcount.c:1040-1056 | in_count and out_count count the FILTERED and NOTRACE frames, at most one NOTRACE |
| CallTree.AlwaysWellNested | libmcount/record.c:1006-1016 | at any moment every EXIT has closed the latest ENTRY of its function, depths are nesting levels, open ENTRYs are the written frames |
| CallTree.RunCallEffect | libmcount/mcount.c:1357-1362 | one call tree adds owed ENTRYs if something below is worth keeping, then its serialisation, and restores the rest |
| CallTree.LazyIsPruned | libmcount/record.c:1077-1159 | lazy recording produces the serialisation of the tree cut down to recordable calls that pass the test or have a descendant that does |
| CallTree.ExitTestIff | libmcount/mcount.c:1357-1359 | a frame is recorded at exit iff it is written or traced, or its call took more ticks than the threshold and no caller filter is against it; a clock that went back counts as having gone once around |
| CallTree.BalancedRestores | libmcount/mcount.c:1293-1326 | balanced calls, even past the stack limit, restore the whole filter state |
| McountThread.McountThread.CountUnwritten | libmcount/record.c:1090-1117 | the backward walk finds the lowest unwritten frame and counts the records to come |
| McountThread.McountThread.WriteEntries | libmcount/record.c:1129-1147 | the forward walk writes the owed ENTRYs and raises WRITTEN |
| McountThread.McountThread.RecordTraceData | libmcount/record.c:1077-1159 | the array form is the specification, and its closing assertion on the count holds |
| McountThread.McountThread.FilterCheck | libmcount/mcount.c:1002-1096 | counters, verdict and match are those of the specification |
| McountThread.McountThread.CygprofEntry | libmcount/mcount.c:1640-1733 | the hook is one entry of the specification |
| McountThread.McountThread.ExitFilterRecord | libmcount/mcount.c:1302-1365 | counters restored from the frame, records written iff the test triggers |
| McountThread.McountThread.CygprofExit | libmcount/mcount.c:1735-1790 | the hook is one exit of the specification |
| ReturnHooksProofs.TracedKeeps | libmcount/mcount.c:1543-1566 | a traced entry, tail call, rejected entry or full stack keeps the chain invariant |
| ReturnHooksProofs.ExitsUnwind | libmcount/mcount.c:1582-1628 | repeated exits unwind exactly one tail-call chain and hand back its genuine address |
| ReturnHooksProofs.ReturnKeeps | libmcount/misc.c:246-272 | a return keeps the invariant and re-hooks the caller's slot |
| ReturnHooksProofs.Transparent | libmcount/mcount.c:1499-1628 | after any run every return lands at the address the program stored |
| ReturnHooksProofs.OnlyTopHooked | libmcount/misc.c:210-272 | with auto-recover only the topmost chain's slot holds the hook |
| HookHistory.StackIsHistory | libmcount/mcount.c:1521-1561 | after any run the shadow stack holds, for each active call in order, one frame per accepted entry that found room, computed from the run without the hooks |
| HookHistory.HookedIff | libmcount/mcount.c:1559-1566 | a slot holds the hook iff its call has such an entry (with auto-recover: and no deeper call has), else the call's return address |
| HookHistory.EntryDoes | libmcount/mcount.c:1521-1561 | an accepted entry with room leaves the hook in the slot and one frame that keeps what it held; any other entry changes nothing |
| HookHistory.RestUntouched | libmcount/misc.c:210-272 | an address that never was a return slot holds what the program last stored there |
| HookedThread.HookedThread.Restore | libmcount/misc.c:210-244 | the downward walk restores the first genuine address below |
| HookedThread.HookedThread.Rehook | libmcount/misc.c:246-272 | hooks the caller's slot unless it is a tail call |
| HookedThread.HookedThread.McountEntry | libmcount/mcount.c:1499-1571 | the array form is the specification's entry |
| HookedThread.HookedThread.McountExit | libmcount/mcount.c:1582-1628 | the array form is the specification's exit |
| HookedThread.HookedThread.McountReturn | libmcount/mcount.c:1600-1628 | repeating exits while the hook is handed back |
| StackRepairProofs.WritesOnce | libmcount/misc.c:124-189 | restore writes each slot in use once, with its genuine address, and nothing else |
| StackRepairProofs.RepairIsIdentityIff | libmcount/misc.c:124-208 | rehook after restore is the identity iff each chain's ends are of one kind |
| StackRepairProofs.McountRepair | libmcount/misc.c:192-208 | in particular for mcount-only stacks |
| StackRepairProofs.MixedChainDiffers | libmcount/misc.c:200-208 | a PLT function tail-called from a traced one gets the wrong hook back |
| StackRepairProofs.RestoreUndoesRehook | libmcount/misc.c:124-208 | restore after rehook gives back genuine memory for any mix |
| StackRepairProofs.UnwindDoes | libmcount/wrap.c:140-182 | for any stack: where the walk ends, that the frames above are closed top-down with only the end time of recordable ones changed, and what is kept, a stop at a cygprof frame and in a tail-call chain included |
| StackRepairProofs.UnwindKeeps | libmcount/wrap.c:140-182 | the loop keeps the frames above the landing frame unchanged, tail-call chains included, and closes the others top-down |
| StackRepairProofs.ThrowThenCatch | libmcount/wrap.c:132-188 | throw, unwind with any writes but to the return slots above the landing frame, catch: exactly the frames above the landing frame stay, re-hooked, nothing else touched |
| RepairThread.RepairThread.Restore | libmcount/misc.c:124-189 | the loop writes as specified |
| RepairThread.RepairThread.Rehook | libmcount/misc.c:192-208 | the loop writes as specified |
| RepairThread.RepairThread.RehookException | libmcount/wrap.c:132-188 | kept frames, closed frames in order and memory are as specified |
| EstimateReturnProofs.EntryIs | libmcount/mcount.c:1445-1497 | what an entry keeps, pushes and closes, in closed form |
| EstimateReturnProofs.EntryDoes | libmcount/mcount.c:1450-1494 | the same spelled out: half-way between the two clock values, one tick later for each frame, and the higher frame closed iff it is a PLT function of the same module |
| EstimateReturnProofs.EntryKeeps | libmcount/mcount.c:1543-1550 | slots stay strictly descending and depths stay indices |
| EstimateReturnProofs.FakeExitsFit | libmcount/mcount.c:1450-1494 | fake exits are top-down, strictly increasing in time and not before their frame's start |
| EstimateReturnProofs.FakeExitsBeforeStartIff | libmcount/mcount.c:1458-1494 | they precede the new call's start iff there is a tick for each |
| EstimateReturnProofs.LateFakeExit | libmcount/mcount.c:1458-1494 | two calls made and returned from within one tick: the second fake exit is later than the next call's start |
| EstimateReturnProofs.FullForEver | libmcount/mcount.c:1011-1012 | once the stack is full, no run of calls, entries and returns changes it any more |
| EstimateReturnProofs.AlwaysDisciplined | libmcount/mcount.c:1445-1550 | the stack discipline holds after any run with a monotone clock |
| EstimateReturnProofs.EntryKeepsActiveIff | libmcount/mcount.c:1461-1478 | no running call is closed iff the PLT sibling branch is not taken on one |
| EstimateReturnProofs.ActiveNeverClosed | libmcount/mcount.c:1480-1494 | without PLT frames every traced running call stays on the stack |
| EstimateReturnProofs.CallbackClosesPlt | libmcount/mcount.c:1461-1478 | a PLT function calling back is closed while it runs |
| EstimateThread.EstimateThread.InjectReturn | libmcount/mcount.c:1445-1497 | the loop is the specification |
| EstimateThread.EstimateThread.Entry | libmcount/mcount.c:1543-1557 | the entry hook is the specification |
| EnumText.StrtolReadsPrintLong | utils/auto-args.c:648-650 | strtol with base 0 reads back what %ld prints, for every long |
| EnumText.NameToken | utils/auto-args.c:383-426 | a valid name is read back as one token |
| EnumDefProofs.InsertSorted | utils/auto-args.c:667-672 | insertion keeps the list descending and adds exactly one constant |
| EnumDefProofs.PiecesSorted | utils/auto-args.c:636-690 | whatever is parsed, every list in the tree is descending |
| EnumDefProofs.ReadsItems | utils/auto-args.c:636-678 | the parser loop reads a printed list as the list it computes from it |
| EnumDefProofs.EmptyFails | utils/auto-args.c:697-718 | an empty definition's saved line does not parse |
| EnumDefProofs.RoundTripIff | utils/auto-args.c:636-718 | saving and parsing rebuilds the list iff it is not empty and the int counter does not wrap onto a value |
| EnumDefProofs.IntRoundTrip | utils/dwarf.c:2017-2024 | with values in int range it always does |
| EnumDefProofs.WideEnumChanges | utils/auto-args.c:700-713 | a 64-bit enum that comes back changed |
| EnumTree.TreeOf | utils/auto-args.c:603-692 | for any pieces: the result is -1 iff one does not parse, and the tree then holds what it held and the definitions before it, the first of equal names winning |
| EnumTree.LoadsAll | utils/auto-args.c:603-692 | the saved lines of any number of definitions, joined by semicolons, get into the tree up to the first empty one |
| EnumTree.SaveThenLoad | utils/dwarf.c:2164-2186 | a whole tree of surviving definitions is rebuilt from its debug file |
| EnumSyntax.ReadsNumber | utils/auto-args.c:648-650 | strtol with base 0 reads a signed decimal, octal or hexadecimal number, clamped to a long |
| EnumSyntax.ListIs | utils/auto-args.c:658-678 | the list of a definition is descending and holds the constants with the values C gives them, of equal ones the later first |
| EnumSyntax.WrittenIsRead | utils/auto-args.c:571-690 | a definition in C syntax, with any blanks, number bases, values left out and trailing comma, is read with its name and constants |
| EnumSyntax.OnlyDefinitions | utils/auto-args.c:604-634 | a piece is skipped iff it is blank, and one that is read begins with "enum", a name and a brace |
| EnumSyntax.LoadsWritten | utils/auto-args.c:588-695 | any text of such definitions parses with result 0 and all of them in the tree |
| EnumDecodeProofs.ShowSums | utils/auto-args.c:512-550 | a name iff an exact constant exists; else shown constants plus residue add up to the value |
| EnumDecodeProofs.FlagsShown | utils/auto-args.c:524-534 | a union of distinct powers of two is shown as exactly those, without residue |
| EnumDecodeProofs.GreedyMaximal | utils/auto-args.c:524-534 | with values that are not negative no constant that was left out fits into the residue |
| EnumDecodeProofs.AscendingLoses | utils/auto-args.c:524-534 | in ascending order it would not be |
| EnumReader.InsertVal | utils/auto-args.c:667-672 | the insertion loop |
| EnumReader.EnumReader.NextToken | utils/auto-args.c:383-426 | the token loop moves the pointer and the buffer as specified |
| EnumReader.EnumReader.ParseItems | utils/auto-args.c:636-678 | the loop over constants |
| EnumReader.EnumReader.ParseDef | utils/auto-args.c:604-690 | one definition |
| EnumReader.EnumReader.ParseEnumString | utils/auto-args.c:588-695 | all definitions: result code and tree |
| EnumReader.GetEnumDefString | utils/auto-args.c:697-718 | the reverse walk prints what is specified |
| EnumReader.ConvertEnumVal | utils/auto-args.c:512-550 | both loops show what is specified |
| SymbolTableProofs.TiledIff | python/trace-python.c:249-267 | in every interleaving the ranges tile from the header to the offset iff all sizes fit in 32 bits; addresses are then 1, 2, 3, ... |
| SymbolTableProofs.RangesDisjoint | python/trace-python.c:255-267 | no two reservations overlap or share an address |
| SymbolTableProofs.SwapSucceedsIff | python/trace-python.c:262-266 | a swap succeeds iff nobody reserved since the header was read |
| SymbolTableProofs.TwoTries | python/trace-python.c:254-267 | undisturbed, a process has its reservation after one try or, if the header it read is stale, after two |
| SymbolTableProofs.RoomIff | python/trace-python.c:269-294 | in every run of any number of forked processes within 32 bits: always all mappings backed by the file and all lines inside mapping and file, iff each line ends, in whole tables, at most one past the previous one of its process and no length is set below the current one |
| SymbolTableProofs.SoloFits | python/trace-python.c:269-288 | one process alone, with lines of at most a table size, always has room iff its latest line ends below 4 GiB less a table size |
| SymbolTableProofs.SecondProcessMisses | python/trace-python.c:269-292 | a second process enlarges its mapping once and is to write beyond it, although no length was lowered |
| SymbolTableProofs.LaggardShrinks | python/trace-python.c:269-292 | a process held up before its ftruncate cuts the file under another, whose next line then lies behind its end, although every line is near the previous one |
| SharedTable.SharedTable.CompareAndSwap | python/trace-python.c:262 | the atomic operation |
| SharedTable.SharedTable.Enlarge | python/trace-python.c:269-288 | mapping and file get the longer size iff the line ends beyond the mapping |
| SharedTable.SharedTable.GetNewSymAddr | python/trace-python.c:249-294 | with others reserving between its swaps and resizing the file after them, reserves one entry on top of theirs and enlarges file and mapping as specified |
| CodePagesProofs.PartsApart | libmcount/dynamic.c:103-117 | code, branch table and original bytes do not overlap and end in the slot |
| CodePagesProofs.RunExtends | libmcount/dynamic.c:121-173 | used bytes, and all bytes of frozen pages, are never written again |
| CodePagesProofs.SlotsApart | libmcount/dynamic.c:121-158 | slots of a page do not overlap and lie inside it |
| CodePagesProofs.SlotSize | libmcount/dynamic.c:103-117 | a slot is the least multiple of 32 with room for its parts, code and original bytes rounded up to 16 |
| CodePagesProofs.SavePlace | libmcount/dynamic.c:119-141 | a save goes right after what the last page holds if that one is not frozen and has room to its end, else to the start of one new page |
| CodePagesProofs.FrozenForGood | libmcount/dynamic.c:161-173 | a freeze freezes every page, for good and with all its bytes |
| CodePagesProofs.RunLeavesZero | libmcount/dynamic.c:81-94 | after any run the bytes no save has used are zero |
| CodePagesProofs.FindsLatest | libmcount/dynamic.c:127-184 | lookup finds the latest save, byte for byte, at any later time |
| CodePagesProofs.FoundCodeIs | libmcount/dynamic.c:127-184 | what is found is spelled: the saved instructions but for branch displacements, the jump at their end, branches into the prologue at their old distance, and every other branch on a table entry that holds its target little-endian |
| CodePagesProofs.BranchesReach | arch/x86_64/mcount-dynamic.c:700-747 | a copied branch jumps to the table entry with its target; the displacement is never out of reach |
| CodeWriter.PatchBranch | arch/x86_64/mcount-dynamic.c:700-747 | the loop writes the table and patches the copied instructions |
| CodeWriter.WriteSlot | libmcount/dynamic.c:143-156 | the copies leave the page as specified |
| CodeWriter.CodeWriter.AllocCodepage | libmcount/dynamic.c:81-94 | a zeroed, writable page at the end |
| CodeWriter.CodeWriter.SaveCode | libmcount/dynamic.c:96-159 | page choice, position, bytes and lookup entry are as specified |
| CodeWriter.CodeWriter.FreezeCode | libmcount/dynamic.c:161-173 | every page is frozen |
| CodeWriter.CodeWriter.FindCode | libmcount/dynamic.c:175-184 | in any state saves and freezes lead to, the place of the latest save for the address, or none |
| PythonHooksProofs.JudgedAlikeIff | python/trace-python.c:528-564 | entry and exit of a function are judged alike iff it is not a lone negative match below a positive one |
| PythonHooksProofs.FirstMatch | python/trace-python.c:528-542 | a name is matched by the first filter that has it, or by none |
| PythonHooksProofs.CallTraced | python/trace-python.c:942-990 | with every call paired, the hook calls are the call tree cut down to the traced calls, and the counters are restored |
| PythonHooksProofs.BalancedIff | python/trace-python.c:528-603 | for all filters, libcall modes and nests of calls, the hooks are balanced iff every call is paired; each unpaired call is one exit too many |
| PythonHooksProofs.HooksBalanced | python/trace-python.c:964-985 | with filters of one sign, in every libcall mode, each exit closes the enter of its own function |
| PythonHooksProofs.MixedSignsUnbalanced | python/trace-python.c:544-562 | with both signs an exit can have no enter |
| PythonTracer.PythonTracer.ApplyFilters | python/trace-python.c:528-564 | counters and verdict are as specified |
| PythonTracer.PythonTracer.CanTrace | python/trace-python.c:580-603 | library-call count and verdict are as specified |
| PythonTracer.PythonTracer.Trace | python/trace-python.c:964-985 | the dispatch is the specification |
| ShmemBoundsProofs.AlwaysBounded | libmcount/record.c:854-1026 | the fill level is a multiple of 8 and within the buffer after any sequence of records and events |
| ShmemBoundsProofs.BoundedIff | libmcount/record.c:854-881 | exactly when the size modulo 8 is below 4 |
| ShmemBoundsProofs.FillIsHistory | libmcount/record.c:854-1026 | after any sequence the buffer is filled by one block for each record or event that got it, a LOST record first iff some had got none, and two losses are counted for each of these |
| ShmemWriter.ShmemWriter.GetBuffer | libmcount/record.c:854-881 | the buffer handed out has room, with a LOST record in front if records were lost |
| ShmemWriter.ShmemWriter.PutRecord | libmcount/record.c:1011-1026 | the record and its data are appended inside the buffer |
| ShmemWriter.ShmemWriter.RecordRetStack | libmcount/record.c:934-1026 | the record and its data follow what the buffer held, in the old buffer or after a LOST record in the new one |
| TreeCursorProofs.NextIsPreorder | cmds/tui.c:1038-1085 | next goes from the k-th visible node to the (k+1)-th, and from the last nowhere |
| TreeCursorProofs.PrevIsPreorder | cmds/tui.c:990-1036 | previous undoes it |
| TreeCursorProofs.VisibleOnce | cmds/tui.c:1038-1085 | no node is visited twice |
| TreeCursorProofs.FoldKeepsLines | cmds/tui.c:1174-1188 | folding a node leaves everything up to it on its line |
| TreeFolding.VisibleIff | cmds/tui.c:1038-1085 | the list of visible nodes holds exactly those whose ancestors, the root aside, are all unfolded |
| TreeFolding.ListedInOrder | cmds/tui.c:1038-1085 | in preorder |
| TreeFolding.FoldShows | cmds/tui.c:1174-1188 | toggling a node shows or hides exactly the nodes below it with everything in between unfolded, and no other node |
| TreeWindow.GraphNextNode | cmds/tui.c:1038-1085 | the pointer loop finds the next node; the depth counter stays the number of ancestors with several children |
| TreeWindow.GraphPrevNode | cmds/tui.c:990-1036 | the pointer loop finds the previous node, depth included |
| TreeWindow.TreeWindow.LastIndex | cmds/tui.c:825-841 | the last display line |
| TreeWindow.TreeWindow.MoveUp | cmds/tui.c:2057-2074 | current and top index stay the display lines of their nodes |
| TreeWindow.TreeWindow.MoveDown | cmds/tui.c:2076-2099 | the same, scrolling no further than needed |
| TreeWindow.TreeWindow.PageUp | cmds/tui.c:2101-2124 | to the top of the screen, or about one screen up |
| TreeWindow.TreeWindow.MoveHome | cmds/tui.c:2174-2178 | to the root |
| TreeWindow.TreeWindow.MoveEnd | cmds/tui.c:2180-2208 | to the last visible node, on the screen |
| TreeWindow.TreeWindow.Enter | cmds/tui.c:1174-1188 | flips the fold of a node with children, not of the root, and keeps both indices right |

## Left out

- exec and fork of traced tasks (`flush_old_shmem`, cmds/record.c:967-990): thread ids are never reused in a run.
- Stopping by signal or by the finish message; perf, kernel and network writers; tracing to a socket.
- The exit test of `stop_tracing` looks at the threads whose start message was read, here at every thread; a thread that starts after the pipe was closed is waited for, and all it announces is lost.
- Loss counts: the number inside a LOST record is a parameter, its 16 bytes are kept; `losts` is raised as the code raises it.
- REC_END compares a prefix of the buffer name, so names with index 1000 and above can be confused; names are compared whole.
- The wake-up bytes on the control pipe: a writer may look at the queue at any time, which allows more interleavings than the code.
- Free lists of queue nodes, unlinking of shared memory, and memory-order effects weaker than one atomic access per step.
- Writers append to a file in one step (`write_buffer`); short writes are not modelled.
- Switching tracing on and off, the finish trigger, and depth, time, size and location triggers; arguments, return values and events in records.
- Filter restoration on the plain mcount path, where a rejected entry is not pushed.
- Depths of 1024 and above in the packed record; the packing of the record word.
- Filter counters in estimate-return mode and during exceptions; only the frames and their times.
- The stack scan for architectures that cannot restore PLT hooks, setjmp and longjmp, and PLT frames in the transparency result.
- HookedThread.HookedThread.McountEntry: does not model exceptions, estimate-return mode (modelled apart) and the recursion guard.
- HookedThread.HookedThread.McountExit: does not model the path taken when tracing must stop at once (libmcount/mcount.c:1613-1622).
- HookedThread.HookedThread.Restore: does not model the early return during an exception, nor PLT frames.
- HookedThread.HookedThread.Rehook: does not model the early return during an exception, nor PLT frames.
- McountThread.McountThread.RecordTraceData: does not model argument data and the early returns when no buffer is to be had.
- McountThread.McountThread.FilterCheck: does not model location, depth, time and size triggers and conditional filters.
- McountThread.McountThread.CygprofEntry: does not model exceptions, estimate-return mode and the recursion guard.
- McountThread.McountThread.ExitFilterRecord: does not model events, read triggers, watchpoints and the recover trigger.
- McountThread.McountThread.CygprofExit: does not model the exit without an entry that is discarded.
- RepairThread.RepairThread.Restore: does not model the stack scan of architectures that cannot restore PLT hooks.
- RepairThread.RepairThread.Rehook: does not model architectures that cannot restore PLT hooks.
- RepairThread.RepairThread.RehookException: does not model the counters the exit filter restores; closed frames are kept as a list.
- EstimateThread.EstimateThread.InjectReturn: does not model the filter counters at fake exits and the saved filter.
- EstimateThread.EstimateThread.Entry: does not model the side effects of the filters.
- SharedTable.SharedTable.GetNewSymAddr: does not model writing the line's text.
- ShmemWriter.ShmemWriter.RecordRetStack: does not model the events saved before and after the record.
- 64-bit overflow of the sum of two clock values in the return-time estimate.
- EnumReader.ConvertEnumVal: does not model overflow of long in the subtraction, and keeps the residue as a number instead of hexadecimal text.
- EnumReader.EnumReader.NextToken: characters outside ASCII, for which the character classes depend on the locale.
- What happens to a process that writes where it has no room (it is killed): the model lets it go on, which matters only after the condition for room has failed.
- The text written into the Python symbol table, whose final NUL falls on the next range, and the debug-info table, which uses the same loop.
- SaveCode: the disassembly that decides which instructions are copied, and failure of the system calls; a slot larger than a page, which the sizes in `mcount_disasm_info` exclude, is not saved.
- Special nodes and indent masks of the tree window, page down and sibling moves, the drawing.
- TreeWindow keeps the tree as a value and a node pointer as a path of child numbers, so aliasing of nodes is not captured.
- Lists.TakeBuffers: linked lists are sequences, so moving a node is removing and appending it.
