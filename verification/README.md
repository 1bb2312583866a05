# Verified model of the CUDA compiler front end

This project models the parts of the front end that decide something: which kernel is launched, what the
emitted code computes, which symbol names it. Objects that are updated in place are classes, loops are loops,
and each method is proved to compute a function on values about which the main theorems are stated.

| files | subject |
|---|---|
| LaunchModel, LaunchRuns, LaunchHistory, LaunchRestarts, LaunchDispatcher | launch-configuration-sensitive dispatch with its disk cache and marker file |
| LoweringModel, LoweringStorage, LoweringExactness, LoweringEmitter, RefCounts, MixedRefCounts | block-local values and stack slots in lowering, and reference counts |
| Mangler, ManglerProofs, ManglerEscaping, ManglerCollisions | Itanium name mangling, section 5.1 of the Itanium C++ ABI |
| Xoroshiro, XoroshiroProofs | xoroshiro128+ streams |
| ExceptionRecord, KernelFixup | the first-error-wins record of debug kernels, and the rewrite of a status-returning function into a kernel |
| MixedRadix, MachineInt, Addressing, LoopNests, Strides | addresses, loop nests, strides and floor division |
| Shapes, Broadcasting, SignatureParser, GUFuncSchedule, GUFuncLaunch, GUFuncOrder | broadcasting and generalized ufunc scheduling |
| ItemLayouts, NoCopyReshape, DeviceArrays | reshaping device arrays |
| LinkGraph | code libraries that link to one another |
| Options, Maps | the option type, and map lookup with a default |

## How things are modelled

- A dispatcher is a node plus one child node per launch key. The outcome of a compilation (it raises, or builds a
  kernel that is or is not marked) and whether the marker file can be written are parameters of each step. The
  type resolver is a parameter that answers with an overload or asks for a compilation. A kernel carries the number
  of the run of the compiler that built it. Calls are atomic.
- Lowered code runs on a machine whose operations may depend on the whole history of the run. Reading a variable
  with no value, or a deleted one, yields null. A computed value arrives with one reference of its own.
- `kernel_fixup` works on blocks of instructions in which loads, stores, branches, returns and the helper call are
  spelled out; every other instruction has an arbitrary meaning that may read and write memory. The slot behind
  the return-value pointer is not part of that memory.
- The exception helper is a state machine: the test with the compare-and-exchange is one step, each of the six
  coordinate stores is another, and threads interleave freely. The host waits for a launch to end.
- Addresses and loop indices are 64-bit two's complement values and every emitted operation wraps. Host-side
  strides are unbounded integers, as in Python. `divmod_by_constant` is proved at every width.
- Strides of device arrays and generalized ufunc arguments are counted in items.
- Code libraries carry a ghost finalization number. Sets of links are walked in arbitrary order.

## Where the code and its promises differ

- The marker file need not accompany sensitive entries: one cache object may remember a marker that another has
  removed (`LaunchRuns.MarkerCanBeMissing`; `LaunchRuns.MarkerAfterStore` says exactly when).
- `recompile` says it compiles all signatures afresh, but the children for other launch keys keep their kernels: a
  kernel built before is launched after (`LaunchHistory.ChildOutlivesRecompile`), and every kernel in memory is new
  exactly when no child held one (`LaunchHistory.RecompileCoversExactly`).
- A block-local variable read after its deletion in the same block yields its old value where a slot would yield
  null (`LoweringStorage.ReadsAgreeExactly` for each block, `LoweringExactness.WholeRunsAgreeExactly` for whole
  runs, at an input in `LoweringExactness.UseAfterDelDiffers`).
- An argument stored over a live slot leaks a reference (`RefCounts.ArgumentBalancedExactly`, at an input in
  `RefCounts.SecondArgumentLeaks`). Only IR built by hand comes to that: the front end stores each argument once, to
  a variable of its own, in an entry block that nothing jumps back to.
- A second deletion of a block-local value releases it twice, where one of a slot is harmless
  (`MixedRefCounts.StatementBalancedExactly`, at an input in `MixedRefCounts.SecondDelReleasesTwice`).
- `escape_string` promises ASCII, but its pattern ignores case and lets four letters through: U+0130, U+0131,
  U+017F and U+212A (`ManglerEscaping.EscapedIsAsciiExactly`, at an input in `ManglerEscaping.DotlessLeaks`).
  Escaping is not injective (`ManglerEscaping.UnderscoresCollide`); `ManglerCollisions.CollidesExactly` says which names share their form with
  another, and `my_kernel` is not one of them.
- Broadcasting to a higher rank compares axes without shifting them past the missing ones
  (`Broadcasting.StretchedReadsRightExactly`, `Broadcasting.RowIsNotRepeated`).
- A generalized ufunc argument with outer shape (1,) and a non-empty core is scheduled as pinned but cannot be
  prepared for more than one iteration (`GUFuncLaunch.MismatchExactly`, at an input in `GUFuncLaunch.PinnedRowFails`),
  and ties between () and (1,) make scheduling depend on the order of arguments (`GUFuncOrder.OrderMattersExactly`).
- Reshaping a device array is documented to leave its contents alone, but an F-contiguous array is given C strides
  over the same data. So a generalized ufunc reads or writes other items than it should where it collapses axes of an
  array in F order (`DeviceArrays.ReshapeKeepsItems`, `GUFuncLaunch.ItemsShownExactly`, at an input in
  `GUFuncLaunch.FortranIsScrambled`).
- The search for strides that need no copy is exact (`NoCopyReshape.AttemptNoCopyReshape`), but a device array that is
  contiguous in neither order is refused whatever it finds, unless its memory is one run
  (`DeviceArrays.ReshapeArray`, at an input in `DeviceArrays.RefusedThoughPossible`).
- A trailing comma is documented as legal in a generalized ufunc signature, but fails when the tokenizer ends the
  line with a token of its own, as current Python does; any single token is accepted between two groups
  (`SignatureParser.TrailingComma`, at an input in `SignatureParser.NewlineAfterComma`, and
  `SignatureParser.OnlyLegalParses`).
- An external library refuses files after finalization because its users would miss them; a CUDA library does not
  refuse them, and its users do miss them (`LinkGraph.CodeLibrary.AddLinkingFile`, at an input in
  `LinkGraph.LateFileIsMissed`). An external library also has no list of linking
  libraries, so reading the list of a library that links to one fails (`LinkGraph.ExternalHasNoList`).
- A library that was never given a module can be finalized and linked to, but then its users cannot be finalized
  (`LinkGraph.CodeLibrary.Finalize`, `LinkGraph.MissedDirectlyExactly`, at an input in `LinkGraph.ModuleIsMissed`).

## Model

| member | source | states |
|---|---|---|
| LaunchRuns.EveryLaunchHonest | numba_cuda/numba/cuda/dispatcher.py:1692-1779 | Over every sequential run of calls, compiles, recompiles (with their flush), restarts and outside interference, from any disk whose entries all sit under the plain key, every launched sensitive kernel was compiled under the very key it is launched with; the dispatcher and disk invariants hold at the end |
| LaunchRuns.RunKeeps | numba_cuda/numba/cuda/dispatcher.py:1828-1857 | The same from any world that already satisfies the invariants |
| LaunchRuns.StepKeeps | numba_cuda/numba/cuda/dispatcher.py:1692-1779 | One step of any kind keeps the invariants of all dispatchers, the disk and the record of launches |
| LaunchRuns.DefaultKeyIsPinned | numba_cuda/numba/cuda/dispatcher.py:1758-1779 | A default key, once pinned, is never replaced in the life of the process |
| LaunchRuns.CallKeeps | numba_cuda/numba/cuda/dispatcher.py:1828-1857 | A call keeps: sensitive overloads only on a sensitive dispatcher, sensitive exactly with a default key, children holding only kernels of their own key; what it launches, if sensitive, was compiled under the key of the call |
| LaunchRuns.CallNodeKeeps | numba_cuda/numba/cuda/dispatcher.py:1845-1850 | The same for the part of a call after the dispatcher was selected |
| LaunchHistory.LaterLaunchReuses | numba_cuda/numba/cuda/dispatcher.py:1758-1779 | Over every run without a restart or a recompilation of the dispatcher, a later launch of the same overload under the same key launches the very same kernel, whatever the compiler would do, as long as the same node serves the key; a dispatcher that was sensitive after the first launch keeps that node |
| LaunchHistory.InsensitiveLaunchCanBeRerouted | numba_cuda/numba/cuda/dispatcher.py:1758-1769 | A run of three launches in which another node serves the key later, so that the kernel is compiled anew |
| LaunchRestarts.FirstLaunchExactly | numba_cuda/numba/cuda/dispatcher.py:2110-2136 | After a restart the first launch takes what the disk holds (with the marker the entry of its key, without it a plain entry that is not sensitive), whatever the compiler would do, and only without that compiles under its own key |
| LaunchRestarts.StoredSurvivesRestart | numba_cuda/numba/cuda/dispatcher.py:1709-1723 | Over every run without a recompilation or a removal of the marker, a marked entry of a launch key survives: after a restart the first launch under that key takes the entry, compiled under that key if sensitive |
| LaunchRestarts.SameKernelAfterRestart | numba_cuda/numba/cuda/dispatcher.py:1709-1723 | Two processes launch the same sensitive kernel, the second on another stream and with a compiler that can build nothing |
| LaunchRuns.RepeatedCallReuses | numba_cuda/numba/cuda/dispatcher.py:1758-1779 | Repeating a call at once under the same configuration launches the same kernel, compiles nothing and leaves dispatcher and disk unchanged |
| LaunchRuns.CompileKeeps | numba_cuda/numba/cuda/dispatcher.py:2094-2163 | Compiling keeps the node and disk invariants whether the kernel comes from memory, disk or the compiler, and whether or not the marker can be written |
| LaunchRuns.AcceptedFromDiskExactly | numba_cuda/numba/cuda/dispatcher.py:2110-2136 | A sensitive kernel is accepted from disk if and only if the index holds one under the key of the active launch and the marker is known |
| LaunchRuns.CompiledOrLoaded | numba_cuda/numba/cuda/dispatcher.py:2110-2163 | Compiling a signature not in memory yields no kernel, when the compiler raises, or the index entry at the configured key, in both cases with the index untouched, or the kernel of this run of the compiler under the active key |
| LaunchRuns.StoredUnderOwnKey | numba_cuda/numba/cuda/dispatcher.py:2146-2159 | A compilation writes at most one entry, of the requested signature; a sensitive kernel goes under the key it was compiled for, never the plain key, and only with the marker recorded |
| LaunchRuns.NotStoredWithoutMarker | numba_cuda/numba/cuda/dispatcher.py:2149-2159 | With no marker known or writable a sensitive kernel is built and returned, nothing is stored, and the disk cache is dropped |
| LaunchRuns.MarkerAfterStore | numba_cuda/numba/cuda/dispatcher.py:834-845 | After a sensitive kernel was stored the marker file exists, if and only if the cache object did not remember a marker that is gone |
| LaunchRuns.MarkerCanBeMissing | numba_cuda/numba/cuda/dispatcher.py:827-853 | A run of five steps (two dispatchers, one recompiling) ends with a sensitive entry on disk and no marker file |
| LaunchRuns.RecompileIsFresh | numba_cuda/numba/cuda/dispatcher.py:2182-2198 | Recompilation leaves exactly the kernels of its own runs of the compiler, in the old order, up to the first that fails, whatever the disk held |
| LaunchHistory.RecompileCoversExactly | numba_cuda/numba/cuda/dispatcher.py:2182-2198 | After a recompilation, even one cut short, every kernel in memory was built by it if and only if no specialization held one |
| LaunchHistory.RecompiledDiskIsFresh | numba_cuda/numba/cuda/dispatcher.py:2182-2198 | A caching dispatcher leaves only disk entries built by the recompilation |
| LaunchHistory.ChildOutlivesRecompile | numba_cuda/numba/cuda/dispatcher.py:2182-2198 | A run of four steps after which a kernel built before the recompilation is launched, with a compiler that can build nothing |
| LaunchRuns.RecompileKeeps | numba_cuda/numba/cuda/dispatcher.py:2182-2198 | Recompilation keeps the invariants and the identity of the node for every outcome of its compilations |
| LaunchRuns.CompileKeepsOrder | numba_cuda/numba/cuda/dispatcher.py:2088-2091 | The insertion order of overloads stays a duplicate-free list of exactly the overloads |
| LaunchDispatcher.CUDACache.IsLaunchConfigSensitive | numba_cuda/numba/cuda/dispatcher.py:827-832 | Answers from memory or else from the marker file, and remembers the answer |
| LaunchDispatcher.CUDACache.MarkLaunchConfigSensitive | numba_cuda/numba/cuda/dispatcher.py:834-845 | Creates the marker unless it is remembered; reports failure exactly when it ends up not recorded |
| LaunchDispatcher.CUDACache.Flush | numba_cuda/numba/cuda/dispatcher.py:847-853 | Empties the index, removes the marker and forgets it; the launch key stays |
| LaunchDispatcher.CUDADispatcher.Call | numba_cuda/numba/cuda/dispatcher.py:1828-1857 | The whole call in place: new fields, children, cache and disk are those of the value model, for which the run theorems are proved |
| LaunchDispatcher.CUDADispatcher.Compile | numba_cuda/numba/cuda/dispatcher.py:2094-2163 | The compilation in place equals the value model on every path |
| LaunchDispatcher.CUDADispatcher.Recompile | numba_cuda/numba/cuda/dispatcher.py:2182-2198 | Recompilation in place equals the value model, children untouched, compile permission restored also after an exception |
| LaunchDispatcher.CUDADispatcher.SelectLaunchConfigDispatcher | numba_cuda/numba/cuda/dispatcher.py:1758-1769 | Keeps the launch and pins a missing default key, or routes to the child of the key, creating it first if need be |
| LaunchDispatcher.CUDADispatcher.GetLaunchConfigSpecialization | numba_cuda/numba/cuda/dispatcher.py:1725-1741 | Finds or creates the child of a key; a new child is sensitive, pinned to its key and caches as its parent does; other children stay as they were |
| LaunchDispatcher.CUDADispatcher.UpdateLaunchConfigSensitivity | numba_cuda/numba/cuda/dispatcher.py:1771-1779 | A sensitive kernel makes the dispatcher sensitive and pins a missing default key; nothing else changes |
| LaunchDispatcher.CUDADispatcher.ConfigureCacheForLaunchConfig | numba_cuda/numba/cuda/dispatcher.py:1709-1723 | Sets the key of the cache as the value model does |
| LoweringStorage.LoweringPreservesReads | numba_cuda/numba/cuda/lowering.py:426-468 | For every control-flow graph, every behaviour of the operations and every length of run: lowering with block-local values shows the same events, values read and path as lowering everything to stack slots, and each block-local value read is bound |
| LoweringStorage.StorageClassIsFixed | numba_cuda/numba/cuda/lowering.py:1626-1651 | Whatever candidate set lowering starts from, provided each is assigned once and read only after that in its block, and although a deletion may drop a candidate on the way, the emitted code is that of one fixed set of block-local variables |
| LoweringStorage.CandidatesStay | numba_cuda/numba/cuda/lowering.py:426-468 | From the candidate set the code computes, lowering drops none and binds them all: the emitted code is that of the candidates themselves |
| LoweringStorage.EarlyDelDrops | numba_cuda/numba/cuda/lowering.py:1626-1651 | A deletion before the assignment would drop a candidate; such a variable is none |
| LoweringStorage.ReadsAgreeExactly | numba_cuda/numba/cuda/lowering.py:1626-1651 | Block by block from a fresh machine, the two lowerings read the same values if and only if no block reads a block-local variable after deleting it |
| LoweringExactness.WholeRunsAgreeExactly | numba_cuda/numba/cuda/lowering.py:426-468 | Over whole runs, whatever the operations do, the two lowerings read the same values if and only if no run comes to a statement that reads a block-local variable after deleting it |
| LoweringExactness.UseAfterDelDiffers | numba_cuda/numba/cuda/lowering.py:1626-1651 | Make an object, delete it, use it: the two lowerings read different values |
| LoweringStorage.RunsAgree | numba_cuda/numba/cuda/lowering.py:1555-1651 | The step-by-step relation between the slot machine and the mixed machine over runs |
| LoweringEmitter.ComputeUseDefs | numba_cuda/numba/cuda/core/analysis.py:26-65 | A variable is in the defs of a block when some assignment to it does not read it, and in the uses when some operand, or a deletion of it, comes before any such definition |
| LoweringEmitter.TestIsExact | numba_cuda/numba/cuda/lowering.py:448-465 | The test on defs, uses and number of assignments picks exactly the variables assigned once in the whole function, and read and deleted only after that in its block |
| LoweringEmitter.BranchVariableKeepsSlot | numba_cuda/numba/cuda/lowering.py:448-465 | A branch condition deleted at the start of the successors fails the test, though it is assigned once and read in its block only |
| LoweringEmitter.TestVariable | numba_cuda/numba/cuda/lowering.py:448-465 | The test as computed from the two maps passes for exactly those variables |
| LoweringEmitter.Lower.FindSinglyAssignedVariable | numba_cuda/numba/cuda/lowering.py:426-468 | The candidate set is exactly those variables, minus the forced stack variables, and empty for generators |
| LoweringEmitter.Lower.GetVar | numba_cuda/numba/cuda/lowering.py:1541-1553 | Given what its callers ensure, neither assertion fires and the slot exists |
| LoweringEmitter.Lower.LoadVar | numba_cuda/numba/cuda/lowering.py:1555-1571 | Reads the block-local value if bound, else the slot |
| LoweringEmitter.Lower.StoreVar | numba_cuda/numba/cuda/lowering.py:1573-1624 | Binds a candidate, else releases the old value (not for an argument) and stores |
| LoweringEmitter.Lower.DelVar | numba_cuda/numba/cuda/lowering.py:1626-1651 | Releases a bound value, or drops the candidate, releases its slot and zeroes it |
| LoweringEmitter.Lower.LowerFunctionBody | numba_cuda/numba/cuda/lowering.py:285-326 | Lowering the whole body in place emits the code of the value model, that of one fixed set of block-local variables, which are the candidates themselves when these are as the test leaves them; no assertion fails on the way |
| RefCounts.RunsStayBalanced | numba_cuda/numba/cuda/lowering.py:1573-1651 | In slot lowering, over every run, each object has as many net references as slots hold it, so no held object has lost its last one |
| RefCounts.StatementKeepsBalance | numba_cuda/numba/cuda/lowering.py:743-791 | Assignments, deletions and all other statements except argument stores keep that balance |
| RefCounts.ArgumentBalancedExactly | numba_cuda/numba/cuda/lowering.py:1588-1592 | Storing an argument, which releases nothing, keeps the balance if and only if the slot was empty |
| RefCounts.SecondArgumentLeaks | numba_cuda/numba/cuda/lowering.py:1588-1592 | Two arguments stored to one variable leave an object with a reference that no slot accounts for |
| RefCounts.AssignmentFreesNothingHeld | numba_cuda/numba/cuda/lowering.py:1587-1624 | Between the instructions of an assignment, also of a variable to itself, no object held by a slot or on its way into one is freed |
| RefCounts.SecondDelIsHarmless | numba_cuda/numba/cuda/lowering.py:1647-1651 | A second deletion in a row changes nothing, because the first zeroed the slot |
| MixedRefCounts.StatementBalancedExactly | numba_cuda/numba/cuda/lowering.py:1573-1651 | With block-local values, a statement keeps as many net references to each object as slots and live block-local values hold it if and only if it deletes no block-local value twice, leaves none that holds an object behind at a transfer, and stores no argument over a live slot |
| MixedRefCounts.MixedRunsStayBalanced | numba_cuda/numba/cuda/lowering.py:1573-1651 | So every run keeps that balance when each block-local variable is deleted once before its block is left |
| MixedRefCounts.RunsStayBalanced | numba_cuda/numba/cuda/lowering.py:426-468 | The same over the code lowered from the candidate set; no object held by a slot or a live block-local value has lost its last reference |
| MixedRefCounts.SecondDelReleasesTwice | numba_cuda/numba/cuda/lowering.py:1626-1651 | A second deletion of a block-local value releases it twice, where one of a slot is harmless |
| Xoroshiro.JumpInPlace | numba_cuda/numba/cuda/random.py:119-142 | Replaces one state by the XOR of the states b steps ahead over the set bits b of the 128-bit jump constant and touches no other element |
| Xoroshiro.NextInPlace | numba_cuda/numba/cuda/random.py:97-115 | Steps one state, returns the sum of its words, touches no other element |
| Xoroshiro.InitState | numba_cuda/numba/cuda/random.py:63-85 | Puts the mixed seed in both words of one state |
| Xoroshiro.InitStatesCpu | numba_cuda/numba/cuda/random.py:242-257 | Element i is the seeded state jumped subsequence_start + i times, for every length |
| Xoroshiro.RotationsAreRotl | numba_cuda/numba/cuda/random.py:89-93 | The two rotations used are the general rotation at 55 and 36 |
| XoroshiroProofs.JumpIsLinearAndCommutes | numba_cuda/numba/cuda/random.py:119-142 | The jump is XOR-linear and commutes with any number of steps |
| XoroshiroProofs.StreamsShift | numba_cuda/numba/cuda/random.py:242-257 | The array for start k + 1 is that for k moved by one; jumping after n draws is n draws after jumping |
| XoroshiroProofs.JumpNAdds | numba_cuda/numba/cuda/random.py:250-257 | Jumps add up |
| XoroshiroProofs.NextLinear | numba_cuda/numba/cuda/random.py:97-115 | The step is XOR-linear |
| XoroshiroProofs.NextIsBijective | numba_cuda/numba/cuda/random.py:106-113 | The step has an inverse on all 128-bit states |
| XoroshiroProofs.ZeroOnlyFromZero | numba_cuda/numba/cuda/random.py:106-113 | After any number of steps the state is zero if and only if it started zero |
| XoroshiroProofs.SplitMixIsInjective | numba_cuda/numba/cuda/random.py:76-85 | The seed can be recomputed from the mixed word modulo 2^64 |
| XoroshiroProofs.OnlyOneSeedIsDead | numba_cuda/numba/cuda/random.py:63-142 | The all-zero state comes from the seed 0x61C8864680B583EB and no other, is reached from no other seed by stepping, and is fixed by step and jump |
| ExceptionRecord.EveryInterleavingConsistent | numba_cuda/numba/cuda/compiler.py:941-982 | For every interleaving of any number of threads and launches: a zero code means nobody recorded, a non-zero code belongs to one thread and the coordinates written so far are its own |
| ExceptionRecord.ReportIsOneThreads | numba_cuda/numba/cuda/dispatcher.py:529-564 | Once all threads finished, the host reports an error if and only if some thread had one to record, and code, tid and ctaid are all of one such thread, whatever earlier launches left behind |
| ExceptionRecord.FirstErrorStays | numba_cuda/numba/cuda/compiler.py:951-965 | Within a launch the code changes at most once, from zero |
| ExceptionRecord.StepsLowerRemaining | numba_cuda/numba/cuda/compiler.py:941-982 | Each step of an unfinished thread lowers the work left, so every interleaving ends |
| KernelFixup.FixupPreservesMeaning | numba_cuda/numba/cuda/compiler.py:820-888 | When the return-value pointer is only ever a store address, the rewritten kernel enters the same blocks and makes the same calls and stores outside the return slot; every exit is a void return, in debug mode right after the helper got exactly the status returned |
| KernelFixup.Kernel.Fixup | numba_cuda/numba/cuda/compiler.py:833-888 | The two passes over the blocks in place amount to rewriting each instruction once, dropping the first argument and the status |
| KernelFixup.Kernel.ReplaceReturn | numba_cuda/numba/cuda/compiler.py:833-855 | Pops the return, appends the helper call in debug mode and a void return |
| KernelFixup.Kernel.RemoveReturnStores | numba_cuda/numba/cuda/compiler.py:861-874 | Removing the found stores one at a time by equality leaves exactly the other instructions, in order |
| KernelFixup.TwoPasses | numba_cuda/numba/cuda/compiler.py:833-874 | Per block the two passes compose to the per-instruction rewrite |
| KernelFixup.NoDanglingUseExactly | numba_cuda/numba/cuda/compiler.py:859-888 | The rewritten block is free of the dropped argument if and only if every instruction used it as a store address, not at all, or (not in debug mode) as the status returned |
| ManglerProofs.DemangleRecoversMeaning | numba_cuda/numba/cuda/itanium_mangler.py:182-192 | A recursive reader recovers identifier parts, tags with uid and the whole argument list, nested templates and integers included, from every symbol |
| ManglerProofs.SameSymbolExactly | numba_cuda/numba/cuda/itanium_mangler.py:103-192 | Two inputs share a symbol if and only if they have the same parts, tags and arguments after escaping |
| ManglerProofs.DemangleBack | numba_cuda/numba/cuda/itanium_mangler.py:116-192 | Reading back what is written for any well-formed symbol returns that symbol |
| ManglerProofs.MangleWritesMeaning | numba_cuda/numba/cuda/itanium_mangler.py:116-192 | The mangled text is the written form of the meaning |
| ManglerProofs.ParseNodeBack | numba_cuda/numba/cuda/itanium_mangler.py:136-172 | The reader takes exactly the text of one argument off the front of any continuation that can follow it |
| ManglerEscaping.CleanExactly | numba_cuda/numba/cuda/itanium_mangler.py:65-109 | A name is written unchanged if and only if it has only valid characters and no leading digit |
| ManglerEscaping.DemangleRecoversIdentifier | numba_cuda/numba/cuda/itanium_mangler.py:116-133 | An identifier whose dotted parts need no escaping is read back as it was |
| ManglerEscaping.EscapedIsAsciiExactly | numba_cuda/numba/cuda/itanium_mangler.py:65-87 | The escaped text is ASCII if and only if the text has none of the four letters that fold to ASCII ones |
| ManglerEscaping.DotlessLeaks | numba_cuda/numba/cuda/itanium_mangler.py:42-87 | The dotless i leaves the text outside ASCII |
| ManglerEscaping.UnderscoresCollide | numba_cuda/numba/cuda/itanium_mangler.py:84-98 | `<` and `_3c` share every symbol, and so do `1a` and `_1a` |
| ManglerEscaping.CleanInjective | numba_cuda/numba/cuda/itanium_mangler.py:65-109 | Among names without underscores and leading digits the written form is injective, whatever the characters |
| ManglerCollisions.CollidesExactly | numba_cuda/numba/cuda/itanium_mangler.py:65-109 | A name shares its written form with another if and only if it is not written as it stands, starts with an underscore and a digit, or spells the escape of some character |
| ManglerCollisions.IdentifierCollidesExactly | numba_cuda/numba/cuda/itanium_mangler.py:116-133 | An identifier shares its symbol with another, for the same arguments and tags, if and only if one of its dotted parts does so without using a dot |
| ManglerCollisions.NoHexAfterUnderscore | numba_cuda/numba/cuda/itanium_mangler.py:65-98 | A name of valid characters with no underscore before two hexadecimal digits, and no digit first or after a first underscore, shares its form with none |
| ManglerCollisions.MyKernelIsAlone | numba_cuda/numba/cuda/itanium_mangler.py:65-98 | `my_kernel` is such a name |
| Addressing.GetItemPointer | numba_cuda/numba/cuda/cgutils.py:775-839 | The pointer is the sum of index times byte step modulo 2^64 for every layout, with wrapped negative indices; a bounds-checked access raises if and only if some index is outside its axis |
| Addressing.BoundsCheck | numba_cuda/numba/cuda/cgutils.py:762-772 | Fails if and only if some axis is out of bounds |
| Addressing.EveryElementOnce | numba_cuda/numba/cuda/cgutils.py:808-834 | For shapes whose bytes fit the register, C and F offsets are bijections from the index box onto the item-size multiples below the total |
| Addressing.ItemOffsetIsRank | numba_cuda/numba/cuda/cgutils.py:808-834 | An in-bounds offset is item size times the mixed-radix rank: nothing wraps |
| Addressing.WrappedIsModulo | numba_cuda/numba/cuda/cgutils.py:789-798 | Wrapping is reduction modulo the axis, and lands in bounds exactly for indices within one turn |
| MixedRadix.OffsetsAreBijections | numba_cuda/numba/cuda/cgutils.py:808-834 | C and F element offsets are bijections from the box onto [0, product), for every positive shape of every rank |
| LoopNests.LoopNest | numba_cuda/numba/cuda/cgutils.py:637-671 | For any shape and order: each index of the box exactly once, the k-th visit having offset k; no visit at all when an axis is not positive |
| LoopNests.Nest | numba_cuda/numba/cuda/cgutils.py:664-671 | The recursive nest enumerates in C order |
| LoopNests.WalksForwards | numba_cuda/numba/cuda/cgutils.py:637-671 | A nest in the order of the array visits memory forwards one item at a time |
| LoopNests.ReversedOffset | numba_cuda/numba/cuda/cgutils.py:656-662 | Reversing axes and index swaps the C and F offsets |
| MachineInt.DivmodByConstant | numba_cuda/numba/cuda/cgutils.py:1060-1088 | At every width, for every value and representable positive divisor: the floor quotient and the remainder in [0, divisor) |
| MachineInt.ProductCanWrap | numba_cuda/numba/cuda/cgutils.py:1084-1088 | Near the minimum the product of quotient and divisor does wrap |
| Strides.ContiguousStridesLike | numba_cuda/numba/cuda/api.py:295-321 | None exactly for contiguous arrays and ranks below two; otherwise dense strides in the stable order of the given strides |
| Strides.DenseIsBijection | numba_cuda/numba/cuda/api.py:309-321 | Such strides are a bijection from the indices onto the item-size multiples below the total size |
| Strides.OrderIsKept | numba_cuda/numba/cuda/api.py:309-321 | The new strides keep the order of the given ones, ties by axis, each axis packed inside one step of the next |
| Strides.AgreesWithOrders | numba_cuda/numba/cuda/api.py:309-321 | Non-decreasing given strides yield the F strides, strictly decreasing ones the C strides |
| Strides.FillStrideByOrder | numba_cuda/numba/cuda/api_util.py:34-51 | C and F strides by running products from either end; any other order is an error unless the shape is empty |
| Strides.GenericArrayStrides | numba_cuda/numba/cuda/cudaimpl.py:929-935 | Appending from the last axis and reversing gives the C strides |
| Strides.CompiledCodeAgrees | numba_cuda/numba/cuda/cgutils.py:808-839 | Compiled code addresses host strides without wrapping, and C or F strides as it does the C or F layout |
| Broadcasting.PairwiseBroadcast | numba_cuda/numba/cuda/deviceufunc.py:103-117 | The padded, axis-by-axis result, or failure |
| Broadcasting.PairwiseIsLeast | numba_cuda/numba/cuda/deviceufunc.py:87-117 | The result is the least shape both can be stretched to; failure means there is none |
| Broadcasting.PairwiseLaws | numba_cuda/numba/cuda/deviceufunc.py:87-117 | Commutative, associative and idempotent, failures included |
| Broadcasting.MultiBroadcast | numba_cuda/numba/cuda/deviceufunc.py:120-136 | The common shape, or the first argument without one among those up to it |
| Broadcasting.CommonIsLeast | numba_cuda/numba/cuda/deviceufunc.py:120-136 | The common shape is the least upper bound of all arguments and is missing exactly when none exists |
| Broadcasting.CommonIgnoresOrder | numba_cuda/numba/cuda/deviceufunc.py:120-136 | Order and repetition of the arguments change neither the shape nor success |
| Broadcasting.BroadcastArguments | numba_cuda/numba/cuda/deviceufunc.py:239-271 | In place, every array becomes its stretched view of the common shape, or nothing changes and the first argument without a shape in common with those before it is reported |
| Broadcasting.Stretch | numba_cuda/numba/cuda/deviceufunc.py:253-269 | The strides of one stretched array |
| Broadcasting.StretchedReadsRightExactly | numba_cuda/numba/cuda/deviceufunc.py:253-267 | The view reads the promised elements if and only if the comparison of sizes, which is not shifted past missing axes, happens to agree wherever it matters |
| Broadcasting.EqualRanksReadRight | numba_cuda/numba/cuda/deviceufunc.py:253-267 | It does for equal ranks and for shapes of ones |
| Broadcasting.RowIsNotRepeated | numba_cuda/numba/cuda/deviceufunc.py:253-267 | It does not for shape (3,) against (2, 3), where every element read is the first |
| SignatureParser.ParseGroups | numba_cuda/numba/cuda/deviceufunc.py:41-66 | The token loop computes the parse of the stream |
| SignatureParser.ReadBack | numba_cuda/numba/cuda/deviceufunc.py:41-66 | Every legal signature is read back: names of each group in order, whatever the commas |
| SignatureParser.OnlyLegalParses | numba_cuda/numba/cuda/deviceufunc.py:41-66 | Nothing else parses: an accepted stream is groups separated by exactly one token of any kind but the end |
| SignatureParser.TrailingComma | numba_cuda/numba/cuda/deviceufunc.py:24-61 | After any groups, a comma is legal if and only if what follows is a legal signature of its own; so before a last token and the end it is legal only if that token is the end, where without the comma any last token is |
| SignatureParser.PiecesThenTail | numba_cuda/numba/cuda/deviceufunc.py:41-66 | What follows complete groups is parsed as if it stood alone |
| SignatureParser.NewlineAfterComma | numba_cuda/numba/cuda/deviceufunc.py:24-61 | One group, a comma, a newline token and the end: refused |
| SignatureParser.ParseSignature | numba_cuda/numba/cuda/deviceufunc.py:68-84 | Both sides parse and every output symbol occurs in an input; otherwise the parse error, or exactly the undefined symbols |
| GUFuncSchedule.ScheduleCall | numba_cuda/numba/cuda/deviceufunc.py:655-707 | Scheduling succeeds if and only if one symbol assignment fits every core shape, outputs use known symbols, and every outer shape is the first largest one, (1,) or (); the schedule then holds the solved shapes, loop and pins; an error names the first argument that does not fit with those before it |
| GUFuncSchedule.BindCores | numba_cuda/numba/cuda/deviceufunc.py:664-686 | The arguments up to the first that is too short or contradicts an earlier one; otherwise a solution over exactly the mentioned symbols |
| GUFuncSchedule.SolutionIsUnique | numba_cuda/numba/cuda/deviceufunc.py:677-683 | The solution is unique on the symbols of the signature |
| NoCopyReshape.AttemptNoCopyReshape | numba_cuda/numba/cuda/cudadrv/dummyarray.py:14-120 | For arrays of any strides: strides for the new shape are found if and only if some strides show the items of the array in C order, and those found do; for an array that is one run of items they are the C strides |
| NoCopyReshape.MatchGroup | numba_cuda/numba/cuda/cudadrv/dummyarray.py:72-83 | The inner loop ends with the shortest groups of axes of the same size on both sides |
| ItemLayouts.EquallySpaced | numba_cuda/numba/cuda/cudadrv/dummyarray.py:85-95 | Where two layouts show the same items and step apart, all items follow one another at the same distance; so a group that is not one run rules out all strides |
| DeviceArrays.ReshapeArray | numba_cuda/numba/cuda/cudadrv/devicearray.py:620-650 | Reshaping returns the array itself for its own shape, fails for another size, gives C strides to an array that is contiguous or one run of items, and refuses every other |
| DeviceArrays.OneRunExactly | numba_cuda/numba/cuda/cudadrv/dummyarray.py:366-389 | The runs of an array contiguous in neither order are its whole extent if and only if it has one item, or all are along an innermost axis of stride one |
| DeviceArrays.OneRunInCOrder | numba_cuda/numba/cuda/cudadrv/dummyarray.py:366-389 | Such an array is in C order |
| DeviceArrays.ReshapeKeepsItems | numba_cuda/numba/cuda/cudadrv/devicearray.py:620-650 | Reshaped to another shape, an array keeps its items in C order if and only if it was in C order |
| DeviceArrays.RefusedThoughPossible | numba_cuda/numba/cuda/cudadrv/devicearray.py:640-650 | Two of four columns: strides for splitting the rows exist, and the reshape is refused |
| DeviceArrays.CContiguousInOrder | numba_cuda/numba/cuda/cudadrv/dummyarray.py:281-321 | An array flagged C contiguous is in C order |
| GUFuncLaunch.MismatchExactly | numba_cuda/numba/cuda/deviceufunc.py:794-828 | For every successful schedule with an iteration, and arrays of any strides: the shapes of some array fail to match if and only if some argument is pinned by (1,) with a core that has items under more than one iteration |
| GUFuncLaunch.PreparedExactly | numba_cuda/numba/cuda/deviceufunc.py:794-828 | For the same: all arrays are prepared if and only if there is no such argument, every input whose axes are collapsed can be reshaped, and so can every output unless there is one outer axis |
| GUFuncLaunch.ContiguousPrepared | numba_cuda/numba/cuda/deviceufunc.py:794-828 | For contiguous arrays only the absence of such an argument is left of that condition |
| GUFuncLaunch.EachPrepared | numba_cuda/numba/cuda/deviceufunc.py:794-828 | What becomes of each input and output of the launch, with the kind of failure |
| GUFuncLaunch.ItemsShownExactly | numba_cuda/numba/cuda/deviceufunc.py:794-828 | What is prepared, of any strides, shows the right item at every loop and core index, except that an array whose axes are collapsed does so if and only if it is in C order |
| GUFuncLaunch.ScheduledArgument | numba_cuda/numba/cuda/deviceufunc.py:693-718 | loopn bounds the size of every outer shape |
| GUFuncLaunch.InputsShowTheirItems | numba_cuda/numba/cuda/deviceufunc.py:813-828 | One input of any strides: its sizes mismatch exactly when it would have to be repeated, it is refused exactly when axes are collapsed and it cannot be reshaped, and otherwise it shows its items, after a collapse exactly in C order |
| GUFuncLaunch.OutputsKeepTheirItems | numba_cuda/numba/cuda/deviceufunc.py:808-811 | One output of any strides: used as it is with one outer axis, otherwise prepared exactly if it can be reshaped; the number of items is conserved, and their places if and only if there is one outer axis or the output is in C order |
| GUFuncLaunch.FortranIsScrambled | numba_cuda/numba/cuda/cudadrv/dummyarray.py:432-444 | Two rows of three in F order, looped over item by item, show other items than theirs |
| GUFuncLaunch.PinnedRowFails | numba_cuda/numba/cuda/deviceufunc.py:813-828 | Shapes (1, 3) and (2, 3) for (n),(n)->(n) are scheduled, and the first cannot be prepared |
| GUFuncLaunch.BroadcastParameters | numba_cuda/numba/cuda/deviceufunc.py:794-811 | All inputs and outputs are prepared, exactly when each can be and there is an iteration, or the first that cannot be is reported, after all before it could |
| GUFuncOrder.OrderMattersExactly | numba_cuda/numba/cuda/deviceufunc.py:693-705 | The order of arguments changes the loop or the success of scheduling if and only if all outer sizes are one, not all outer shapes are equal and at most one differs from () and (1,) |
| GUFuncOrder.UnitAndEmptyAreTied | numba_cuda/numba/cuda/deviceufunc.py:693-705 | Outer shapes () and (1,) loop over whichever comes first |
| LinkGraph.CodeLibrary.AddLinkingLibrary | numba_cuda/numba/cuda/codegen.py:391-406 | Finalizes the other library first, and makes no link if that fails; then refuses if this one is finalized (itself included); otherwise adds the link and the files; the finalization order stays a rank for the links and linked files stay available to users |
| LinkGraph.CodeLibrary.Finalize | numba_cuda/numba/cuda/codegen.py:440-467 | Fails, leaving all as it was, if and only if a library is reached that was never given a module; otherwise succeeds once; everything linked to was finalized earlier |
| LinkGraph.MissedDirectlyExactly | numba_cuda/numba/cuda/codegen.py:458-465 | That library is always one linked to directly, as what a finalized library reaches has its modules |
| LinkGraph.ModuleIsMissed | numba_cuda/numba/cuda/codegen.py:458-465 | A library without a module is linked to and finalized, and its user cannot be |
| LinkGraph.CodeLibrary.AddLinkingFile | numba_cuda/numba/cuda/codegen.py:408-416 | Only external libraries refuse files once finalized; files keep reaching the users if and only if every direct user already has the file |
| LinkGraph.LateFileIsMissed | numba_cuda/numba/cuda/codegen.py:408-416 | Two libraries for which they do not |
| LinkGraph.CodeLibrary.Modules | numba_cuda/numba/cuda/codegen.py:423-427 | This library's module first, then those of everything reachable, each as often as there are ways over the links to reach it; none for external ones; the recursion terminates |
| LinkGraph.SharedModuleTwice | numba_cuda/numba/cuda/codegen.py:423-427 | A library that two others link to gives its module twice to their common user |
| LinkGraph.CodeLibrary.LinkingLibraries | numba_cuda/numba/cuda/codegen.py:429-438 | Exactly the reachable libraries, each after its own dependencies; fails if and only if an external library is reachable; the recursion terminates |
| LinkGraph.ExternalHasNoList | numba_cuda/numba/cuda/codegen.py:429-438 | Reading the list of a library that links to an external one fails |
| LinkGraph.LinksAreAcyclic | numba_cuda/numba/cuda/codegen.py:391-397 | No library reaches itself: whatever it reaches was finalized before it |
| LinkGraph.Run | numba_cuda/numba/cuda/codegen.py:385-467 | Every sequence of operations on libraries, from none at all, ends in such a state, no library reaches itself, and what a finalized library reaches has its modules |
| LinkGraph.NewLibraryJoins | numba_cuda/numba/cuda/codegen.py:157-170 | A new library joins it |
| LinkGraph.CodeLibrary.AddIrModule | numba_cuda/numba/cuda/codegen.py:385-389 | Refused once finalized and for external libraries; a second module is an error |
| LinkGraph.BelowIsLeastClosed | numba_cuda/numba/cuda/codegen.py:429-438 | What the walks visit is the smallest set that holds the links and is closed under them |
| LinkGraph.FilesReachAllUsers | numba_cuda/numba/cuda/codegen.py:391-400 | If files reach direct users they reach all users |

## Left out

- LaunchRuns.EveryLaunchHonest: sequential runs only; two threads can interleave between adding an overload and updating the sensitivity.
- LaunchDispatcher.CUDADispatcher.Call: pre-launch callbacks, the argument stack of the launch configuration and dispatchers specialized to a single signature are not modelled.
- LaunchDispatcher.CUDADispatcher.Compile: the early return of a dispatcher specialized to a single signature, the hit and miss counters, whole-file index versions, source stamps and pickling of kernels are not modelled; an entry is found by signature and launch key.
- LoweringStorage.LoweringPreservesReads: assumes that no block reads a block-local variable after deleting it, which LoweringExactness.WholeRunsAgreeExactly shows to be necessary wherever a run comes to such a read.
- LoweringEmitter.Lower.FindSinglyAssignedVariable: the set of variables that must use the stack is a parameter; extension statements with their own use and def functions are not modelled.
- LoweringEmitter.Lower.LowerFunctionBody: slots allocated ahead of use for deleted variables are not modelled, since a slot that is missing reads as null; generators, exceptions and the polymorphic debug unions of the CUDA subclass are not modelled.
- RefCounts.RunsStayBalanced: borrowed references inside operations are not modelled.
- MixedRefCounts.RunsStayBalanced: assumes that each block-local variable is deleted once before its block is left, as the pass that inserts deletions sees to; that pass is not modelled.
- Xoroshiro.JumpInPlace: that the jump constant is x^(2^64) modulo the characteristic polynomial of the step, so that a jump is 2^64 steps, is not proved; it needs large computed certificates.
- Xoroshiro.NextInPlace: indices outside the array, on which compiled code has no defined behaviour, are not modelled.
- ManglerProofs.SameSymbolExactly: types are what their code or mangling arguments say; the text of other values is a parameter; surrogate code points, on which the source raises, are not characters here.
- KernelFixup.Kernel.Fixup: the debug metadata of the kernel and the attribute that marks it are not modelled.
- KernelFixup.Kernel.ReplaceReturn: the metadata copied from the old return is not modelled.
- KernelFixup.FixupPreservesMeaning: debug metadata, the function attribute that marks kernels and the linkage of the helper are not modelled.
- ExceptionRecord.ReportIsOneThreads: looking up the exception class and its message is not modelled; nor are concurrent launches of one debug kernel on several streams, for which the source makes no such promise.
- Addressing.GetItemPointer: index types narrower than 64 bits are not modelled.
- Strides.ContiguousStridesLike: the two contiguity flags of the array are parameters, and the sort is a stable insertion sort.
- Broadcasting.BroadcastArguments: the host and device variants, which compute the same strides, are one; resolving the signature by dtype is not modelled.
- SignatureParser.ParseSignature: splitting the text at the arrow and into tokens is up to Python; the tokens are parameters.
- NoCopyReshape.AttemptNoCopyReshape: the F-order variant is not modelled; nothing here asks for it.
- DeviceArrays.ReshapeArray: a dimension to be inferred and reshaping to F or any order are not modelled; no launch asks for them.
- LinkGraph.CodeLibrary.AddLinkingLibrary: setup and teardown lists, the cooperative flag and referenced objects are not modelled.
- LinkGraph.CodeLibrary.AddLinkingFile: setup and teardown callbacks of linkable code are not modelled.
- LinkGraph.CodeLibrary.Modules: not in what order the modules after the first are listed, which set iteration leaves open.
- LinkGraph.CodeLibrary.Finalize: changing the linkage of functions in linked modules is not modelled.
- Floating-point code: unit-float conversion, Box-Muller, rounding helpers and complex functions rest on rounding.
- Driver, contexts, streams, memory copies, linkers, inspection tools and import redirection are input and output or environment.
- Emission wrappers (printf, intrinsics, inline assembly, debug-info builders, data-model proxies) compute nothing.
- Namespace prepending of mangled names, launch-dimension normalization, ceiling division of `forall`, alignment rounding and option parsing would only add easy members.
