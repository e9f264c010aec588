# Verified models of vLLM components

A Dafny model of the self-contained, algorithmic parts of a patched vLLM, with proofs of what
those parts promise. `dafny verify dfyconfig.toml` checks everything.

| files | component |
|---|---|
| `PartitionSignature`, `PartitionFlow`, `PartitionRun`, `PartitionNodes` | signatures of compiled graph partitions, and safety of running them |
| `MemoryPlan` | memory planning over nested subgraphs |
| `NinjaTarget`, `NinjaEvents`, `NinjaShares`, `NinjaSweep`, `NinjaTotals`, `NinjaLog`, `NinjaLines` | the Ninja build-log analyser |
| `ChunkPlan`, `DeviceMemory`, `CumemAllocator` | the chunked device-memory allocator (ROCm branch) |
| `BadWords` | the bad-words logits processor |
| `RateLimiter`, `RequestQueue`, `RequestOrder` | the rate limiter and the request queue of the disaggregation benchmarks |
| `Bits`, `ScalarTypeId`, `ScalarTypeMax` | scalar types: codes, registry, largest finite value |
| `FlatLogprobs`, `FlatSlices`, `OutputMerge`, `OutputNesting`, `RequestOutput` | flattened log probabilities and merging of streamed outputs |
| `ForwardContext` | chunk sizes across data- and sequence-parallel ranks |
| `Wrappers`, `Arithmetic` | shared definitions |

Code that updates state is a class or a method with loops, proved against a function of the old
state; the properties are lemmas about those functions. Exceptions and failed assertions are
results (`Option`, `Result`, an outcome), not preconditions. Times, weights and log probabilities
are exact reals. Machine integers that can wrap are reduced modulo 2^64 explicitly.

## Main results

* **Partitions.** Running the computed signatures in order, whatever a node of a partition reads or
  writes is made by that partition or alive when it runs, and every graph output is alive at the end
  (`RunIsSafe`). The hypotheses (`Scheduled`) are what the scheduler guarantees, stated on what nodes
  read, write, make and free: reads follow their producer, every name has one producer, a mutation
  happens where its real buffer is reached or made, real names are not renamed again, and a buffer
  named in `last_usage` is not used later and is no graph output. Buffers without a layout are not
  tracked. What each signature holds is stated on the nodes as well (`SignatureInputs`,
  `SignatureOutputs`). For names of real buffers the set of unmet names is the live-in set
  (`UnmetIsLiveIn`); for renamed buffers it is given exactly (`RenamedIsNeverMet`), and so is the
  input for which the pass raises `KeyError` (`KnownIff`).
* **Build log.** The weighted durations add up to the time during which something ran; that is
  at most the extent of the build, with equality exactly when no instant is idle. The busy time
  does not depend on the instants at which it is measured (`BusyOnAnyGrid`), and is the total CPU
  time exactly when no two steps run at once (`TotalAgainstBusy`). The reader's targets are given on
  the fields of the log lines (`ReadTargets`).
* **Allocator.** For every pattern of driver failures, a failed create or map leaves live handles
  and mappings as they were, provided no roll-back call fails; chunks tile the range; unmapping
  undoes mapping over any number of cycles. What an unmap with failing calls leaves behind is
  given exactly. A request the driver can never grant (a map over mapped addresses, access to a
  range that is not all mapped) is not made when the range was free and the chunks fill it.
* **Bad words.** The local mask keeps every bad word out of every generated output, and touches
  no token that does not complete one. A call is specified for every vocabulary size.
* **Rate limiter.** At most rate·(1+T) grants after time T, at most 2·rate in a one-second window;
  the exact number of grants in a window is given, and the window bound is reached.
* **Request queue.** FIFO, size, mutual exclusion and permit conservation for every interleaving. Seen
  from outside, tasks are awaited in the order in which they were submitted (`AwaitedInOrder`), and
  consumers end exactly by exceptions (`ExceptionsEndConsumers`).
* **Scalar types.** The code is exact in both directions, and the registry gives back every type as
  long as no two collide; the double built for a format is its largest finite value.
* **Log probabilities and outputs.** Every run of container operations denotes the same run on a
  list of dictionaries, and what `[start:stop:step]` selects is given on the bounds as written; a folded stream of outputs is the per-index concatenation, for any
  outputs, also with repeated indices (`StreamOfOutputs`, `GroupsAre`); `add` is associative
  exactly under a condition on the three inputs (`Associative`). The in-place `add` is specified
  for outputs that share completion objects as well (`AddOutput`).

## Where the code and its description differ

The model follows the code.

* A wrapped rounding sum: an aligned chunk size can become 0 (then the division has no result),
  and the number of chunks can become 0 (`ChunksTile`, `PlanChunks`, `LargestChunkSizeAlignsToZero`,
  `HugeChunkSizeMapsNothing`).
* A pending `error_code` makes `create_and_map` stop after its first create call and keep that
  handle; a failed `cuMemSetAccess` leaves everything mapped (`CreateAndMap`).
* The warning of the log analyser is described as half a second; the threshold is 500 seconds
  (`WarningMeansIdle`). Its `earliest` is wrong with negative starts (`EarliestSeenIsEarliest`,
  `NegativeStartIsLost`).
* The rate limit is not a limit on every one-second window (`WindowBoundIsTight`), and a coroutine
  that wakes exactly on time is refused again (`WakingOnTimeIsTooEarly`).
* `max_concurrent` has no effect, because the lock is held across the await (`OneTaskAtATime`).
  Two or more consumers can pop the empty queue (`PopsEmptyIffManyConsumers`).
* Returned names are renamed before they are taken out of the unmet names, so a renamed buffer is
  never met: it is unmet wherever it is a graph output or freed later, even before the partition
  that makes it (`RenamedIsNeverMet`, `RenamedOutputStaysUnmet`).
* The lookup of returned names raises `KeyError` exactly when some partition makes a renamed buffer
  whose real name has no node, and that buffer is a graph output or freed by a later partition
  (`KnownIff`); a mutated tensor constant is such a buffer (`MutatedConstantIsUnknown`). A comment
  there speaks of weak dependencies; the code only filters by layout.
* Memory planning accepts some unbalanced line lists (`PlannableNeedNotBeBalanced`).
* A reverse slice of two or more positions of flat log probabilities reads back wrong unless all of
  them are empty (`SliceReadsAsList`, `ReversedPairIsLost`); an empty slice raises (`RunDenotes`).
* Merging outputs is not associative when log probabilities come and go (`Associative`,
  `MixedLogprobs`), or when the second output repeats an index (`RepeatedIndexReorders`).
* The bad-words bias is cached for the first call's vocabulary: a later call with another size adds
  it by broadcasting or raises (`Call`).
* With one exponent bit and IEEE conventions the maximum is too large (`MaxIsLargest`,
  `SmallestIeeeFormat`). A type without mantissa bits whose top encoding is NaN, like
  `float8_e8m0fnu`, has no maximum: packing it raises (`MaxFields`, `NoMantissaHasNoMaximum`).

## Model

| member | source | states |
|---|---|---|
| `PartitionSignature.MergeNodes` | vllm/env_override.py:142-174 | the loops over the nodes of a partition collect exactly the union of their outputs, reads and writes, and last usages |
| `PartitionSignature.SignPartition` | vllm/env_override.py:142-238 | one iteration of the backward loop computes the signature of its partition and advances the unmet names; it succeeds exactly when every returned name has a node |
| `PartitionSignature.GetGraphPartitionSignature` | vllm/env_override.py:102-240 | the whole pass: `KeyError` exactly when some returned name has no node, otherwise the signatures of the backward liveness equations, zipped from the ends of the two lists |
| `PartitionFlow.PartitionKeepsNeeded` | vllm/env_override.py:201-238 | one partition, run on its signature, keeps every buffer alive that exists and is still needed |
| `PartitionFlow.NewBufferIsReturned` | vllm/env_override.py:147-211 | a buffer that a partition makes and that is needed later is among its returned names, up to renaming |
| `PartitionRun.RunKeepsNeeded` | vllm/env_override.py:116-240 | the invariant of whole runs: at every position, what has been made and is still needed is alive |
| `PartitionRun.SignaturesAreSafe` | vllm/env_override.py:116-240 | in every run every partition finds the inputs and constants of its signature alive, and every graph output is alive at the end |
| `PartitionRun.UnmetIsLiveIn` | vllm/env_override.py:236-238 | for the name of a real buffer `unmet_output_names` is the live-in set: used at some later position and not made before it; mutations are allowed |
| `PartitionRun.RenamedIsNeverMet` | vllm/env_override.py:209-238 | a renamed buffer is unmet exactly when it is a graph output or freed from here on by a partition that does not make it: it is never taken out |
| `PartitionRun.RenamedOutputStaysUnmet` | vllm/env_override.py:209-238 | a graph output made by the second of two partitions is unmet before the first, where it is not live |
| `PartitionRun.FreedInputNotReturned` | vllm/env_override.py:191-217 | without mutations a partition returns no input that it deallocates |
| `PartitionRun.FreedInputNotReturnedInRun` | vllm/env_override.py:191-217 | with mutations the same holds for real buffers that are not used after they are freed |
| `PartitionRun.KnownIff` | vllm/env_override.py:209-217 | when partition outputs have nodes: no `KeyError` exactly when no partition makes a renamed buffer, whose real name has no node and is not hidden, that is a graph output or freed by a later partition |
| `PartitionRun.RealNamesAreKnown` | vllm/env_override.py:209-217 | so there is no `KeyError` when every node's real name has a node or is hidden |
| `PartitionRun.MutatedConstantIsUnknown` | vllm/env_override.py:209-217 | a mutated tensor constant as graph output makes the lookup fail |
| `PartitionNodes.LayoutIsHidden` | vllm/env_override.py:122-140 | a buffer is hidden exactly when it has no layout, and for a mutation output of a real buffer when that one has none either |
| `PartitionNodes.InputsAreReached` | vllm/env_override.py:154-188 | a partition's inputs are the real names of what its nodes read or write, visible and not made there, and what they free and do not make |
| `PartitionNodes.SignatureInputs` | vllm/env_override.py:154-232 | for every signature of the pass, on the fields of its nodes: exactly which names are input nodes and constants, which inputs are marked for deallocation, and which flag it has |
| `PartitionNodes.SignatureOutputs` | vllm/env_override.py:147-232 | for every signature: exactly the visible real names of what the nodes make and is needed later, or reach and do not free |
| `PartitionNodes.UnmetIsNeeded` | vllm/env_override.py:236-238 | for every tracked name `unmet_output_names` is what the later nodes and the graph outputs need |
| `PartitionNodes.ScheduledIsWellFormed` | vllm/env_override.py:116-240 | what the scheduler guarantees of nodes makes the data flow of the partitions well-formed |
| `PartitionNodes.RunIsSafe` | vllm/env_override.py:116-240 | in every run, whatever a node reads or writes is made by its own partition or its real buffer is alive when the partition runs, and every graph output is alive at the end |
| `MemoryPlan.OwnerIsInnermost` | vllm/env_override.py:79-89 | the planning state assigned to a position is that of the innermost subgraph still open there |
| `MemoryPlan.PlannedByInnermost` | vllm/env_override.py:81-83 | in a planned list every memory line has the state of the innermost subgraph open there, and every other line is as it was |
| `MemoryPlan.TrimmedTail` | vllm/env_override.py:70-76 | trimming removes the longest tail of planning lines for buffers that are no outputs: no other line, and none of an output buffer |
| `MemoryPlan.BalancedIsPlannable` | vllm/env_override.py:70-90 | a bracket-balanced list stays balanced when trimmed and is planned without error |
| `MemoryPlan.PlannableNeedNotBeBalanced` | vllm/env_override.py:79-90 | the stack discipline that the code checks is weaker than balance |
| `MemoryPlan.StackStep` | vllm/env_override.py:81-88 | each line keeps the stack equal to the chain of enclosing subgraphs, its height one plus the nesting depth |
| `MemoryPlan.PythonWrapperCodegen.TrimLines` | vllm/env_override.py:70-76 | the popping loop trims the list in place |
| `MemoryPlan.PythonWrapperCodegen.PlanLine` | vllm/env_override.py:81-88 | one line: it fails exactly when the stack is needed and empty, otherwise the line is planned by the top of the stack and the stack follows |
| `MemoryPlan.PythonWrapperCodegen.PlanAll` | vllm/env_override.py:78-88 | the loop over the lines: it fails exactly when the stack discipline is broken, otherwise every line is planned and the stack is that of the end |
| `MemoryPlan.PythonWrapperCodegen.PlanLines` | vllm/env_override.py:78-90 | fails exactly when the stack discipline is broken, with the final assertion exactly when subgraphs stay open and an index error otherwise; on success every memory line is planned by its innermost open subgraph and nothing else changes |
| `MemoryPlan.PythonWrapperCodegen.MemoryPlanReuse` | vllm/env_override.py:70-90 | trimming and planning together |
| `NinjaEvents.SortSorts` | tools/report_build_time_ninja.py:223-228 | the events are sorted by time, then start before stop, and are a permutation of the collected ones |
| `NinjaEvents.SortedEventsAreTimeline` | tools/report_build_time_ninja.py:212-228 | the sorted list holds each step's start and stop exactly once and nothing else |
| `NinjaShares.SharesAddUp` | tools/report_build_time_ninja.py:237-255 | conservation: the weighted durations of all steps add up to the time during which at least one step runs |
| `NinjaShares.BusyOnAnyGrid` | tools/report_build_time_ninja.py:229-256 | the busy time is the same on any two grids of event times with the same extent |
| `NinjaShares.WeightedDurationBounds` | tools/report_build_time_ninja.py:74-89 | duration over peak concurrency <= weighted duration <= duration |
| `NinjaShares.WeightedAtMostDuration` | tools/report_build_time_ninja.py:84-89 | the assertion in `WeightedDuration` cannot fail |
| `NinjaShares.BusyIsExtentIffNeverIdle` | tools/report_build_time_ninja.py:229-256 | the busy time is the whole extent exactly when no instant in between is idle |
| `NinjaSweep.StopOrder` | tools/report_build_time_ninja.py:224-228 | when a stop event comes, its step has started exactly when it does not end before it starts, even at equal times |
| `NinjaSweep.AllStopped` | tools/report_build_time_ninja.py:256-256 | at the end no step is left in `running_tasks` |
| `NinjaSweep.Pay` | tools/report_build_time_ninja.py:248-254 | a stopping step is paid its exact share, once |
| `NinjaSweep.Sweep` | tools/report_build_time_ninja.py:229-256 | `KeyError` exactly when a step ends before it starts; otherwise each step gets its share of every interval it runs in, and the total is the busy time |
| `NinjaSweep.SortAndSweep` | tools/report_build_time_ninja.py:223-256 | sorting and scanning: an index error without entries, `KeyError` exactly when a step ends before it starts, otherwise the scan's result on the timeline |
| `NinjaSweep.CollectEvents` | tools/report_build_time_ninja.py:207-220 | the first loop: events, `earliest`, `latest` and the total CPU time |
| `NinjaSweep.SummarizeEntries` | tools/report_build_time_ninja.py:198-265 | the whole summary: its errors, all weighted durations, length and totals, and a warning exactly when length and weighted total differ by more than 500 |
| `NinjaSweep.EarliestSeenIsEarliest` | tools/report_build_time_ninja.py:209-214 | `earliest` is the earliest start exactly when no start is negative or the last entry starts first |
| `NinjaSweep.NegativeStartIsLost` | tools/report_build_time_ninja.py:209-214 | two entries that start before zero, of which the first is earliest and the second is recorded |
| `NinjaSweep.LatestSeenIsLatest` | tools/report_build_time_ninja.py:210-216 | `latest` is the latest end exactly when some end is not negative |
| `NinjaSweep.BusyAgainstExtent` | tools/report_build_time_ninja.py:207-256 | the weighted total is at most latest - earliest, with equality exactly when no instant is idle |
| `NinjaSweep.WarningMeansIdle` | tools/report_build_time_ninja.py:258-265 | for non-negative times the warning means more than 500 seconds of idle time |
| `NinjaTotals.TotalAgainstBusy` | tools/report_build_time_ninja.py:207-256 | the total CPU time is at least the busy time, with equality exactly when no two steps run at once |
| `NinjaTotals.OverlapCosts` | tools/report_build_time_ninja.py:237-255 | a step that shares an instant with another has a weighted duration below its duration |
| `NinjaLog.BoundaryTest` | tools/report_build_time_ninja.py:124-143 | the two tests of the reader detect exactly the entries that do not belong to the build so far |
| `NinjaLog.LastBuildIsOneBuild` | tools/report_build_time_ninja.py:124-143 | in the remembered stretch end times never decrease, and lines with one hash share start and end |
| `NinjaLog.GroupsHoldEachEntryOnce` | tools/report_build_time_ninja.py:132-148 | the targets together list as many names as there are remembered lines |
| `NinjaLog.StepGroups` | tools/report_build_time_ninja.py:124-147 | reading a line keeps the targets equal to the grouping of the remembered stretch, whether it joins, starts a target or restarts |
| `NinjaLog.ReadEntry` | tools/report_build_time_ninja.py:124-147 | the dictionary and its targets are updated in place as the grouping step says |
| `NinjaLog.ReadLine` | tools/report_build_time_ninja.py:114-147 | one line: skipped, an error, or a grouping step |
| `NinjaLog.ReadLines` | tools/report_build_time_ninja.py:112-147 | the loop over the lines: an error exactly when a field is not integral, otherwise the grouping of the remembered stretch |
| `NinjaLines.EntriesMirror` | tools/report_build_time_ninja.py:114-123 | the entries are the records in order, with their names and hashes, and their times divided by 1000 |
| `NinjaLines.MemoryBegins` | tools/report_build_time_ninja.py:124-143 | where the memory begins, on the lines: everything, or a record that contradicts an earlier one and after which nothing does |
| `NinjaLines.ReadTargets` | tools/report_build_time_ninja.py:104-148 | errors for a wrong header or a non-integral field; otherwise one new target for each distinct hash of the remembered records, in order of first appearance, whose times are those of its first record over 1000 and which lists exactly the names of its records in order |
| `ChunkPlan.MemcreateChunkSize` | csrc/cumem_allocator.cpp:24-42 | a positive number of megabytes that fits 64 bits: the configured one where it is valid, else 256 MB |
| `ChunkPlan.AlignUpIsLeastMultiple` | csrc/cumem_allocator.cpp:290-290 | the aligned size is the least multiple of the granularity that holds the size, unless the sum wraps, when it is 0 |
| `ChunkPlan.AlignUpCovers` | csrc/cumem_allocator.cpp:290-290 | the aligned size is at least the size exactly when the sum does not wrap |
| `ChunkPlan.NumChunksIsCeiling` | csrc/cumem_allocator.cpp:318-319 | the number of chunks is the rounded-up quotient, or 0 when the sum wraps |
| `ChunkPlan.ChunkAtValue` | csrc/cumem_allocator.cpp:337-339 | before the last chunk the subtraction does not underflow: a full chunk, then the rest |
| `ChunkPlan.ChunksTile` | csrc/cumem_allocator.cpp:315-340 | the chunk sizes are positive multiples of the granularity, full except the last, and add up to the aligned size, exactly when no sum wraps |
| `ChunkPlan.PlanChunks` | csrc/cumem_allocator.cpp:290-340 | the chunk computation of `my_malloc`: division by zero exactly when the chunk size wraps, otherwise the chunks |
| `ChunkPlan.LargestChunkSizeAlignsToZero` | csrc/cumem_allocator.cpp:36-41 | the largest value that passes the parser's guard aligns to 0 at 2 MB granularity |
| `ChunkPlan.HugeChunkSizeMapsNothing` | csrc/cumem_allocator.cpp:290-319 | a configured chunk size that passes the parser and aligns to itself, with which four megabytes are split into no chunk at all |
| `DeviceMemory.RangesTile` | csrc/cumem_allocator.cpp:131-150 | every address of the range lies in exactly one mapped chunk |
| `DeviceMemory.CreateThenRelease` | csrc/cumem_allocator.cpp:121-130 | releasing fresh handles undoes creating them |
| `DeviceMemory.MapThenUnmap` | csrc/cumem_allocator.cpp:131-146 | unmapping the chunk addresses undoes mapping them |
| `DeviceMemory.UnmapUndoesMap` | csrc/cumem_allocator.cpp:187-208 | a successful unmap after a successful map restores handles and mappings |
| `DeviceMemory.CyclesRestore` | csrc/cumem_allocator.cpp:95-210 | any number of map and unmap cycles, each with its own handles, restores the memory |
| `CumemAllocator.Allocator.EnsureContext` | csrc/cumem_allocator.cpp:85-93 | afterwards an error is pending exactly when one was before or a call reported one, and without one there is a context |
| `CumemAllocator.Allocator.RollBackHandles` | csrc/cumem_allocator.cpp:124-128 | releases each of the given live handles, and none twice |
| `CumemAllocator.Allocator.RollBackMappings` | csrc/cumem_allocator.cpp:136-142 | unmaps each mapped chunk at its own address, and none twice |
| `CumemAllocator.Allocator.CreateHandles` | csrc/cumem_allocator.cpp:121-130 | one distinct fresh handle per chunk, or none left; with a pending error the first handle stays |
| `CumemAllocator.Allocator.MapChunks` | csrc/cumem_allocator.cpp:131-150 | every chunk mapped at its place, or nothing mapped and every handle released |
| `CumemAllocator.Allocator.MapAndGrant` | csrc/cumem_allocator.cpp:131-164 | the second half: every chunk mapped and access granted to a range that is all mapped, or the exact state after a failed map or a failed access call |
| `CumemAllocator.Allocator.CreateAndMap` | csrc/cumem_allocator.cpp:95-164 | all-or-nothing for every pattern of failures; complete exactly when no error was pending and no call reported one, and then all of the range is mapped and accessible; on a free range that the chunks fill no request is impossible; the exact state for a pending error and for a failed access call |
| `CumemAllocator.NextIsMappable` | csrc/cumem_allocator.cpp:131-149 | with the range free and a handle per chunk, the next chunk never overlaps what is mapped |
| `CumemAllocator.OverlapIsShared` | csrc/cumem_allocator.cpp:131-146 | a range overlaps what is mapped exactly when they share an address |
| `CumemAllocator.ChunksBack` | csrc/cumem_allocator.cpp:131-150 | chunks mapped one after another back every address of the range |
| `CumemAllocator.MappedChunksAreThere` | csrc/cumem_allocator.cpp:187-204 | what was mapped is there to be unmapped and released, and no handle occurs twice |
| `CumemAllocator.Allocator.UnmapAndRelease` | csrc/cumem_allocator.cpp:166-210 | every unmap and release is attempted at the right address and handle, the first error is reported, nothing that is not there is unmapped or released; exactly the mappings and handles whose call succeeded are gone, for every pattern of failures |
| `CumemAllocator.FirstErrorOfBoth` | csrc/cumem_allocator.cpp:188-208 | the first error of the two loops in order is that of the first, unless it has none |
| `BadWords.CompletesIffEndsAt` | vllm/logits_process.py:66-83 | the prefix test holds for the next token exactly when choosing it makes the word appear at the end |
| `BadWords.MaskedIsNegInf` | vllm/logits_process.py:81-85 | a token that completes a bad word is never above minus infinity, and is minus infinity exactly when its logit was finite or minus infinity |
| `BadWords.NoBadWordIsGenerated` | vllm/logits_process.py:56-104 | no bad word appears contiguously in an output whose tokens were all chosen above minus infinity |
| `BadWords.CleanOutputIsUntouched` | vllm/logits_process.py:56-104 | along an output without bad words every chosen token keeps exactly its logit |
| `BadWords.SingleOrLong` | vllm/logits_process.py:66-68 | the two biases together cover exactly the tokens that complete a word |
| `BadWords.NoBadWordsLogitsProcessor.CheckTokenIdsBounds` | vllm/logits_process.py:106-121 | lists exactly the token ids out of range, position by position in order |
| `BadWords.NoBadWordsLogitsProcessor.InitWordBias` | vllm/logits_process.py:89-104 | the cached bias is minus infinity exactly at the single-token words; nothing is cached when an id is out of range |
| `BadWords.NoBadWordsLogitsProcessor.AddWord` | vllm/logits_process.py:73-83 | one word of the loop: raises exactly when its last token is no index of the logits or there is none, otherwise the bias accounts for the word as well |
| `BadWords.NoBadWordsLogitsProcessor.LastTokenBias` | vllm/logits_process.py:64-83 | the bias is minus infinity exactly at the tokens that complete a longer word; it raises exactly when a word is empty or a last token is out of range |
| `BadWords.RaisesWhen` | vllm/logits_process.py:66-83 | words within the vocabulary raise exactly when one is empty; a last token out of range raises once the past is long enough |
| `BadWords.NoBadWordsLogitsProcessor.Call` | vllm/logits_process.py:56-87 | every call, whatever the vocabulary size: `ValueError` for the first call's bad ids, `IndexError` and the broadcasting error exactly when they occur, otherwise token by token the logit, or minus infinity added to it |
| `BadWords.SameVocabulary` | vllm/logits_process.py:85-87 | with the cached bias's vocabulary the result is the mask |
| `RateLimiter.Limiter.TryAcquire` | benchmarks/disagg_benchmarks/rate_limiter.py:17-36 | one turn of the loop under the lock: grant, new state and wait time |
| `RateLimiter.TokensInRange` | benchmarks/disagg_benchmarks/rate_limiter.py:11-36 | the available tokens stay in 0..rate in every run |
| `RateLimiter.WaitTimesAreNonNegative` | benchmarks/disagg_benchmarks/rate_limiter.py:34-36 | every computed wait time is non-negative in every run exactly when the rate is positive |
| `RateLimiter.WakingOnTimeIsTooEarly` | benchmarks/disagg_benchmarks/rate_limiter.py:24-36 | after a refusal the next attempt is granted exactly when it comes later than the wait time |
| `RateLimiter.Ledger` | benchmarks/disagg_benchmarks/rate_limiter.py:17-36 | grants plus tokens left never exceed the rate times one plus the refills, which are more than a second apart |
| `RateLimiter.RateBound` | benchmarks/disagg_benchmarks/rate_limiter.py:17-36 | at most rate * (1 + T) grants after time T |
| `RateLimiter.WindowGrants` | benchmarks/disagg_benchmarks/rate_limiter.py:17-36 | the exact number of grants in a window of at most a second, which holds at most one refill |
| `RateLimiter.WindowBound` | benchmarks/disagg_benchmarks/rate_limiter.py:17-36 | a one-second window holds at most twice the rate |
| `RateLimiter.WindowBoundIsTight` | benchmarks/disagg_benchmarks/rate_limiter.py:17-36 | for every rate some run grants twice the rate within a second |
| `RequestQueue.StepIsSafe` | benchmarks/disagg_benchmarks/request_queue.py:21-39 | every step of every coroutine keeps the invariant: FIFO, size, mutual exclusion, waiters, permits, and that the task that runs is the one popped last |
| `RequestQueue.RunIsSafe` | benchmarks/disagg_benchmarks/request_queue.py:11-39 | every interleaving of any number of coroutines keeps it: accepted tasks are the popped ones followed by the queue, and the size is kept within its maximum |
| `RequestQueue.OneTaskAtATime` | benchmarks/disagg_benchmarks/request_queue.py:33-38 | at most one task runs at a time, whatever `max_concurrent` is |
| `RequestOrder.AwaitedIsPopped` | benchmarks/disagg_benchmarks/request_queue.py:35-38 | along every run the tasks that begin to run are the popped ones, in order |
| `RequestOrder.AwaitedInOrder` | benchmarks/disagg_benchmarks/request_queue.py:21-39 | in every run the awaited tasks are a subsequence of the tasks that `enqueue` was called with, in that order and each no more often; what was accepted is what was awaited followed by the queue |
| `RequestOrder.ExceptionsEndConsumers` | benchmarks/disagg_benchmarks/request_queue.py:31-39 | in every run the consumers that have ended are as many as the failed pops and the tasks that raised, and they stay ended |
| `RequestQueue.TwoConsumersCanFail` | benchmarks/disagg_benchmarks/request_queue.py:33-38 | two consumers that saw the same task: one of them pops the empty queue |
| `RequestQueue.PopsEmptyIffManyConsumers` | benchmarks/disagg_benchmarks/request_queue.py:31-39 | some run pops the empty queue exactly when there are two or more consumers, a permit and room for a task |
| `ScalarTypeId.OrAndAdvance` | vllm/scalar_type.py:146-151 | masking, shifting and or-ing adds the field, reduced to its width, above the bits taken so far |
| `ScalarTypeId.PackFields` | vllm/scalar_type.py:137-164 | the code is the number with the six fields as digits, and fits 58 bits |
| `ScalarTypeId.IdFields` | vllm/scalar_type.py:137-164 | the code as an explicit sum: where each field begins, and how the NaN representations are numbered |
| `ScalarTypeId.UnpackId` | csrc/core/scalar_type.hpp:142-157 | the C++ decoder gives back the type with its fields cut to their widths |
| `ScalarTypeId.RoundTrips` | csrc/core/scalar_type.hpp:124-157 | a type decodes to itself exactly when its fields fit, and every decodable 58-bit number is the code of what it decodes to |
| `ScalarTypeId.IdsCollide` | vllm/scalar_type.py:137-164 | two types share a code exactly when they agree after cutting, so the code is injective on types that fit |
| `ScalarTypeId.Registry.Id` | vllm/scalar_type.py:137-164 | computing the code registers the type: the map stays that of all types so far |
| `ScalarTypeId.Registry.FromId` | vllm/scalar_type.py:308-312 | `ValueError` exactly when no type so far has the code, otherwise the last one that has it; every type so far when no two collide, as when all fit |
| `ScalarTypeId.Registry.Int` | vllm/scalar_type.py:266-271 | a signed integer type of the given size with the sign bit counted, registered |
| `ScalarTypeId.Registry.Uint` | vllm/scalar_type.py:273-278 | an unsigned integer type of the given size, registered |
| `ScalarTypeId.Registry.FloatIeee754` | vllm/scalar_type.py:280-289 | exactly for positive widths a signed float type whose size is exponent, mantissa and sign together, registered; otherwise nothing changes |
| `ScalarTypeId.Registry.Float` | vllm/scalar_type.py:291-306 | the same with another NaN representation than that of IEEE 754, which is refused |
| `ScalarTypeId.MapKeys` | vllm/scalar_type.py:162-164 | after any sequence of computations a code is in the map exactly when some type had it, and maps to the last one |
| `ScalarTypeId.FromIdInverts` | vllm/scalar_type.py:137-164 | after any sequence of computations `from_id` gives back every type exactly when no two of them collide, as when all fit |
| `ScalarTypeMax.MaxFields` | vllm/scalar_type.py:71-105 | for every type: there is a maximum exactly when the format fits a double and the largest mantissa is not negative, and which fields the bits then hold |
| `ScalarTypeMax.MaxBits` | vllm/scalar_type.py:71-105 | the value that the returned bits stand for as an IEEE double, with and without a sign bit |
| `ScalarTypeMax.Ordered` | vllm/scalar_type.py:71-101 | the values of a format's encodings are ordered by exponent field, then mantissa field |
| `ScalarTypeMax.MaxIsLargest` | vllm/scalar_type.py:71-105 | for every type that has a maximum: the double is finite, and is the largest value over all finite encodings exactly unless the format is IEEE with one exponent bit |
| `ScalarTypeMax.MinIsNegated` | vllm/scalar_type.py:116-125 | for every type: the raw minimum exists exactly for signed types with a maximum, and is its exact negation |
| `ScalarTypeMax.NoMantissaHasNoMaximum` | vllm/scalar_type.py:71-105 | the type with eight exponent bits and no mantissa: packing the bits raises |
| `ScalarTypeMax.SmallestIeeeFormat` | vllm/scalar_type.py:71-105 | one exponent and one mantissa bit: 1.5 instead of 1 |
| `FlatLogprobs.GetItem` | vllm/logprobs.py:110-120 | reading a position, counted from either end, gives the dictionary there, or raises exactly when there is none |
| `FlatLogprobs.ReadDenotes` | vllm/logprobs.py:112-120 | a read gives the dictionary that the container stands for there; of duplicate token ids the last wins |
| `FlatLogprobs.DictOfMapsToLast` | vllm/logprobs.py:112-120 | a dictionary built from items has exactly their tokens, each with the data of its last item |
| `FlatLogprobs.AppendedDenotes` | vllm/logprobs.py:63-93 | appending a position denotes appending its dictionary, and keeps the container valid |
| `FlatLogprobs.ExtendedDenotes` | vllm/logprobs.py:95-98 | extending denotes appending one dictionary per position, with none read as empty |
| `FlatLogprobs.FlatLogprobs.Append` | vllm/logprobs.py:63-72 | the six lists grow by exactly the new position |
| `FlatLogprobs.FlatLogprobs.AppendFast` | vllm/logprobs.py:74-93 | the same from four lists, stopping with the shortest |
| `FlatLogprobs.FlatLogprobs.Extend` | vllm/logprobs.py:95-98 | the same position by position |
| `FlatLogprobs.SliceDenotes` | vllm/logprobs.py:121-133 | a slice at increasing positions denotes the same selection of the list |
| `FlatLogprobs.SelectedIsMonotone` | vllm/logprobs.py:121-123 | Python's slice positions increase for a positive step and decrease for a negative one |
| `FlatSlices.NegativeBoundCountsFromEnd` | vllm/logprobs.py:121-123 | a negative bound within the list selects what that bound plus the length selects |
| `FlatSlices.BoundBeyondEnd` | vllm/logprobs.py:121-123 | a bound beyond the end that a slice runs to, or comes from, selects what no bound selects |
| `FlatSlices.BoundBeyondOtherEnd` | vllm/logprobs.py:121-123 | starting beyond the far end, or stopping before the near one, selects nothing |
| `FlatSlices.ForwardSlice` | vllm/logprobs.py:121-123 | for bounds within the list and a positive step, a position is selected exactly when it lies from the start up to the stop and is whole steps away from the start |
| `FlatSlices.BackwardSlice` | vllm/logprobs.py:121-123 | the mirror image for a negative step |
| `FlatSlices.LastPositions` | vllm/v1/engine/output_processor.py:321-321 | `[-n:]` selects the last `n` positions in order, and all of them when there are fewer or `n` is 0 |
| `FlatSlices.LastPositionsDenote` | vllm/logprobs.py:121-133 | so `[-n:]` of the container denotes the end of the list of dictionaries |
| `FlatLogprobs.SliceReadsAsList` | vllm/logprobs.py:121-133 | for every start, stop and step, exactly when a non-empty slice reads like the slice of the list |
| `FlatLogprobs.ReversedPairIsLost` | vllm/logprobs.py:121-133 | two positions of one entry each, reversed: the flat lists come out empty and cannot be read back |
| `FlatLogprobs.RunDenotes` | vllm/logprobs.py:63-152 | every run of appends, extensions and forward slices denotes the run on a list of dictionaries, and raises exactly when it takes an empty slice |
| `FlatLogprobs.ZipEntries` | vllm/logprobs.py:184-191 | the entries of a new position: as many as the shortest list has, the sampled token first with its rank, then the top tokens with ranks from 1, with the other columns from the arguments |
| `FlatLogprobs.AppendForNextPosition` | vllm/logprobs.py:175-193 | the flat branch: the new last position holds exactly those entries, cell by cell |
| `FlatLogprobs.AppendToList` | vllm/logprobs.py:184-206 | the list branch: the list grows by a dictionary in which each token has the data of its last such entry; it is what the flat branch's container denotes |
| `OutputMerge.JoinOne` | vllm/outputs.py:155-168 | merging one more completion is joining it to those that arrived, and the assertion fails exactly when log probabilities appear after a first completion without |
| `OutputMerge.StreamCombinesGroups` | vllm/outputs.py:152-174 | merging any stream of completions into any outputs: each output becomes the concatenation of its group with the last closing fields, or the latest of its group without aggregation; with aggregation it fails exactly when some group begins without log probabilities and goes on with some |
| `OutputMerge.GroupsList` | vllm/outputs.py:152-174 | the outputs keep their order, followed by the new indices in order of first appearance |
| `OutputMerge.GroupsAre` | vllm/outputs.py:152-174 | what the groups are: at the first position of an index, the output that was there and everything that arrived for the index, in order; at later positions of the index only the output that was there |
| `OutputMerge.UniformStreamIsFine` | vllm/outputs.py:161-163 | uniform log probabilities never fail the assertion |
| `OutputNesting.JoinNested` | vllm/outputs.py:155-168 | joining what was joined before is joining everything |
| `OutputNesting.OnlyOfBoth` | vllm/outputs.py:152-174 | what merging two outputs leaves for an index: what arrived is joined to the first completion with it, the others stay |
| `OutputNesting.NestedGroups` | vllm/outputs.py:152-174 | merging what was merged before fails exactly when merging everything does, and is the same exactly when the later completions of an index repeated in the first piece commute with those that arrive |
| `RequestOutput.StreamOfOutputs` | vllm/outputs.py:146-174 | a fold of `add` over any outputs, with or without aggregation: per-index concatenation or latest, `finished` the disjunction, the last transfer parameters, and exactly when it fails |
| `RequestOutput.Associative` | vllm/outputs.py:146-174 | for all outputs: the two groupings of `add` agree exactly when merging all three fails, or the later two can be merged and no index repeated in the second has completions that do not commute with the third's |
| `RequestOutput.UniformIsAssociative` | vllm/outputs.py:146-174 | with uniform log probabilities both groupings succeed, and agree exactly under the second half of that condition, as when the second output repeats no index |
| `RequestOutput.MixedLogprobs` | vllm/outputs.py:161-163 | a mixed stream on which the groupings differ |
| `RequestOutput.RepeatedIndexReorders` | vllm/outputs.py:152-174 | an index that occurs twice in the second output: the texts come out in different orders |
| `RequestOutput.UnsharedIsValue` | vllm/outputs.py:152-174 | when no completion object occurs twice, merging objects is merging what they hold, and no object outside is touched |
| `RequestOutput.CompletionOutput.Merge` | vllm/outputs.py:155-168 | the in-place merge of one completion, which may be the same object, including what a failed assertion leaves behind |
| `RequestOutput.RequestOutput.AddCompletion` | vllm/outputs.py:153-174 | one turn of the outer loop on objects: merges into the first completion with the index, replaces it, or appends, with every object's contents given, shared or not |
| `RequestOutput.RequestOutput.AddEach` | vllm/outputs.py:152-174 | the outer loop on objects |
| `RequestOutput.RequestOutput.AddOutput` | vllm/outputs.py:146-174 | `add` in place, for outputs that may share completion objects: all contents afterwards; without sharing it is the merge on values |
| `ForwardContext.SpPiecesCover` | vllm/forward_context.py:58-66 | all pieces together cover all tokens, with less than one token of padding per piece |
| `ForwardContext.RankPieces` | vllm/forward_context.py:58-66 | the pieces of each rank are equal and cover its tokens with less than `sp_size` of padding |
| `ForwardContext.CuTokensOfPiece` | vllm/forward_context.py:175-180 | where each piece of each rank ends in the running sums: after the earlier ranks, each rounded up to a multiple of `sp_size`, and the earlier equal pieces of its own rank |
| `ForwardContext.CuTokensEndWithTotal` | vllm/forward_context.py:175-180 | the last running sum is all tokens, rounded up rank by rank |
| `ForwardContext.ComputeChunkedLocalNumTokens` | vllm/forward_context.py:69-84 | every rank gets between 1 and the maximum in every chunk: its remaining tokens, or 1 when it is done |
| `ForwardContext.ChunksConserveTokens` | vllm/forward_context.py:78-84 | over any number of chunks a rank is given its own tokens as far as they go, plus one for each chunk after it is done |

## Left out

- PartitionSignature.GetGraphPartitionSignature: names are sets, so the order of names within a signature is not modelled; `symbol_inputs` is left out, because it is computed by code that is not part of this model; the renaming is assumed to reach a real name in one step.
- CumemAllocator.Allocator.CreateAndMap: a driver call that reports an error is assumed to have no effect; the loop counters are not 32 bits wide.
- RateLimiter.Limiter.TryAcquire: the asyncio lock is modelled as atomicity of one turn of the loop; sleeping is a choice of the next attempt's time.
- RequestQueue.StepIsSafe: cancellation of coroutines is not modelled.
- ScalarTypeMax.MaxIsLargest: which encodings are finite is decided by the NaN representation alone.
- RequestOutput.RequestOutput.AddOutput: the lists inside completions are values, so sharing of those list objects between completions is not modelled.
- FlatLogprobs.RunDenotes: covers slices with positive step; `SliceReadsAsList` covers the others.
- `should_partition_patched`, the wiring of the patches and `get_output_names` of the wrapper: queries on classes that are not part of this model.
- The CUDA-only branch, the Python callbacks, host-side `malloc` failures and `my_free` of the allocator.
- `GetExtension`, grouping by extension and printing in the log analyser: string formatting.
- The tokenizer part of the bad-words module, which only prepares the token lists.
- `min` and `max` of integer scalar types, `is_ieee_754`, `has_nans` and the type names: easy members, or comparisons that do not follow their description.
- The context managers of the forward context, which set and reset fields.
- Rounding of floating-point numbers.
- Kernels, benchmarks, serving, configuration and logging code.
