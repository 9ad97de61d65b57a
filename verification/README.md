# A model of the persistent-memory kernels

The suite measures persistent memory with small kernels: register loops that store, write back, fence and
follow pointers. A measurement compares two such loops, or relies on a data structure that the loop itself
keeps overwriting. This project models those kernels as imperative Dafny and proves what the comparisons take
for granted.

Lines are 64 bytes long; of each line the low 64-bit word is tracked, because that is the part the kernels set.
A kernel drives a `Machine`, which holds the memory and the stream of loads, stores, write-backs and fences
issued so far. Every counted assembly loop tests its bound at the bottom, so it runs at least once; `Loops.Trips`
is its trip count. Kernels that differ in the access macro only are one method with the macro as a parameter.

| file | models |
|---|---|
| Memory.dfy | lines, access streams, what a stream leaves in memory, when order does not matter |
| Loops.dfy | bottom-tested loops and their trip counts, strided block addresses |
| Words.dfy | the number a 64-bit word stands for, and its halves |
| Finite.dfy | counting: permutations, missing values, repeated values |
| Persistence.dfy | the state of a line between a store and a fence, and the words a power failure may leave in it |
| CacheFence.dfy | `cachefence` as a persistency state machine with a crash after any instruction |
| ChasingIndex.dfy | `get_rand`, `init_chasing_index` |
| Chasing.dfy, ChasingExactly.dfy | `chasing_storeclwb`, `chasing_loadnt`; when the loads retrace the stores |
| Stride.dfy | `stride_*`, `stride_read_after_write`, `seq_*` and the access macros |
| Durability.dfy | power failures in the storing kernels of Stride.dfy and Chasing.dfy |
| Streams.dfy | every instruction of every stream at its place, and what is durable when the combined kernel streams a line |
| Lfsr.dfy, SizeBw.dfy | `RandLFSR64`, `sizebw_*` |
| FastAlloc.dfy, AllocRuns.dfy, AllocTable.dfy | the bump allocator, its runs, and the size of its chunk table |
| ReadAfterWrite.dfy | the jobs and tasks of read_after_write.cpp |
| RwThreads.dfy | the thread schedules of rw_sep_multithread.cpp |
| WrMixSep.dfy | `wr_mix` and `wr_sep` of fastallocate/rw_sep.cpp |
| PtrRing.dfy, LatWorker.dfy, LatThreads.dfy | the linked ring of lat.cpp, one worker, many workers |

Parameters stand for the outside world: the draws of the hardware generator (each may come up dry), the shuffle
and the lap starts of lat.cpp, the addresses at which the system places chunks, and the order in which threads
take steps. Addresses and loop counters are mathematical integers; the places where 64-bit or 32-bit arithmetic
can wrap and matter are written out (the shift by 6 of a link, the shift register, the allocator's rounding and
remaining count, the 32-bit streamed and clwb increments).

Where a natural claim fails for some arguments, it is proved exactly when it holds: the spacing of chased blocks
(`RoundTripOverRings` for whatever ring is drawn, `RoundTripExactly` for a given one), the grain of a blocked loop
(`BlockingExactly` for the lines, `ContentsExactly` and `ContentsOverMemories` for their contents), the count of
unrolled lines (`UnrollExact`), the block size of a sequential sweep (`SeqEndsExactly`, `SeqCovers`), the split of a
random run (`SplitExactly`), the store macro that survives a power failure (`DurableExactly`), the parity of a
sample count (`MixEqualsSep`), the size of a request (`ServedInsideExactly`), the place of a write in a ring unit
(`StartOfUnitExactly`).

Where the code and its labels differ, the model follows the code: `stride_nt` stores around the cache even where
the drivers call it the read phase; `clwb_nt_mixed` is an exact copy of `stride_storeclwb`; Task3 of
rw_sep_multithread.cpp prints "diff channel" but uses the buffers of one channel; lat.cpp writes `alloc_max` as the
comparison `(1 < 30)`, whose value 1 makes the size guard end every run, so the maximum size is left open here and
the code behind the guard is modelled.

## Model

| member | source | states |
|---|---|---|
| CacheFence.CacheFence | OptaneStudy/src/memaccess.c:612-651 | for every size, cache and fence argument the four nested loops terminate, every line up to the total is written once, then flushed once, then fenced, in the one order the discipline admits, and no other line is touched |
| CacheFence.DisciplineDetermines | OptaneStudy/src/memaccess.c:617-645 | the contract of the kernel leaves no choice: two disciplined streams that have written, flushed and fenced as much are the same stream |
| CacheFence.GroupSizes | OptaneStudy/src/memaccess.c:618-642 | a flush group is the fewest lines, one at least, that hold `cache` bytes, and a fence comes after the fewest such groups that hold `fence` bytes |
| CacheFence.WriteGroup | OptaneStudy/src/memaccess.c:620-630 | one flush group is written, the next lines in order, and never more than the group is unflushed |
| CacheFence.FlushGroup | OptaneStudy/src/memaccess.c:632-638 | exactly the lines written since the last flush are written back, in order |
| CacheFence.FenceGroup | OptaneStudy/src/memaccess.c:618-642 | a fence comes when everything written is flushed, one fence interval after the previous fence |
| CacheFence.DisciplineStages | OptaneStudy/src/memaccess.c:617-645 | any stream that keeps the order discipline leaves each line durable, pending, dirty or untouched according to its position, with every store and write-back issued exactly once |
| CacheFence.CrashAnywhere | OptaneStudy/src/memaccess.c:612-651 | after any prefix of the kernel and any crash: every line below the last fenced offset holds the new word, at most a flush group is unflushed and at most a fence interval unfenced, those lines hold the old word or the new one, and lines not yet written are as before |
| CacheFence.KernelAtRisk | OptaneStudy/src/memaccess.c:612-651 | so, in terms of the arguments, at every instruction less than a line more than `cache` bytes are unflushed and less than a flush group more than `fence` bytes unfenced |
| CacheFence.DisciplineSurvivors | OptaneStudy/src/memaccess.c:617-645 | exactly which words a crash may leave in each line: the new one below the fenced offset, either one up to the written offset, the old one elsewhere |
| CacheFence.CoversSize | OptaneStudy/src/memaccess.c:640-645 | the total is the first multiple of the fence interval that covers the requested size |
| ChasingIndex.GetRand | OptaneStudy/src/memaccess.c:500-516 | the first draw that is not dry, reduced below the range, if it is among the next 32; failure after exactly 32 dry draws; and the rejection loop goes on from there |
| ChasingIndex.NextFresh | OptaneStudy/src/memaccess.c:529-533 | the rejection loop returns the first draw that the path does not visit yet |
| ChasingIndex.InitChasingIndex | OptaneStudy/src/memaccess.c:518-540 | for every supply of draws the array holds exactly the links of the path that the first fresh draws form, and the return code says whether the path is complete |
| ChasingIndex.VisitedTest | OptaneStudy/src/memaccess.c:533-533 | "entry not zero or current position" is the same as "already on the path" |
| ChasingIndex.BuildPath | OptaneStudy/src/memaccess.c:518-540 | whatever is drawn, the nodes linked so far form a simple path from 0, and success means that it visits every index |
| ChasingIndex.SingleCycle | OptaneStudy/src/memaccess.c:518-540 | on success the array is one ring through all indices; on failure it is a shorter simple path |
| ChasingIndex.EveryCycleDrawn | OptaneStudy/src/memaccess.c:518-540 | conversely every ring through all indices is the outcome of some draws |
| ChasingIndex.CycleVisitsAll | OptaneStudy/src/memaccess.c:518-540 | following the ring from 0 reaches every index at exactly one of the first csize steps |
| ChasingIndex.AcceptableDraws | OptaneStudy/src/memaccess.c:527-533 | after i links exactly csize - 1 - i values are acceptable, hence at least one |
| ChasingIndex.FairTerminates | OptaneStudy/src/memaccess.c:518-540 | under a supply that keeps drawing every index and is never dry 32 times in a row the construction terminates with success |
| Chasing.StoreBlock | OptaneStudy/src/memaccess.c:549-561 | one pass stores, at the line of each visited index, the next index, and writes the line back |
| Chasing.ChasingStoreClwb | OptaneStudy/src/memaccess.c:542-576 | the stream of stores, write-backs and fences for any size, stride and count |
| Chasing.LoadBlock | OptaneStudy/src/memaccess.c:585-595 | one pass loads the lines that the links in memory lead to, and changes nothing |
| Chasing.ChasingLoadNt | OptaneStudy/src/memaccess.c:578-609 | the stream of loads for any size, stride, count and memory |
| Streams.StoreStream | OptaneStudy/src/memaccess.c:542-576 | hop j of block i stores the next node at the line of its node and writes it back, each at its place, and a fence ends the block |
| Streams.LoadStream | OptaneStudy/src/memaccess.c:578-609 | every block is entered at its first line, and each further load goes to the line that the word just loaded names |
| Streams.ShiftOf | OptaneStudy/src/memaccess.c:554-554 | the 64-bit shift makes an index a line offset and drops its top six bits |
| Chasing.LinksSurvive | OptaneStudy/src/memaccess.c:548-570 | when the blocks coincide or lie a whole index apart, every link of every block is in memory after the stores |
| Chasing.RoundTrip | OptaneStudy/src/memaccess.c:542-609 | under that spacing the loads visit the lines of the stores, in order, for every index array and any number of hops and blocks |
| Chasing.RoundTripExactly | OptaneStudy/src/memaccess.c:542-609 | for one given ring of two or more nodes and more than one lap a block, they do so if and only if the blocks are spaced |
| ChasingExactly.RoundTripOverRings | OptaneStudy/src/memaccess.c:518-609 | for every size, number of hops, stride in whole lines and number of blocks: the loads retrace the stores over every ring of that size if and only if the blocks are spaced, or there is one node, one hop, or two hops and an upward stride |
| Chasing.LapTouchesAll | OptaneStudy/src/memaccess.c:548-561 | a pass of 64 * csize bytes touches each line of its block exactly once and returns to index 0 |
| Chasing.Chase | OptaneStudy/src/memaccess.c:518-609 | build, store and load in sequence: if the build succeeds the index is one ring, and with spaced blocks the loads retrace the stores |
| Stride.Unrolled | OptaneStudy/src/memaccess.h:49-262 | an access macro touches the next lines in order |
| Stride.Inner | OptaneStudy/src/memaccess.c:324-329 | the inner loop accesses the whole rounds that cover the size |
| Stride.StrideKernel | OptaneStudy/src/memaccess.c:281-416 | the stream of each of the four strided kernels, for any size, stride and count; the load kernel leaves the memory as it was |
| Stride.StrideLoadsOnly | OptaneStudy/src/memaccess.c:281-313 | the stream of the load kernel changes no memory |
| Streams.StrideStream | OptaneStudy/src/memaccess.c:281-416 | which instructions the stream consists of: its length, the access to each line of each block at its place, the fence after each block |
| Stride.StrideReadAfterWrite | OptaneStudy/src/memaccess.c:459-498 | the stream of the combined kernel |
| Streams.RawStream | OptaneStudy/src/memaccess.c:459-498 | block by block: every line stored and written back, a fence, the same lines streamed, a fence, each at its place |
| Streams.StreamedDurable | OptaneStudy/src/memaccess.c:469-481 | whenever a line is streamed, its cached store has been written back and fenced |
| Streams.RawPrefix | OptaneStudy/src/memaccess.c:464-492 | a run over more blocks begins with the run over fewer |
| Stride.StrideMemory | OptaneStudy/src/memaccess.c:315-416 | a storing kernel leaves its start address in every line of every block, overlapping or not, and changes no other line |
| Stride.FusionEvents | OptaneStudy/src/memaccess.c:459-498 | the combined kernel issues the same multiset of events as the two separate kernels, for all arguments, overlapping strides included |
| Stride.FusionMemory | OptaneStudy/microbenchmark/read_after_write.cpp:126-144 | raw-separate and raw-combined leave the same memory |
| Stride.UnrollExact | OptaneStudy/src/memaccess.h:49-262 | a body of two lines or more accesses the lines of the 1-line body exactly when the number of lines asked for is a positive multiple of the lines in the body |
| Stride.SeqKernel | OptaneStudy/src/memaccess.c:702-794 | the stream of the sequential kernels for all arguments with which their outer loop ends, and that it ends; `seq_load` leaves the memory as it was |
| Streams.SeqStream | OptaneStudy/src/memaccess.c:702-794 | the access to each line of each block at its place, and no fence |
| Stride.SeqEndsExactly | OptaneStudy/src/memaccess.c:702-794 | those are the positive block sizes, and any block size that takes the first block up to the end |
| Stride.SeqCovers | OptaneStudy/src/memaccess.c:702-794 | every line of the range once, in ascending order, and nothing else, exactly when the block size divides the range |
| Durability.StrideSettles | OptaneStudy/src/memaccess.c:281-416 | after every block of a kernel that writes its lines back or bypasses the cache, a power failure leaves in every line what memory holds |
| Durability.StrideCrash | OptaneStudy/src/memaccess.c:315-416 | cut off anywhere after i blocks by a power failure, such a kernel leaves its start address in every line of those blocks, overlapping or not, and that or the old word in every other line |
| Durability.DurableExactly | OptaneStudy/src/memaccess.c:315-416 | after a storing kernel has returned, a line it changed is certain to keep its new word if and only if the kernel is not `stride_store` |
| Durability.StoreSettles | OptaneStudy/src/memaccess.c:542-576 | after every block of the chasing stores, spaced or not, a power failure leaves what memory holds |
| Durability.LinksDurable | OptaneStudy/src/memaccess.c:548-570 | with spaced blocks, a power failure anywhere after i blocks leaves every link of those blocks |
| Durability.CrashRoundTrip | OptaneStudy/src/memaccess.c:542-609 | so the loads over those blocks, after the failure, still visit the lines of the stores, in order |
| Lfsr.BackStep | OptaneStudy/src/memaccess.c:46-55 | the step has a left inverse: the top tap records the dropped bit |
| Lfsr.StepBack | OptaneStudy/src/memaccess.c:46-55 | and the same function is its right inverse, so the step is a bijection of the 64-bit words |
| Lfsr.StepLinear | OptaneStudy/src/memaccess.c:46-55 | the step is linear over exclusive or |
| Lfsr.StepFixes | OptaneStudy/src/memaccess.c:46-55 | it fixes zero only, and only zero steps to zero |
| Lfsr.Recurrence | OptaneStudy/src/memaccess.c:46-61 | the bits shifted out obey the recurrence of x^64 + x^4 + x^3 + x + 1 |
| Lfsr.NeverZero | OptaneStudy/src/memaccess.c:46-55 | from a non-zero seed no state is zero |
| Lfsr.Periodic | OptaneStudy/src/memaccess.c:46-55 | from a non-zero seed the states are purely periodic with a period of at most 2^64 - 1 |
| SizeBw.RandomAccess | OptaneStudy/src/memaccess.c:121-129 | one access steps the stored seed once and touches the block at the masked state |
| SizeBw.SizeBandwidth | OptaneStudy/src/memaccess.c:57-279 | the count is rounded up to whole rounds of four; that many accesses at successive states, and the seed stepped as often; `sizebw_load` leaves the memory as it was |
| SizeBw.RoundsOf | OptaneStudy/src/memaccess.c:103-105 | the number of accesses is the count rounded up to a positive multiple of four |
| SizeBw.BodyLines | OptaneStudy/src/memaccess.c:69-72 | a block is the size rounded up to a positive multiple of 512 bytes |
| SizeBw.OffsetExactly | OptaneStudy/src/memaccess.c:54-55 | two states lead to the same offset exactly when their masked bits are equal; all bits give the mask, none give 0, and the mask is never exceeded |
| SizeBw.RandomWithin | OptaneStudy/src/memaccess.c:57-279 | every access lies between the start and the start plus the mask plus one block |
| SizeBw.RandomMemory | OptaneStudy/src/memaccess.c:112-279 | a storing variant leaves its start address in every line it visits, also where blocks overlap, and changes no other line |
| Streams.RandomStream | OptaneStudy/src/memaccess.c:57-279 | which instructions the stream consists of: the access to each line of the i-th block, at the masked state after i steps, and the fence after the block |
| SizeBw.SameLines | OptaneStudy/src/memaccess.c:57-279 | all four variants visit the same lines in the same order |
| SizeBw.SplitExactly | OptaneStudy/src/memaccess.c:103-105 | for all counts, non-positive ones included: two calls with counts a and b equal one call with a + b exactly when rounding to rounds of four loses nothing; then the stored seeds agree too |
| FastAlloc.FastAllocator.Start | OptaneStudy/src/fastalloc.cpp:10-37 | both arenas start with one empty chunk of the given capacity |
| FastAlloc.FastAllocator.Init | OptaneStudy/src/fastalloc.cpp:8-37 | `fastalloc::init` starts them with ALLOC_SIZE bytes each |
| FastAlloc.FastAllocator.InitConcurrency | OptaneStudy/src/fastalloc.cpp:39-62 | `concurrency_fastalloc::init` starts them with CONCURRENCY_ALLOC_SIZE bytes each |
| FastAlloc.FastAllocator.Alloc | OptaneStudy/src/fastalloc.cpp:64-113 | the request is served from the newest chunk of its arena, or from a new one if it does not fit; the other arena is unchanged |
| FastAlloc.FastAllocator.Free | OptaneStudy/src/fastalloc.cpp:115-122 | every DRAM chunk is given back once, in the order of opening, the DRAM cursor is cleared while its table stays, and the persistent arena is unchanged |
| AllocRuns.RunKeeps | OptaneStudy/src/fastalloc.cpp:64-113 | over every run from either init: cursor plus remaining bytes is the end of the newest chunk, and chunks, blocks and usage stay consistent |
| AllocRuns.RunSafe | OptaneStudy/src/fastalloc.cpp:64-113 | over every run all blocks are pairwise disjoint, lie inside one chunk, start at a multiple of 64 from its base and have 0 to 63 bytes to spare |
| AllocRuns.ArenasIndependent | OptaneStudy/src/fastalloc.cpp:64-113 | however persistent and DRAM calls are mixed, each arena runs as if it served its own requests alone |
| AllocRuns.CallsKeep | OptaneStudy/src/fastalloc.cpp:64-113 | over every mix of persistent and DRAM requests of up to a chunk each, new chunks apart from the old ones, both arenas keep the invariant of RunKeeps, and the chunks of the two stay apart |
| AllocRuns.CallsSafe | OptaneStudy/src/fastalloc.cpp:8-113 | for every such mix from either init each request is answered by a block of its size in lines, and all blocks of both arenas are pairwise disjoint |
| AllocTable.PairsFull | OptaneStudy/src/fastalloc.cpp:68-98 | two neighbouring chunks hold at least a line more than the capacity of the first, summed over all pairs, for either init |
| AllocTable.NextFitBound | OptaneStudy/src/fastalloc.cpp:64-113 | over every run from either init, n >= 2 chunks mean that at least floor(n / 2) * (ALLOC_SIZE + 64) bytes were asked for, less what a smaller first chunk lacks if n is even |
| AllocTable.TableSuffices | OptaneStudy/src/fastalloc.h:32-41 | after either init the 100-entry table is never exceeded, at any step, while less than 50 * (ALLOC_SIZE + 64) bytes are asked for |
| AllocTable.TableSharp | OptaneStudy/src/fastalloc.h:32-60 | and no larger limit holds: after the concurrent init some run asks for exactly that much and opens 101 chunks |
| AllocTable.NextFitTight | OptaneStudy/src/fastalloc.cpp:64-113 | the bound is attained for every m: some run opens 2m chunks for m * (ALLOC_SIZE + 64) bytes |
| AllocRuns.ServedInsideExactly | OptaneStudy/src/fastalloc.cpp:64-94 | a request below 2^64 lies inside its chunk if and only if it asks for at most ALLOC_SIZE bytes |
| AllocRuns.OversizeCorrupts | OptaneStudy/src/fastalloc.cpp:85-93 | after a request of one line too much the remaining count has wrapped, and every later request of up to a chunk is served without a new chunk, past the end of the newest one |
| AllocRuns.OversizeCollides | OptaneStudy/src/fastalloc.cpp:64-94 | that can be memory handed out before: three requests whose third block lies on the first |
| AllocRuns.FreshAfterFree | OptaneStudy/src/fastalloc.cpp:97-122 | after free the next non-empty DRAM block comes from a new chunk |
| RwThreads.InitBuffers | OptaneStudy/microbenchmark/rw_sep_multithread.cpp:174-185 | the buffers of the thread pairs do not overlap |
| RwThreads.ThreadStream | OptaneStudy/microbenchmark/rw_sep_multithread.cpp:70-144 | thread i runs the kernel of its group over its own buffer, instruction by instruction |
| RwThreads.InterleavesExactly | OptaneStudy/microbenchmark/rw_sep_multithread.cpp:217-234 | the schedules are exactly the streams whose accesses can be assigned to threads so that each thread's accesses, in order, are that thread |
| RwThreads.ScheduleIndependence | OptaneStudy/microbenchmark/rw_sep_multithread.cpp:217-234 | every interleaving of threads whose stores agree leaves the same memory |
| RwThreads.InOrder | OptaneStudy/microbenchmark/rw_sep_multithread.cpp:217-234 | every group of threads has an interleaving: one thread after the other |
| RwThreads.TasksAgree | OptaneStudy/microbenchmark/rw_sep_multithread.cpp:211-325 | any interleaving of all writers and readers (Task1) and any interleaving of the writers followed by any interleaving of the readers (Task3) leave the same memory |
| RwThreads.TaskLine | OptaneStudy/microbenchmark/rw_sep_multithread.cpp:70-144 | afterwards every accessed line of a buffer holds the address of that buffer |
| RwThreads.TaskFrame | OptaneStudy/microbenchmark/rw_sep_multithread.cpp:70-144 | and no line outside the buffers has changed |
| ReadAfterWrite.RawSeparate | OptaneStudy/microbenchmark/read_after_write.cpp:129-133 | the stream of the raw-separate job |
| ReadAfterWrite.RawCombined | OptaneStudy/microbenchmark/read_after_write.cpp:142-143 | the stream of the raw-combined job |
| ReadAfterWrite.WholeTask | OptaneStudy/microbenchmark/read_after_write.cpp:164-167 | the stream of Task1 and Task3 |
| ReadAfterWrite.ChunkTask | OptaneStudy/microbenchmark/read_after_write.cpp:192-197 | the stream of Task2 and Task4 for any grain |
| ReadAfterWrite.WholeOrder | OptaneStudy/microbenchmark/read_after_write.cpp:164-166 | the whole task finishes the first buffer, in ascending order, before it begins the second |
| ReadAfterWrite.ChunkOrder | OptaneStudy/microbenchmark/read_after_write.cpp:192-196 | the chunked task alternates: round i stores lines i * grn up to (i + 1) * grn of the first buffer, then those of the second |
| ReadAfterWrite.BlockingExactly | OptaneStudy/microbenchmark/read_after_write.cpp:184-196 | the chunked task stores the lines of the whole task, each once and in the same ascending order, exactly when the grain divides the count |
| ReadAfterWrite.ChunkMemory | OptaneStudy/microbenchmark/read_after_write.cpp:192-196 | after the chunked task line l of a buffer holds the address of its chunk, buffer + (l div grn) * grn * 64 |
| ReadAfterWrite.WholeMemory | OptaneStudy/microbenchmark/read_after_write.cpp:164-166 | after the whole task it holds the address of the buffer |
| ReadAfterWrite.ContentsExactly | OptaneStudy/microbenchmark/read_after_write.cpp:162-196 | with a grain that divides the count, the two tasks leave the same memory if and only if there is one chunk |
| ReadAfterWrite.ContentsOverMemories | OptaneStudy/microbenchmark/read_after_write.cpp:162-196 | with any grain, they leave the same memory from every initial memory if and only if the grain is the count |
| WrMixSep.WrMix | fastallocate/rw_sep.cpp:94-102 | each sampled object is written once a round, all others are unchanged |
| WrMixSep.WrSep | fastallocate/rw_sep.cpp:110-124 | the same for the samples taken two at a time |
| WrMixSep.GainedIs | fastallocate/rw_sep.cpp:99-99 | k writes add k to the low half of the field modulo 2^32 and keep the high half |
| WrMixSep.MixEqualsSep | fastallocate/rw_sep.cpp:94-124 | from the same objects both nests give the same objects if and only if the sample count is even or the extra writes wrap around |
| WrMixSep.IndicesInTable | fastallocate/rw_sep.cpp:64-85 | all sampled indices are inside the object table if and only if the command-line argument is at least 512 |
| PtrRing.TouchWithin | pm_study/microbenchmark/lat.cpp:24-52 | every write method stays within 64 bytes of its address |
| PtrRing.TouchExactly | pm_study/microbenchmark/lat.cpp:24-52 | a streaming store clears exactly its eight words, the clwb methods change one, rd none |
| PtrRing.TouchBytes | pm_study/microbenchmark/lat.cpp:10-47 | a write at pad[15] changes bytes 128 to 191 of its 256-byte unit at most |
| PtrRing.RewrittenIs | pm_study/microbenchmark/lat.cpp:24-52 | after k passages a word is as before (rd), zero (streaming), or has 10 k more in its low half modulo 2^32 and the same high half (clwb) |
| PtrRing.EveryStart | pm_study/microbenchmark/lat.cpp:175-175 | a lap can start at every unit, and where depends on the draw modulo the number of units only |
| PtrRing.TouchKeepsRing | pm_study/microbenchmark/lat.cpp:10-47 | overwriting pad[15] of any unit leaves every next pointer alone |
| PtrRing.StartOfUnitExactly | pm_study/microbenchmark/lat.cpp:157-170 | a write at the start of a unit, as calc_lat does, keeps the ring if and only if the method is rd |
| PtrRing.LapPassesOthers | pm_study/microbenchmark/lat.cpp:171-188 | a lap passes every other unit exactly once and never its start |
| PtrRing.PadHistory | pm_study/microbenchmark/lat.cpp:171-188 | at every step each pad[15] has been rewritten exactly as often as its unit was passed |
| LatWorker.WriteAt | pm_study/microbenchmark/lat.cpp:24-52 | the effect of each write method on the memory |
| LatWorker.BuildRing | pm_study/microbenchmark/lat.cpp:142-146 | the linking loop, for any shuffle |
| LatWorker.ChaseLap | pm_study/microbenchmark/lat.cpp:173-187 | a lap from any start terminates after exactly the other units, in ring order, while it overwrites them |
| LatWorker.Worker | pm_study/microbenchmark/lat.cpp:142-188 | over any number of laps and any draws the worker terminates, and its visits are the laps one after the other |
| LatWorker.WorkerMemory | pm_study/microbenchmark/lat.cpp:142-188 | afterwards each unit points to the next of the shuffled order, the last to the first, and pad[15] of each was written once for every lap that started elsewhere |
| LatThreads.RoundDownBits | pm_study/microbenchmark/lat.cpp:6-6 | clearing the low eight bits rounds down to whole units |
| LatThreads.SliceBytes | pm_study/microbenchmark/lat.cpp:219-219 | the slice of a thread is its share of the working set with the low eight bits cleared |
| LatThreads.SlicesFill | pm_study/microbenchmark/lat.cpp:217-228 | the units of a slice are all that fit in its share, and a unit more for every thread would not fit in the working set |
| LatThreads.SlicesFit | pm_study/microbenchmark/lat.cpp:217-228 | the slices follow each other from the start of the working set to at most its end, and each has a unit if and only if the working set has one for every thread |
| LatThreads.RunSlices | pm_study/microbenchmark/lat.cpp:217-228 | the slices that run hands out are pairwise disjoint and inside the memory |
| LatThreads.StepLocal | pm_study/microbenchmark/lat.cpp:142-188 | a step of a worker depends only on its slice |
| LatThreads.StepFrame | pm_study/microbenchmark/lat.cpp:142-188 | and changes only its slice |
| LatThreads.NonInterference | pm_study/microbenchmark/lat.cpp:142-228 | under every schedule each worker is, after as many steps, where it would be alone, with the same visits and the same slice |
| LatThreads.FinishesTheSame | pm_study/microbenchmark/lat.cpp:142-234 | so a worker that is given enough turns finishes with the visits and the slice of a lone run |
| LatThreads.CrewFrame | pm_study/microbenchmark/lat.cpp:217-228 | nothing outside the slices changes |

## Left out

- Timing, throughput, cycle counters and cache flushing between measurements: hardware measurement.
- The latency table of common.h and latency_job.c, `cacheprobe` and `imcprobe`: straight-line or single loops.
- mmap, posix_fallocate, file names, the channel check and the system's heap: a chunk is a region that overlaps no other; where it lies is a parameter.
- The copies of the allocator in fastallocate/ and pm_study/, and the pmdk programs, which only call libraries that are not part of this model.
- The distribution of rdrand, `random()` and `random_shuffle`: any draws and any permutation are allowed.
- Power failures within a line: a line that is not yet durable holds one of the words stored since it was, or the one before.
- The upper bytes of a line: only the low word is tracked, except in lat.cpp, where memory is an array of 64-bit words.
- Faults of misaligned vector accesses: addresses are taken as the caller's, who has to align them.
- Undefined C++ behaviour: a 101st chunk, csize = 0 and a slice without a unit are excluded by preconditions; `+= 10` on an int is taken to wrap.
- ChasingIndex.InitChasingIndex: a finite supply that runs out is reported as still drawing, in place of a loop that does not end.
- Chasing.RoundTripExactly: for one given ring, the "only if" half needs more than one lap a block, since a ring may lead past the overwritten links; for every number of hops the exact condition over all rings, which a caller can check before the ring is drawn, is ChasingExactly.RoundTripOverRings.
- Stride.SeqKernel: arguments with which the outer loop never ends are excluded; Stride.SeqEndsExactly says which.
- Lfsr.Periodic: that the period is exactly 2^64 - 1 is not proved.
- LatThreads.NonInterference: a write method is one step; the barrier between linking and chasing is not modelled, so more schedules are covered than can occur.
- RwThreads.TasksAgree: a step is one whole access of one line.
- WrMixSep.WrMix: the objects are the entries of an array, so two table entries cannot be the same object; `AllocRuns.RunSafe` is why they are not.
