# A verified model of the Sirius engine's hard core

Sirius runs SQL queries of a host database on GPUs. This project models the parts of it
in which a mistake is easiest to make and hardest to see, and proves what they promise:

- the prefetching cache: a chunk pool, a packed state-and-pin word per entry, readers with
  deferred release, a worker, completion callbacks and an evictor, as one interleaved step
  system; its lookup, its slicing, its hit path, its bucketed LRU list and its eviction walk;
- admission control with movable slots;
- the lowering of SQL expressions to the device library's append-only expression trees,
  with three-valued logic, and the round trip of expressions through the host database;
- the rewriter of remote parquet calls in query texts;
- calendar and decimal formatting;
- CONCAT batching, pipeline scheduling, URI parsing, and a copy between unequal blocks.

Code that changes state step by step is modelled by classes, methods and loops proved
against specification functions; pure translations are functions. Theorems about runs are
stated over every finite sequence of steps. Where a promise does not hold of the code, the
project gives an input on which it fails and the exact condition under which it holds.

## Files

| file | component |
|---|---|
| Common.dfy, Ascii.dfy | options, sums, bags, quotients; characters and letter case |
| BufferPool.dfy, EntryWord.dfy, EntryDiagram.dfy | the chunk pool; the packed state and pin count; its state diagram |
| CacheSystem.dfy, CacheInvariant.dfy, CacheSteps.dfy, CacheIoSteps.dfy, CacheTheorems.dfy, CacheLifeCycle.dfy | the cache's step system, its invariant, one lemma per step, the theorems over runs, a run through an entry's whole life |
| CacheRead.dfy, FileIndex.dfy | slicing and host reads; a file's entry list, its search and physical ranges |
| LruBuckets.dfy, EvictionWalk.dfy, EvictionOutcome.dfy, EvictionEffect.dfy | the list cut into buckets; one eviction walk; the lists it never gets through; what it evicts and reclaims |
| Admission.dfy | controllers and slots |
| SiriusAst.dfy, CudfTree.dfy, Lowering.dfy, Translator.dfy, LoweringScope.dfy, LoweringMeaning.dfy, LoweringTheorems.dfy | expressions, device trees, the translation, its scope, its meaning |
| DuckDb.dfy, DuckDbRoundTrip.dfy, DuckDbNames.dfy, DuckDbReads.dfy | conversion to the host database's form and back; counterparts; what can be read and that it says the same |
| SqlRewrite.dfy, SqlSites.dfy, SqlScan.dfy, SqlLetters.dfy | the rewriting, its reference, the scan loop, what a call looks like in any letter case |
| Calendar.dfy, DecimalText.dfy | dates, timestamps, decimals |
| UriParser.dfy, UriForms.dfy | the URI parser; what it refuses and why |
| ConcatBatching.dfy, PipelineSchedule.dfy, BlockCopy.dfy | the smaller loops |

## Findings

- The pin count has 28 bits: an entry can read `cached` while 2^28 pins are held
  (`EntryWord.PinOverflow`); it is trustworthy exactly when no release leaves a positive
  multiple of 2^28 pins (`EntryWord.PinCountTrustworthy`).
- `try_start_queueing` is never called, so no entry is ever `queued`, although comments and
  the state diagram show that state (`CacheTheorems.EntriesOwnWhatTheyNeed`).
- A hit is not clipped at the end of the file, as a direct read is. It starts with the direct
  read's bytes and can go on with bytes from behind the file: a ten-byte file read through a
  twenty-byte range gives twenty bytes, or five where a direct read gives none
  (`CacheRead.HitsPastTheEnd`). The two are equal exactly when the request is empty, stays
  inside the file, starts inside a file that ends where the buffer does, or starts at the
  buffer's end or behind all its chunks (`CacheRead.HitIsDirectIff`). In a block-aligned
  buffer that means: it stays inside the file, or starts inside a file that fills its last
  block (`CacheRead.AlignedExactIff`). For buffers cut off at the file's end the only bad requests
  start behind the file and inside the last chunk, where an unsigned difference wraps around
  (`CacheRead.ClippedExactIff`).
- The eviction walk can run for ever (`EvictionWalk.WalkCanLoop`). Its bucket counter goes
  wrong exactly when an entry is re-filed to directly behind the walk's position
  (`EvictionWalk.TracksUntilStraddle`). Which lists a walk with unmet demand never gets
  through can be read off the list it starts from: the first entry that will be re-filed so
  leaves two others ahead that belong into one bucket (`EvictionOutcome.EndsIffNotDoomed`).
- The entry search misses a covering entry if and only if some entry starts inside an earlier
  one and ends before it (`FileIndex.OverlapMisses`, `FileIndex.NeverMissesIff`). A request
  whose end wraps around 64 bits can be let through although nothing covers it
  (`FileIndex.WrappedEndAccepted`, `FileIndex.AcceptsIff`). An insertion keeps the order
  strict exactly for strictly increasing ranges (`FileIndex.InsertSorted`).
- Admission compares 64-bit sums that can wrap: a request larger than the budget can be
  granted beside other slots (`Admission.WrapGrants`); the accounts stay right exactly when
  the sum fits a word (`Admission.GrantKeepsLawIff`).
- Lowered AND, OR and IN differ from SQL exactly when one joined part is null while another
  has the value that decides (`LoweringTheorems.ConjunctionAgreesIff`,
  `LoweringTheorems.InAgreesIff`). Exactly then OR drops a row SQL keeps
  (`LoweringTheorems.OrDropsRow`) and IS NULL above them is wrong
  (`LoweringTheorems.NullTestKeepsExtra`, `LoweringTheorems.NullTestAgreesIff`). BETWEEN is
  lowered as if inclusive (`LoweringTheorems.BetweenAgreesIff`).
- TRY_CAST and CAST lower to the same term, and so do the two division functions
  (`LoweringTheorems.SameTerm`), so where SQL tells them apart one is wrong
  (`LoweringTheorems.OneDivisionWrong`, `LoweringTheorems.OneCastWrong`,
  `LoweringTheorems.TryCastKeepsValue`). Each is right exactly where SQL's value is the device
  operator's (`LoweringTheorems.CallAgreesIff`, `LoweringTheorems.CastAgreesIff`).
- The scheduling loop counts a meta pipeline whose base is not recorded again on every
  round, so it can end with another one never scheduled
  (`PipelineSchedule.UnrecordedBaseEndsEarly`). It ends with every base behind its
  dependencies if and only if every base and every dependency is recorded and the
  dependencies are not circular (`PipelineSchedule.SchedulesAllIff`); exactly when it ends at
  all is `PipelineSchedule.EndsIff`. Its test of child pipelines never applies: asked not to
  recurse and to skip itself, a meta pipeline reports no children.
- A timestamp in seconds or milliseconds whose day count does not fit 32 bits does not add
  up again (`Calendar.SplitRecombinesIff`).

## Model

| member | source | states |
|---|---|---|
| BufferPool.Grown | src/io/prefetching_cache.cpp:47-77 | a slab request adds one slab's chunks exactly when the limit is not reached and the resource delivers; otherwise the free list stays |
| BufferPool.GrownConserves | src/io/prefetching_cache.cpp:47-77 | growing loses and duplicates no chunk |
| BufferPool.CutConserves | src/io/prefetching_cache.cpp:93-102 | moving a tail of the free list to the caller loses and duplicates no chunk |
| BufferPool.PoolObject.constructor | src/io/prefetching_cache.cpp:36-43 | a new pool asked for its first slabs and counts its free list right |
| BufferPool.PoolObject.GrowLocked | src/io/prefetching_cache.cpp:47-77 | the object's new state is the grown pool; it answers whether chunks came |
| BufferPool.PoolObject.AllocateBulk | src/io/prefetching_cache.cpp:89-107 | chunks handed out and kept are those there were; a request falls short only with an empty free list at the slab limit or after a refusal; the free counter equals the free list's length |
| BufferPool.PoolObject.DeallocateBulk | src/io/prefetching_cache.cpp:109-117 | the returned chunks join the free list and the counter |
| BufferPool.PoolObject.Deallocate | src/io/prefetching_cache.cpp:119-124 | one chunk joins the free list and the counter |
| EntryWord.PackUnpack | src/include/io/prefetching_cache.hpp:310-318 | state and pin count come back from the packed word, the count modulo 2^28 |
| EntryWord.PackInjective | src/include/io/prefetching_cache.hpp:310-318 | different words pack differently, so a compare-and-swap on the packed word is one on the pair |
| EntryWord.AfterCounts | src/include/io/prefetching_cache.hpp:261-292 | after any balanced run of pins and releases the word holds the outstanding pins modulo 2^28 |
| EntryWord.PinCountTrustworthy | src/include/io/prefetching_cache.hpp:261-292 | cached means unpinned at every moment if and only if no release leaves a positive multiple of 2^28 pins |
| EntryWord.PinOverflow | src/include/io/prefetching_cache.hpp:261-292 | 2^28 + 1 pins and one release leave a word that reads cached |
| EntryDiagram.FollowsDiagram | src/include/io/prefetching_cache.hpp:134-149 | on a word whose pins are held exactly while in use, each operation takes effect if and only if the state diagram has its arrow, ends where the arrow ends, and keeps the word so |
| EntryDiagram.StatesInOrder | src/include/io/prefetching_cache.hpp:151 | the states are numbered in the order declared, from the one an entry starts in |
| CacheSteps.ReaderKeeps | src/io/prefetching_cache.cpp:153-213 | inserting, pinning, and releasing at once or later keep the invariant |
| CacheSteps.WorkerKeeps | src/io/prefetching_cache.cpp:958-1085 | every step of the worker's five phases keeps the invariant |
| CacheIoSteps.FlightKeeps | src/io/prefetching_cache.cpp:1087-1107 | every step of the completion callback, successful or failed, keeps the invariant |
| CacheIoSteps.EvictorKeeps | src/io/prefetching_cache.cpp:806-816 | claiming, freeing, clearing and marking keep the invariant |
| CacheTheorems.StepKeeps | src/io/prefetching_cache.cpp:941-1114 | every step of every participant keeps the invariant |
| CacheTheorems.RunKeeps | src/io/prefetching_cache.cpp:941-1114 | the invariant holds in every state of every run |
| CacheTheorems.EachChunkInOnePlace | src/io/prefetching_cache.cpp:79-124 | in every state each chunk is in exactly one place: free or undelivered, the worker's batch, or one entry; the free counter equals the free list's length |
| CacheTheorems.EntriesOwnWhatTheyNeed | src/io/prefetching_cache.cpp:1021-1107 | in every state empty entries own nothing, cached and in-use ones exactly ceil(size / chunk size) chunks, and no entry is queued |
| CacheTheorems.WorkerHandsOnEverything | src/io/prefetching_cache.cpp:958-1053 | between two items the worker holds no chunk and no entry: every chunk is in stock or owned by an entry, every loading entry with a flight; it never runs out of chunks it has yet to hand on |
| CacheTheorems.StepKeepsPinnedChunks | src/io/prefetching_cache.cpp:806-816 | no step changes the chunk list or range of a pinned entry |
| CacheTheorems.PinnedEntryStable | src/io/prefetching_cache.cpp:153-213 | from the first to the last moment of a stretch in which an entry is pinned it is in use, out of the evictor's hands, with the same chunks holding the file's bytes |
| CacheTheorems.EvictsOnlyUnpinned | src/io/prefetching_cache.cpp:806-816 | the evictor claims only entries nobody holds a pin on |
| CacheLifeCycle.WholeLife | src/io/prefetching_cache.cpp:497-1107 | from any memory there is a run in which an entry is inserted, loaded, pinned, released by a stream callback and evicted |
| CacheLifeCycle.LifePhases | src/io/prefetching_cache.cpp:497-1107 | in that run the entry is cached with the file's byte, pinned, released later and claimed, and at the end the pool is as at the start |
| CacheRead.Push | src/io/prefetching_cache.cpp:272-289 | a stretch is added to the spans, joined to the last one exactly when it follows it in memory |
| CacheRead.Slice | src/io/prefetching_cache.cpp:244-294 | the spans hold the buffer's bytes from the request's start on, as many as asked for up to the end of the physical range, or, from behind that end, of the last chunk; adjacent ones are joined, and none is empty unless the request starts at the range's end |
| CacheRead.CopySpans | src/io/io_context.cpp:168-182 | the destination receives the spans' bytes in order and nothing else changes |
| CacheRead.SlicedLength | src/io/prefetching_cache.cpp:244-294 | a slice is at least as long as a direct read, and as long if and only if the request is exact |
| CacheRead.HitIsDirectIff | src/io/prefetching_cache.cpp:244-294 | for every request inside an entry's range the hit's bytes start with the direct read's, and are those bytes if and only if the request is exact: inside the file, or ending with a buffer that ends with the file, or where nothing is held |
| CacheRead.AlignedExactIff | src/io/uring/uring_reactor.cpp:156-165 | with a block-aligned buffer a request is exact if and only if it stays inside the file, or starts inside a file that fills its last block |
| CacheRead.ClippedExactIff | src/io/s3/s3_blocking_ioctx.cpp:984-991 | with a clipped buffer a request is exact unless it starts behind the file and inside the last chunk |
| CacheRead.HitsPastTheEnd | src/io/prefetching_cache.cpp:267-270 | a ten-byte file whose hits return twenty bytes, and five bytes from behind its end |
| CacheRead.HostRead | src/io/io_context.cpp:168-182 | a miss delivers the direct read's bytes and count; a hit delivers those bytes first, and exactly those if and only if the request is exact; the rest of the destination stays |
| CacheRead.Lookup | src/io/prefetching_cache.cpp:515-545 | it answers with the last entry starting at or before the request exactly when that passes the search's tests and can be read |
| CacheRead.ReadThrough | src/io/prefetching_cache.cpp:497-557 | in every state that keeps the invariant, search, slice and copy together deliver a direct read's bytes first, and exactly those on a miss or an exact hit |
| CacheRead.PinnedReadIsFile | src/io/prefetching_cache.cpp:244-294 | in every run, bytes copied while the reader's pin is held, each at a moment of its own, start with the direct read's bytes and equal them if and only if the request is exact |
| FileIndex.Insert | src/io/prefetching_cache.cpp:443-485 | the loop computes the merge of the file's entries with the ranges and lists the requested entries |
| FileIndex.CountsFollow | src/io/prefetching_cache.cpp:443-485 | over any inserts of strictly increasing ranges into an empty list, an entry stands exactly at the offsets named, with the range first named; its total is the number of namings, its epoch the last one's, its outstanding count the number of trailing namings in that epoch |
| FileIndex.EveryCountRight | src/io/prefetching_cache.cpp:443-485 | so the counts of every entry of the list are right |
| FileIndex.InsertKeepsSorted | src/io/prefetching_cache.cpp:443-485 | strictly increasing ranges keep a strictly sorted list strictly sorted |
| FileIndex.InsertSorted | src/io/prefetching_cache.cpp:443-485 | the list stays strictly sorted if and only if the ranges are strictly increasing |
| FileIndex.InsertLosesNothing | src/io/prefetching_cache.cpp:443-485 | whatever the ranges, no entry is lost, and one entry is asked for at each range's offset, in order |
| FileIndex.InsertAddsAbsent | src/io/prefetching_cache.cpp:443-485 | for strictly increasing ranges the list afterwards is the list before and one new entry for each range that starts where no entry did |
| FileIndex.UpperBound | src/io/prefetching_cache.cpp:378-383 | the binary search gives the first range starting behind the offset |
| FileIndex.FindEntry | src/io/prefetching_cache.cpp:369-396 | it returns the last range starting at or before the request if that passes the two tests, and none otherwise |
| FileIndex.AcceptsIff | src/io/prefetching_cache.cpp:388-395 | the two 64-bit tests pass if and only if the range covers the request or the request's end wraps around to before the range's end |
| FileIndex.WrappedEndAccepted | src/io/prefetching_cache.cpp:388-395 | a request that no range covers and that passes the tests |
| FileIndex.SearchIsFound | src/io/prefetching_cache.cpp:369-396 | for every non-empty request that ends within 64 bits the search finds a range if and only if the last one starting at or before it covers it |
| FileIndex.DisjointFound | src/io/prefetching_cache.cpp:369-396 | among disjoint ranges a covering range is the one found, and the only one |
| FileIndex.OverlapMisses | src/io/prefetching_cache.cpp:369-396 | an entry nested in an earlier one hides the rest of it from the search |
| FileIndex.NeverMissesIff | src/io/prefetching_cache.cpp:369-396 | the search misses no covered request if and only if every range that starts inside an earlier one reaches at least as far |
| FileIndex.PhysicalRangesBack | src/io/uring/uring_reactor.cpp:156-165 | clipped and block-aligned ranges reach the logical end or the file's end; the aligned size wraps exactly for a range starting behind the file's last block |
| FileIndex.PhysicalRangesTight | src/io/uring/uring_reactor.cpp:156-165 | a clipped range is what the logical range and the file share; an aligned one starts and ends at block boundaries less than a block away from that |
| LruBuckets.BucketExists | src/io/prefetching_cache.cpp:727-773 | every position is in exactly one bucket |
| LruBuckets.InsertPlaces | src/io/prefetching_cache.cpp:727-743 | an insertion makes the entry the tail of its bucket, keeps the separators in order and every other entry in its bucket |
| LruBuckets.InsertDistinct | src/io/prefetching_cache.cpp:775-788 | filing an entry that is not listed keeps the list free of duplicates and adds just it |
| LruBuckets.ErasePlaces | src/io/prefetching_cache.cpp:745-752 | an erasure removes one entry, keeps the separators in order and every other entry in its bucket |
| LruBuckets.AgePlaces | src/io/prefetching_cache.cpp:754-773 | aging moves every entry but the last one bucket down, those of bucket 0 staying, the last into the last bucket |
| LruBuckets.AgedTimesSeps | src/io/prefetching_cache.cpp:754-773 | the separators after n shifts, in closed form |
| LruBuckets.AgingSaturates | src/io/prefetching_cache.cpp:821-829 | after N - 1 shifts another changes nothing, so min(delta, N) shifts do what delta shifts would |
| LruBuckets.BucketFor | src/io/prefetching_cache.cpp:718-725 | the last bucket exactly for entries asked for at least as often as the cache aged, one lower per missing request, bucket 0 exactly for those missing N - 1 or more |
| LruBuckets.LruList.Insert | src/io/prefetching_cache.cpp:727-743 | the loop over the separators leaves the list inserted into |
| LruBuckets.LruList.Erase | src/io/prefetching_cache.cpp:745-752 | the separators at the erased element move on and the list is the erased one |
| LruBuckets.LruList.Age | src/io/prefetching_cache.cpp:754-773 | the two loops leave the aged separators |
| LruBuckets.LruList.CatchUp | src/io/prefetching_cache.cpp:821-829 | the capped loop has the effect of one shift per epoch |
| LruBuckets.LruList.Drain | src/io/prefetching_cache.cpp:775-788 | the list holds what it held and the candidates, each once, in step with the membership flags |
| EvictionWalk.TracksUntilStraddle | src/io/prefetching_cache.cpp:867-895 | the bucket counter stays right in a step if and only if the step does not re-file an entry to directly behind the position with more to come; then it is stuck |
| EvictionWalk.StepReady | src/io/prefetching_cache.cpp:867-895 | a step keeps the list well formed and drops an entry only by evicting it and counting its chunks |
| EvictionWalk.StuckStays | src/io/prefetching_cache.cpp:870-871 | a stuck counter never moves again |
| EvictionWalk.TrappedStays | src/io/prefetching_cache.cpp:891-894 | two entries that a stuck walk re-files behind each other stay such a pair, and the walk has not ended |
| EvictionWalk.StepProgress | src/io/prefetching_cache.cpp:867-895 | a step of a walk that is not trapped leaves fewer misfiled entries ahead, or fewer entries ahead, or turns an entry once |
| EvictionWalk.WalkEndsIff | src/io/prefetching_cache.cpp:867-895 | a walk with unmet demand ends if and only if it never gets trapped |
| EvictionWalk.WellFiledTracks | src/io/prefetching_cache.cpp:867-895 | with no stale entry filed too low the counter is right throughout and the walk is never trapped |
| EvictionWalk.WalkCanLoop | src/io/prefetching_cache.cpp:867-895 | a list of three entries in five buckets on which the walk never ends |
| EvictionWalk.EvictInPlace | src/io/prefetching_cache.cpp:865-895 | the walk on the list object does the walk's steps up to the first state in which the demand is met or the list at its end, flags in step |
| EvictionOutcome.DoomedStep | src/io/prefetching_cache.cpp:867-895 | a step that leaves the bucket counter right changes nothing about whether the list is doomed |
| EvictionOutcome.DoomedAtStraddle | src/io/prefetching_cache.cpp:891-894 | the step that loses the counter traps the walk if and only if the list was doomed |
| EvictionOutcome.UntrappedStays | src/io/prefetching_cache.cpp:867-895 | a stuck walk that is not trapped does not get trapped |
| EvictionOutcome.EndsIffNotDoomed | src/io/prefetching_cache.cpp:867-895 | a walk with unmet demand ends if and only if the list it starts from is not doomed: no first re-filing to directly behind the position that leaves two others ahead belonging into one bucket |
| EvictionOutcome.WellFiledListEnds | src/io/prefetching_cache.cpp:867-895 | the walk ends when no stale entry lies below the bucket it belongs into |
| EvictionWalk.StepInPlace | src/io/prefetching_cache.cpp:870-895 | the loop body does one step of the walk |
| EvictionEffect.StepEffect | src/io/prefetching_cache.cpp:867-895 | while the counter is right the visited entry leaves the list if and only if it is stale, gives chunks back and belongs into its bucket or a lower one, and exactly its chunks are counted; a misfiled one ends in its bucket; any other is passed by |
| EvictionEffect.StepGone | src/io/prefetching_cache.cpp:867-895 | right counter or stuck, only such an entry leaves the list |
| EvictionEffect.WalkConserves | src/io/prefetching_cache.cpp:867-895 | over any number of steps the chunks reclaimed are those of the entries that left, each stale |
| EvictionEffect.SweepsList | src/io/prefetching_cache.cpp:867-895 | a walk to the list's end with the counter right leaves no entry that gives chunks back, except some that were misfiled |
| EvictionEffect.WellFiledOutcome | src/io/prefetching_cache.cpp:865-895 | over a well-filed list the walk leaves exactly the entries that are not stale or give nothing back, in order and in their buckets, and reclaims the chunks of the others |
| EvictionEffect.DemandOutcome | src/io/prefetching_cache.cpp:865-895 | with a demand it stops behind the shortest stretch that meets it, having sorted out that stretch and left the rest |
| Admission.AdmissionControl.constructor | src/io/admission_control.cpp:21 | a new controller has nothing in use |
| Admission.AdmissionControl.Acquire | src/io/admission_control.cpp:23-49 | a request waits, or reserves its size, or the whole budget when no slot is live |
| Admission.AdmissionControl.Release | src/io/admission_control.cpp:51-59 | the reservation and the slot are taken off |
| Admission.SlotObject.MoveFrom | src/io/admission_control.cpp:66-70 | the new slot holds the reservation and the old one none |
| Admission.SlotObject.MoveAssign | src/io/admission_control.cpp:72-82 | the held reservation is released once, the other's taken over; self-assignment changes nothing |
| Admission.SlotObject.Destroy | src/io/admission_control.cpp:61-64 | a live slot releases its reservation |
| Admission.RunKeepsLaw | src/io/admission_control.cpp:23-82 | in every state of every run of grants, stops, moves and destructions, over any number of controllers, what is in use is the sum of the live reservations, the slot count their number, and the budget is not exceeded |
| Admission.GrantRules | src/io/admission_control.cpp:30-46 | an idle controller grants any request, a waiting request has a live slot to wait for, and a request over the budget whose sum does not wrap is granted only with no other slot live, and then the whole budget |
| Admission.GrantedIff | src/io/admission_control.cpp:30-46 | while the sum fits a word a request is granted if and only if it fits what the live slots leave of the budget, then in full, or no slot is live, then the whole budget |
| Admission.GrantThenDestroy | src/io/admission_control.cpp:23-64 | granting and destroying restores everything |
| Admission.GrantKeepsLawIff | src/io/admission_control.cpp:30-46 | a grant keeps the law if and only if sum and count fit a word |
| Admission.WrapGrants | src/io/admission_control.cpp:30-46 | a wrapped sum grants an oversized request beside a live slot |
| CudfTree.RunAppend | src/include/expression_executor/gpu_expression_translator_internal.hpp:270-273 | appending to a tree changes nothing it computes |
| Lowering.Put | src/expression_executor/gpu_expression_translator.cpp:358-383 | a lowered term only extends the tree |
| Lowering.PutComputes | src/expression_executor/gpu_expression_translator.cpp:214-225 | in the extended tree every operand precedes its operation, and the back computes what the term means |
| Translator.Translator.AddExpression | src/expression_executor/gpu_expression_translator.cpp:358-383 | the nodes of the lowered term are appended and the root is the back; failures are those of the specification, in its order |
| Translator.Translator.AddConstant | src/expression_executor/gpu_expression_translator.cpp:397-525 | null and unsupported literals are rejected, mismatched ones throw |
| Translator.Translator.AddPair | src/expression_executor/gpu_expression_translator.cpp:528-570 | both operands are added before a failure of either counts |
| Translator.Translator.AddConjunction | src/expression_executor/gpu_expression_translator.cpp:573-610 | the fold over the children appends the left-nested term |
| Translator.Translator.AddBetween | src/expression_executor/gpu_expression_translator.cpp:613-631 | the input node is shared by both comparisons |
| Translator.Translator.AddCast | src/expression_executor/gpu_expression_translator.cpp:642-670 | only casts to 64-bit integers and doubles are lowered |
| Translator.Translator.AddUnary | src/expression_executor/gpu_expression_translator.cpp:673-698 | NOT, IS NULL and IS NOT NULL are lowered, TRY is rejected |
| Translator.Translator.AddInList | src/expression_executor/gpu_expression_translator.cpp:710-740 | the loop appends one comparison per value with the probe anew, joined by OR |
| Translator.Translator.AddCall | src/expression_executor/gpu_expression_translator.cpp:743-772 | binary arithmetic without decimal arguments is lowered |
| Translator.Translator.TranslateExpression | src/expression_executor/gpu_expression_translator.cpp:214-225 | the returned tree has its root at the back and computes the lowered term on every row |
| Translator.Translator.AddJoinCondition | src/expression_executor/gpu_expression_translator.cpp:242-285 | one condition's nodes are appended, its sides' tables swapped on request |
| Translator.Translator.TranslateJoinConditions | src/expression_executor/gpu_expression_translator.cpp:299-324 | the loop joins the conditions of the range by AND; an empty range gives none |
| LoweringMeaning.AgreeConnective | src/expression_executor/gpu_expression_translator.cpp:579-588 | null-propagating AND and OR agree with Kleene's on known values, and are null or agree otherwise |
| LoweringScope.LowersIff | src/expression_executor/gpu_expression_translator.cpp:358-772 | an expression is lowered if and only if all its parts have a counterpart, and throws if and only if a part that is reached does |
| LoweringScope.LiteralTold | src/expression_executor/gpu_expression_translator.cpp:404-560 | which payload a literal of each type must have to be lowered, which types are left to the host and which throw |
| LoweringScope.ConditionsTold | src/expression_executor/gpu_expression_translator.cpp:242-324 | join conditions are translated if and only if each can be, and throw if and only if the first that cannot be throws |
| LoweringMeaning.Meaning | src/expression_executor/gpu_expression_translator.cpp:358-772 | where SQL computes the expression's own functions and casts as the device does, the lowered term agrees with SQL: exactly without connectives, exactly on rows without nulls, and soundly where IS NULL stands above plain expressions only |
| LoweringMeaning.FoldMeaning | src/expression_executor/gpu_expression_translator.cpp:573-610 | the same for every prefix of a conjunction |
| LoweringMeaning.InMeaning | src/expression_executor/gpu_expression_translator.cpp:710-740 | the same for every prefix of an IN list |
| LoweringMeaning.BetweenMeaning | src/expression_executor/gpu_expression_translator.cpp:613-631 | the same for an inclusive BETWEEN |
| LoweringTheorems.SameWithoutNulls | src/expression_executor/gpu_expression_translator.cpp:214-225 | on rows without nulls the tree gives SQL's value |
| LoweringTheorems.FilterKeepsNothingExtra | src/expression_executor/gpu_expression_translator.cpp:214-225 | on any row the tree gives SQL's value or null, so a lowered filter keeps no row SQL drops |
| LoweringTheorems.PlainIsExact | src/expression_executor/gpu_expression_translator.cpp:214-225 | without AND and OR the tree gives SQL's value on every row |
| LoweringTheorems.ConjunctiveFilterIsExact | src/expression_executor/gpu_expression_translator.cpp:573-631 | ANDs of plain expressions and inclusive BETWEENs keep exactly the rows SQL keeps |
| LoweringTheorems.JoinsAgreeIff | src/expression_executor/gpu_expression_translator.cpp:579-588 | the device's AND and OR of any number of values is SQL's if and only if no null meets the value that decides; otherwise it is null where SQL's is that value |
| LoweringTheorems.ConjunctionAgreesIff | src/expression_executor/gpu_expression_translator.cpp:573-610 | a lowered AND or OR of plain operands equals SQL's if and only if no operand is null while another decides; for OR the filter keeps the same rows under the same condition |
| LoweringTheorems.InAgreesIff | src/expression_executor/gpu_expression_translator.cpp:710-740 | a lowered IN or NOT IN equals SQL's if and only if no comparison is null while another is true |
| LoweringTheorems.NullTestAgreesIff | src/expression_executor/gpu_expression_translator.cpp:683-692 | IS [NOT] NULL above AND, OR, IN or BETWEEN agrees with SQL if and only if no null meets the value that decides |
| LoweringTheorems.NullTestKeepsExtra | src/expression_executor/gpu_expression_translator.cpp:683-692 | IS NULL above AND keeps a row on which SQL says false |
| LoweringTheorems.OrDropsRow | src/expression_executor/gpu_expression_translator.cpp:582 | a lowered OR drops a row SQL keeps |
| LoweringTheorems.BetweenAgreesIff | src/expression_executor/gpu_expression_translator.cpp:624-630 | a lowered BETWEEN equals SQL's if and only if, on known values, the input is not an excluded bound within the other bound, and with a null, the other bound does not decide |
| LoweringTheorems.SameTerm | src/expression_executor/gpu_expression_translator.cpp:642-671 | the two kinds of cast lower to one term, and the two division functions to another |
| LoweringTheorems.CallAgreesIff | src/expression_executor/gpu_expression_translator.cpp:759-771 | an arithmetic call of plain operands equals SQL's if and only if an operand is null or SQL's function has the value of the device operator of its name |
| LoweringTheorems.CastAgreesIff | src/expression_executor/gpu_expression_translator.cpp:642-671 | a cast of a plain operand equals SQL's if and only if the operand is null or SQL's cast, flag included, has the value of the device cast of the target type: 64-bit signed for BIGINT and HUGEINT, unsigned for UBIGINT and UHUGEINT, floating point for DOUBLE |
| LoweringTheorems.OneDivisionWrong | src/expression_executor/gpu_expression_translator.cpp:759-771 | where SQL tells the two divisions apart the tree is wrong about one of them |
| LoweringTheorems.OneCastWrong | src/expression_executor/gpu_expression_translator.cpp:642-671 | where SQL's TRY_CAST and CAST differ the tree is wrong about one of them |
| LoweringTheorems.TryCastKeepsValue | src/expression_executor/gpu_expression_translator.cpp:642-671 | a TRY_CAST that SQL makes null and the tree gives a value |
| LoweringTheorems.LowerMirror | src/expression_executor/gpu_expression_translator.cpp:386-394 | lowering for the other table mirrors the term |
| LoweringTheorems.SwappedSidesAgree | src/expression_executor/gpu_expression_translator.cpp:242-324 | conditions translated with swapped sides succeed alike and give the same value on exchanged rows |
| LoweringTheorems.ConditionsMatch | src/expression_executor/gpu_expression_translator.cpp:299-324 | a pair of rows that passes the combined conditions passes each by SQL, and conversely where the sides agree exactly or the rows have no nulls |
| DuckDb.TypeRoundTrip | src/helper/type_conversions.cpp:24-92 | every type but LIST and INVALID converts, and comes back |
| DuckDb.SplitJoins | src/expression/value.cpp:89-92 | a signed 128-bit number is its two words |
| DuckDb.ValueRoundTrip | src/expression/value.cpp:36-158 | a literal comes back with its type, a decimal with its type's scale and storage |
| DuckDb.DecimalRoundTrip | src/expression/value.cpp:67-93 | decimals of every width come back |
| DuckDb.Int16Iff | src/expression/value.cpp:137-141 | a decimal of at most four digits survives if and only if it fits 16 bits |
| DuckDb.FindFunction | src/expression/function_id.cpp:106-112 | the scan finds the first entry of a name, or none exactly if there is none |
| DuckDb.NameRoundTrip | src/expression/function_id.cpp:34-74 | every function's name finds the function again |
| DuckDb.LookupIff | src/expression/function_id.cpp:34-63 | a name finds a function if and only if it is the function's own name, or the alias of substring |
| DuckDbNames.TypesKept | src/helper/type_conversions.cpp:24-92 | types convert to their namesakes in both directions, decimals with width and scale |
| DuckDbNames.OperatorsKept | src/expression/from_duckdb.cpp:77-216 | comparisons and unary operators convert to their counterparts in both directions, and to nothing else |
| DuckDbNames.LiteralWritten | src/expression/value.cpp:99-158 | a literal is written if and only if its payload is its type's, and says the same unless a short decimal does not fit 16 bits |
| DuckDbNames.LiteralRead | src/expression/value.cpp:36-97 | a literal that is read has its type's payload and scale and says the same |
| DuckDbReads.ReadsIff | src/expression/from_duckdb.cpp:64-282 | a host expression is read if and only if all of it can be, throws if and only if a part that is reached does, and is refused otherwise |
| DuckDbReads.ReadSaysTheSame | src/expression/from_duckdb.cpp:64-282 | whatever is read has the host expression's operators, types, flags and names in the same places |
| DuckDbReads.WrittenSaysTheSame | src/expression/to_duckdb.cpp:89-268 | what is written says the same as the node, left-out casts and untyped references aside |
| DuckDbRoundTrip.HeadKids | src/expression/to_duckdb.cpp:89-268 | the written node's children are the written children, in order |
| DuckDbRoundTrip.RoundTrip | src/expression/from_duckdb.cpp:64-282 | every node that converts comes back as its normal form |
| DuckDbRoundTrip.ConvertsIff | src/expression/to_duckdb.cpp:89-268 | the conversion throws exactly on aggregates, unset operators, LIST and INVALID types and mismatched literals |
| DuckDbRoundTrip.NormalSameIff | src/expression/to_duckdb.cpp:89-268 | the normal form is the node if and only if references are typed, decimals fit their types and no cast is left out |
| DuckDbRoundTrip.RoundTripIff | src/expression/from_duckdb.cpp:64-282 | the round trip succeeds exactly on convertible nodes and is the identity exactly on faithful ones |
| DuckDbRoundTrip.HeadBack | src/expression/from_duckdb.cpp:64-282 | each node kind is read back from what it was written as |
| SqlRewrite.ChangesIffCalls | src/sirius_sql_rewrite.cpp:98-205 | the result is seven characters longer per call and differs from the text if and only if there is one |
| SqlRewrite.NoNewCall | src/sirius_sql_rewrite.cpp:180-188 | where the text has no call the result has none |
| SqlRewrite.LiteralKept | src/sirius_sql_rewrite.cpp:62-82 | a literal has the same value in the result |
| SqlRewrite.TurnRepeats | src/sirius_sql_rewrite.cpp:109-192 | every turn of the scan that is not a call is taken alike on the result |
| SqlRewrite.Idempotent | src/sirius_sql_rewrite.cpp:98-195 | from any point and mode, rewriting twice is rewriting once |
| SqlRewrite.RewrittenIdempotent | src/sirius_sql_rewrite.cpp:98-195 | rewriting a query twice is rewriting it once, and the result holds no call |
| SqlSites.TurnKeepsStep | src/sirius_sql_rewrite.cpp:109-178 | the scan's modes and a finite automaton reading one character at a time keep step |
| SqlSites.RewrittenIsSplice | src/sirius_sql_rewrite.cpp:98-195 | the result is the query with exactly the names of the calls standing in code replaced, all else copied |
| SqlScan.EqualsPrefix | src/sirius_sql_rewrite.cpp:39-48 | the loop decides the prefix, letter case aside |
| SqlScan.SkipWhitespace | src/sirius_sql_rewrite.cpp:50-56 | it stops at the first character that is not white space |
| SqlScan.ParseLiteral | src/sirius_sql_rewrite.cpp:62-82 | it returns the decoded value and the position behind the closing quote: between the quotes stands the value with its quotes doubled, and no quote follows; or none if there is no closed literal |
| SqlScan.ShouldRewrite | src/sirius_sql_rewrite.cpp:87-96 | the call's first argument is a literal of the scheme |
| SqlScan.TakeTurn | src/sirius_sql_rewrite.cpp:109-192 | one turn of the loop appends, moves and changes mode as specified |
| SqlScan.RewriteCalls | src/sirius_sql_rewrite.cpp:98-195 | the loop computes the rewritten text |
| SqlScan.ReferencesCalls | src/sirius_sql_rewrite.cpp:198-205 | it answers whether some call stands in code |
| SqlScan.ChangesIffSite | src/sirius_sql_rewrite.cpp:198-205 | the spliced text differs from the query if and only if there is a site |
| Ascii.LowerIff | src/sirius_sql_rewrite.cpp:39-48 | two characters compare equal if and only if they are the same or the small and the capital form of one letter |
| Ascii.IsSpaceIff | src/sirius_sql_rewrite.cpp:50-56 | the blanks are the six of the C locale |
| SqlLetters.IsIdentIff | src/sirius_sql_rewrite.cpp:33-37 | identifier characters are the letters, the digits and the underscore |
| SqlLetters.StartsWithIff | src/sirius_sql_rewrite.cpp:39-48 | a text has a prefix if and only if each character is there, letter case aside |
| SqlLetters.SkipSpaceIs | src/sirius_sql_rewrite.cpp:50-56 | skipping passes blanks only and stops at the first other character |
| SqlLetters.AlikeCalls | src/sirius_sql_rewrite.cpp:98-195 | texts that differ in letter case only have the same number of calls |
| SqlLetters.AlikeSites | src/sirius_sql_rewrite.cpp:98-195 | and the same sites |
| SqlLetters.CallIff | src/sirius_sql_rewrite.cpp:87-96 | a call stands if and only if no identifier runs on and the text is the name, blanks, a parenthesis, blanks and a closed literal whose value starts with the scheme, in any letter case |
| SqlLetters.NamesInCapitals | src/sirius_sql_rewrite.cpp:29-31 | the capital spellings of name and scheme are recognized, and the new name is the old with a prefix |
| Calendar.YearOfEraIs | src/debug_utils.cpp:252 | the closed formula gives the year of the era on all its 146097 days |
| Calendar.CivilIsDate | src/debug_utils.cpp:246-260 | on every day count the shift fits, the result is a valid Gregorian date with that day number |
| Calendar.DateRoundTrip | src/debug_utils.cpp:246-260 | every date in range comes back from its day number |
| Calendar.CivilCounts | src/debug_utils.cpp:246-260 | the dates count up from 1970-01-01 one calendar day at a time, negative days included |
| Calendar.DayNumberInjective | src/debug_utils.cpp:237-245 | different dates have different day numbers |
| Calendar.TimeOfDay | src/debug_utils.cpp:269-271 | hours, minutes and seconds add up, and are in range within a day |
| Calendar.SplitRecombinesIff | src/debug_utils.cpp:263-355 | the parts of a timestamp add up to the raw value if and only if the day count fits 32 bits, and then each part is in its range |
| Calendar.PartsInRange | src/debug_utils.cpp:269-271 | when the day count fits, hours, minutes, seconds and fraction are a time of day of that day |
| Calendar.PartsDetermined | src/debug_utils.cpp:269-271 | parts in their ranges are determined by their sum |
| Calendar.FineUnitsAlwaysRecombine | src/debug_utils.cpp:303-355 | for microseconds and nanoseconds they always add up, the time is a time of day and the date is defined |
| DecimalText.PrintedReads | src/debug_utils.cpp:183-231 | every printed number reads back with its scale |
| DecimalText.PrintedForm | src/debug_utils.cpp:183-231 | the text is a minus sign exactly for negative numbers, an integral part without superfluous zeros, and a point with as many digits as the scale |
| DecimalText.MagnitudeIsAbs | src/debug_utils.cpp:187-189 | the unsigned negation gives the absolute value, the smallest number included |
| DecimalText.PadAndPoint | src/debug_utils.cpp:191-197 | the padding loop and the point give the specified text |
| DecimalText.FormatDecimal | src/debug_utils.cpp:183-199 | 32-bit and 64-bit numbers are printed as specified |
| DecimalText.FormatDecimal128 | src/debug_utils.cpp:202-231 | the digit loop and the reversal print 128-bit numbers as specified |
| DecimalText.TrimZeros | src/debug_utils.cpp:294-297 | trailing zeros go, and putting them back gives the text |
| ConcatBatching.Concat.Pull | src/op/sirius_physical_concat.cpp:127-171 | a task takes from the first partition that has a batch; none only if all are empty |
| ConcatBatching.Concat.PullFrom | src/op/sirius_physical_concat.cpp:138-166 | it takes as many batches from the front as stay within the threshold, at least one, or all |
| ConcatBatching.Concat.HintEarly | src/op/sirius_physical_concat.cpp:95-120 | an early task is announced if and only if a partition holds two batches and more than the threshold |
| ConcatBatching.OverfullIff | src/op/sirius_physical_concat.cpp:95-120 | a partition is overfull if and only if a task would leave some of its batches |
| ConcatBatching.Concat.NextHint | src/op/sirius_physical_concat.cpp:72-125 | the hint with the source finished or running |
| ConcatBatching.TakesUnique | src/op/sirius_physical_concat.cpp:138-166 | the number of batches taken is determined by its specification |
| ConcatBatching.EarlyTaskLeavesMore | src/op/sirius_physical_concat.cpp:92-120 | after an early hint, whatever arrives meanwhile, the next pull gives a task and leaves a batch |
| ConcatBatching.RunConserves | src/op/sirius_physical_concat.cpp:127-171 | in every run of arrivals and pulls each partition's taken and waiting batches are, in order, those that came |
| ConcatBatching.TasksWithinThreshold | src/op/sirius_physical_concat.cpp:147-163 | every task of a run is of one partition and within the threshold unless a single batch or all in one |
| ConcatBatching.PullsDrain | src/op/sirius_physical_concat.cpp:127-171 | a pull gives a task if and only if a batch waits, and then fewer wait |
| ConcatBatching.Drain | src/op/sirius_physical_concat.cpp:127-171 | pulling until nothing comes empties the repository, every batch once and in its partition's order |
| PipelineSchedule.TurnKeeps | src/legacy/gpu_executor.cpp:243-287 | a turn keeps the schedule equal to what the scheduled meta pipelines record, dependencies first |
| PipelineSchedule.EndsIff | src/legacy/gpu_executor.cpp:231-289 | for every plan the loop ends if and only if the meta pipelines that get their turn are all there are, or one of them has a base that is not recorded |
| PipelineSchedule.EndsIffAcyclic | src/legacy/gpu_executor.cpp:231-289 | with every base recorded the loop ends if and only if the dependencies are recorded and not circular |
| PipelineSchedule.EndedInOrderIff | src/legacy/gpu_executor.cpp:231-289 | where the loop ends, every base is scheduled behind its dependencies and nothing twice if and only if every base is recorded |
| PipelineSchedule.SchedulesAllIff | src/legacy/gpu_executor.cpp:231-289 | for every plan the loop ends with such a schedule if and only if every base and dependency is recorded and the dependencies are not circular |
| PipelineSchedule.FinishedInOrder | src/legacy/gpu_executor.cpp:243-287 | in a finished schedule of recorded bases every base occurs once, behind all its dependencies |
| PipelineSchedule.Schedule | src/legacy/gpu_executor.cpp:240-288 | on every plan on which it ends, the loop does its turns up to the first that fills the count, and has done its job if and only if every base is recorded |
| PipelineSchedule.TakeTurn | src/legacy/gpu_executor.cpp:243-287 | the loop body does one turn |
| PipelineSchedule.DependenciesScheduled | src/legacy/gpu_executor.cpp:262-269 | the loop decides whether all dependencies are scheduled |
| PipelineSchedule.Record | src/legacy/gpu_executor.cpp:271-285 | the loop appends the recorded pipelines in order |
| PipelineSchedule.UnrecordedBaseEndsEarly | src/legacy/gpu_executor.cpp:273-285 | with a base that is not recorded the loop can end with another never scheduled |
| UriParser.PercentDecode | src/io/uri_parser.cpp:51-69 | the loop decodes, or reports a truncated or malformed sequence |
| UriParser.DecodeEncode | src/io/uri_parser.cpp:51-69 | decoding inverts percent-encoding (section 2.1 of RFC 3986) |
| UriParser.ParseQuery | src/io/uri_parser.cpp:74-96 | the loop collects the pairs, last one of a key winning, empty segments ignored, empty keys refused |
| UriParser.QueryPrinted | src/io/uri_parser.cpp:74-96 | a printed list of pairs reads back as the map in which later pairs win |
| UriParser.ObjectRoundTrip | src/io/uri_parser.cpp:124-208 | every object URI reads back: its scheme, of any case, in lower case, host, key with all its slashes, query |
| UriParser.FileRoundTrip | src/io/uri_parser.cpp:141-178 | absolute paths read back, with the file scheme in any case and without it |
| UriParser.SchemeRoundTrip | src/io/uri_parser.cpp:153-165 | a scheme (section 3.1 of RFC 3986, with the parser's wider alphabet) is found, taken off and put into lower case |
| UriParser.LowerCaseIs | src/io/uri_parser.cpp:113-120 | lower case has the same letters and no capital |
| UriParser.ParseSegment | src/io/uri_parser.cpp:82-93 | one segment gives its decoded pair or an error |
| UriForms.HexValueIff | src/io/uri_parser.cpp:41-47 | a character has a digit's value if and only if it is that digit in either case |
| UriForms.DecodeOkIff | src/io/uri_parser.cpp:51-69 | decoding succeeds if and only if two hexadecimal digits follow every percent sign |
| UriForms.DecodeFails | src/io/uri_parser.cpp:51-69 | the first percent sign without them decides between truncated and malformed |
| UriForms.DecodeSpelled | src/io/uri_parser.cpp:51-69 | a text decodes to what its characters and escapes mean, however spelled |
| UriForms.ValidSchemeIff | src/io/uri_parser.cpp:98-111 | a scheme is valid if and only if it is not empty and holds no blank and none of five delimiters |
| UriForms.SchemeAnyCase | src/io/uri_parser.cpp:158-161 | the case of a scheme's letters decides nothing |
| UriForms.SchemeRefused | src/io/uri_parser.cpp:157-158 | a scheme in front is refused if and only if it is not valid |
| UriForms.FragmentDropped | src/io/uri_parser.cpp:126-133 | what follows a number sign is dropped; nothing before it is an error |
| UriForms.RelativeRefused | src/io/uri_parser.cpp:153-156 | a text is refused as relative if and only if it holds no delimiter, and for its scheme if and only if it starts with one |
| UriForms.FileRefused | src/io/uri_parser.cpp:170-178 | a file URI is refused for its path if and only if that is not absolute |
| UriForms.ObjectRefused | src/io/uri_parser.cpp:179-205 | an object URI is refused for its host if and only if that is empty, and for its key if and only if nothing follows the slash behind the host |
| UriForms.QueryForms | src/io/uri_parser.cpp:74-96 | empty segments are ignored, a key without value has the empty one, a value needs a key |
| UriParser.AnyMapListed | src/io/uri_parser.cpp:74-96 | every query map is the reading of some printed list |
| BlockCopy.CopyBlocks | src/data/host_parquet_representation_converters.cpp:262-290 | for any positive block sizes the loop ends, stays within both allocations, copies byte for byte and changes nothing else |
| BlockCopy.Copy | src/data/host_parquet_representation_converters.cpp:271-278 | one copy between the cursors extends the copied run |

## Left out

- Shutdown of the cache, destructor order, promises, semaphores and waiting times: liveness and operating-system behaviour.
- The cache's request counters and time stamps: whether the worker skips or the evictor passes over an entry is left open, so the theorems hold for every outcome.
- `read_ranges`, object sizes, metadata and statistics of the cache: the same steps again, or counters.
- The pool's single-chunk `allocate`: the bulk form with one chunk.
- BufferPool.PoolObject.AllocateBulk: the counters are unbounded, not 32-bit, since a pool of 2^32 chunks is out of reach.
- CacheRead.Lookup: one look at the entry's state; the wait for an entry that is loading is not modelled.
- EvictionWalk.WalkEndsIff: the entries' staleness, intended buckets and chunk counts are read as fixed during one walk, and the demand is taken as unmet throughout; the same for EvictionOutcome.EndsIffNotDoomed.
- EvictionWalk.EvictInPlace: for demands and lists on which the walk stops, since the walk of the code does not end otherwise; EvictionOutcome.EndsIffNotDoomed says which lists stop it for every demand.
- Admission.AdmissionControl.Acquire: the waiting itself is not modelled; one look at the condition is one step, and a stopped wait is a step of its own.
- ConcatBatching.Concat.Pull: byte totals are unbounded, not 64-bit.
- ConcatBatching: the choice of `concat_all` from the join type, and the concatenation itself.
- Lowering by column names, and the ownership of literal scalars beside the tree.
- CASE, COALESCE, DISTINCT FROM, TRY, null constants and aggregates in lowering beyond their being rejected; the meaning of arithmetic, comparisons and casts, which are total parameters here.
- LoweringMeaning.Meaning: for expressions whose functions and casts SQL computes as the device library does; LoweringTheorems.CallAgreesIff and LoweringTheorems.CastAgreesIff say what happens otherwise. A cast or division that SQL answers with an error is not modelled.
- DuckDbRoundTrip.RoundTrip: which casts the host leaves out is a parameter; aggregates have no host form; text is taken to be valid UTF-8.
- SqlScan.RewriteCalls: characters are classified as in the C locale.
- Calendar.CivilIsDate: not for day counts above 2^31 - 1 - 719468, where the 32-bit shift overflows.
- Calendar.SplitRecombinesIff: not for the few raw values at the lower end of 64 bits where the subtraction before the division overflows.
- The padding and punctuation of printed timestamps.
- PipelineSchedule.Schedule: for plans on which the loop of the code ends, which PipelineSchedule.EndsIff characterizes.
- The `cudf_ast_op_count` gate, CUDA streams, device selection, network backends, configuration, the downgrade executor and the legacy allocators.
