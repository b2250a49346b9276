# TWIG key-value store: a Dafny model

TWIG is a cluster of key-value servers. Each server has a local cache, a slot store that its peers read
by one-sided RDMA, its own index from key to slot, and a possibly stale copy of every peer's index. A GET
is answered from the local cache, from a peer's slot after checking the key found there, or from disk. A
second component picks how much of each cache to devote to keys everybody holds ("local") and how much to
keys only one server holds ("remote"), from observed frequencies and latencies. The clients run a workload
between two barriers.

This project models those parts and proves what they promise. `dafny verify dfyconfig.toml` checks it.

| file | content |
|---|---|
| `ReadPath.dfy` | N servers as a state machine: GET, slot read, disk read, replies, puts, forwards, evictions, any index change |
| `ReadPathActions.dfy` | what each of its actions does, field by field |
| `ReadProgress.dfy` | when every GET of that state machine gets its answer, under any schedule |
| `IndexReplication.dfy` | the index object (`write_remote`, `dealloc_remote`, `update_local_key`) and, over all interleavings of callbacks, what damages a copy and what mends it |
| `IndexConvergence.dfy` | which stores, and which runs, let every copy converge |
| `IndexLog.dfy` | the circular index log: appends, shipping, draining, and what peers end up with |
| `TokenPool.dfy` | buffers and request tokens of asynchronous reads, in every thread interleaving |
| `ClientBarrier.dfy` | the barrier before and after the workload, over machines and threads |
| `BarrierPanic.dfy` | when that barrier can panic on sync messages alone |
| `BarrierFinish.dfy` | when it can still be completed |
| `ReplyQueues.dfy` | the server's outgoing queues |
| `Cdf.dfy`, `CdfProperties.dfy` | the bucketed frequency distribution and what it guarantees |
| `Watermark.dfy` | range totals, the score in 64-bit arithmetic, the exhaustive search |
| `HillClimb.dfy` | the hill climb |
| `Convexity.dfy` | the reference form of the optimiser, and why a local optimum is global there |
| `Partition.dfy`, `TextFiles.dfy`, `GreedyHeap.dfy` | work splitting, file round trips, the greedy allocator |
| `Common.dfy`, `Sorting.dfy`, `Decimal.dfy` | shared vocabulary, `std::sort`, decimal text |

How the models are built:

- Where threads or machines interleave, the model is a state machine whose steps are single queue
  operations, atomic counter operations or messages; results are about every state of every run. Atomics
  are sequentially consistent and concurrent queues are bags, or first-in-first-out where replies are sent.
- Loops and objects are methods and classes, each tied by its contract to a specification function or to
  the property outright.
- `BlockCache` and the slot store come from a library that is not part of this model. They appear as an
  `Effect` that a step may have: a pair is put in a slot or refused, keys are evicted, the database is
  updated.
- The mark of an absent key, `KEY_VALUE_PTR_INVALID`, is defined in that library too; it is taken to be the word of all ones.
- Keys are their numbers. Values in the read path have the fixed size the dataset gives them.
- Floating-point step sizes and comparisons of the hill climb are parameters: any ascending steps and
  any order-preserving rounding. The climb and the search are proved over any way of scoring a split, then
  applied to `calculate_performance`.

Where the code differs from what one would expect, the model follows the code:

- The repository's README describes a leader replicating writes to followers. The code has no such
  replication (`pass_write_to_server_request` is empty), so none is modelled.
- A range total covers the positions after its start up to and including its end
  (`RangeTotalIsLoopSum`), so position 0 is in no share (`SharesAddUp`).
- A log batch keeps its newest entry in slot 0, which peers apply first, so an older entry for the same
  key can win; `CopyIsCurrentExactlyWhen` says exactly when, and `NewestCanBeLost` shows a case.
- `update_local_key` writes at the key found rather than the key expected, so index copies can go wrong
  (`LocalDamage`, `LocalUpdateDiverges`). With three or more servers so they can where a key is stored while
  an eviction of it is between two peers (`DangerousStoreDiverges`); other overlaps of callbacks are harmless
  (`StoreIsHarmlessExactlyWhen`, `ConvergesExactlyWhen`). Replies stay right because of the key check.
- Where disk reads are asynchronous but `block_db.async` is off, their replies are queued and never sent
  (`UnpolledReplyIsStuck`); `AnswerableExactlyWhenPolled` makes polling the exact condition.
- The barrier tells rounds apart by nothing in its messages. With three or more client machines a leader can
  take a fast peer's message for the second barrier in the first and panic (`PanicReachableExactlyWhen`). A
  GET of a client discards any sync message it happens to poll, after which the barrier can never be
  completed (`DiscardedMessageIsStuck`, `CanFinishExactlyWhenClean`).
- A split of latency 0 is given score 0, so the search passes over the best split there could be
  (`ZeroLatencyIsPassedOver`).
- With one-sided RDMA but `RDMA_ASYNC` off, a miss is also answered from an unread buffer: a wrong value and a second
  reply. `CorrectExactlyWhenAsynchronous` makes that flag the exact condition.
- A node added to the allocator with no free places wraps around to 2^64 - 1 (`ZeroCountWraps`).
- The hill climb never ends when its smallest step rounds down to 0, unless it starts at watermark 0
  (`ClimbEndsExactlyWhen`, `ZeroStepNeverEnds`). Its last
  resort starts two percent up, does nothing at watermark 0, and the shrinking loop after it never runs.

## Model

| member | source | states |
|---|---|---|
| ReadPath.RepliesAreStoredValues | src/ldc.cpp:326-566 | in every run, whatever the index copies hold, a reply to a GET of a key carries a value stored for that key |
| ReadPath.WithoutPutsRepliesAreTheDatabase | src/ldc.cpp:380-443 | without put requests every reply is the database's value |
| ReadPath.EachGetIsAccountedForOnce | src/ldc.cpp:334-528 | received requests = sent replies + pending slot reads + disk reads + queued replies, as multisets, on every server in every state; misses = local disk + remote disk + RDMA hits + pending reads |
| ReadPath.QuietMeansAnswered | src/connection.cpp:493-521 | once nothing is pending or queued, each received GET has had exactly one reply |
| ReadPath.CorrectExactlyWhenAsynchronous | src/ldc.cpp:512-516 | stored values and single replies hold in all runs if and only if reads are asynchronous wherever one-sided RDMA is on |
| ReadPath.SynchronousRdmaAnswersTwice | src/ldc.cpp:512-516 | otherwise one GET already gets a value nobody stored and one reply too many |
| ReadPath.KeyCheckRoutes | src/ldc.cpp:463-503 | a finished slot read's request leaves the pending reads and joins exactly one place: with the key found, the RDMA replies with the value read; otherwise the disk queue, or the sent replies with the database's value |
| ReadProgress.EveryScheduleAnswers | src/ldc.h:401-416 | from any reachable state of a run over the program's sizes, however completions and sends are mixed with other steps than GETs, only finitely many can be taken, and once none is left each GET received has had exactly one reply |
| ReadProgress.AnswerableExactlyWhenPolled | src/connection.cpp:493-521 | in all such runs everything received can still be answered by completions and sends if and only if asynchronous disk reads imply a polled disk queue |
| ReadProgress.UnpolledDiskRepliesStay | src/connection.cpp:508-521 | without `block_db.async`, whatever steps follow a state, its queued disk replies stay queued |
| ReadProgress.UnpolledReplyIsStuck | src/connection.cpp:508-521 | a concrete run, one GET and its disk read, after which no continuation answers the GET |
| ReadProgress.WaitingAlwaysProgresses | src/ldc.h:401-416 | in any reachable state where something waits on a server, some completion or send is enabled |
| ReadPath.FindPeer | src/ldc.h:852-875 | the search yields the lowest-numbered peer whose index copy lists the key, and none only if no copy does |
| ReadPathActions.CachedGet | src/ldc.cpp:334-368 | a GET of a cached key appends the cached value to the replies and touches no other queue |
| ReadPathActions.MissReadsTheSource | src/ldc.cpp:446-518 | a miss that some index copy places posts one read, of the slot listed there, at the lowest-numbered such server, and counts no disk access |
| ReadPathActions.MissGoesToDisk | src/ldc.cpp:380-525 | any other miss counts a local disk access and is queued for the disk or answered with the database's value; it fails only where that is missing |
| ReadPathActions.HitQueuesTheValue | src/ldc.cpp:463-494 | a read that found its key queues the value, offers the pair unless the policy is static, and forwards a victim under N-chance only |
| ReadPathActions.VictimGoesToTheNextServer | src/ldc.cpp:468-486 | the victim goes to the next server round the ring, and is a pair this server held or was offered |
| ReadPathActions.MissFetchesAgain | src/ldc.cpp:496-503 | a read that found something else goes to disk without caching, and puts the own entry for the expected key into every other row at the key found |
| ReadPathActions.DiskDoneQueuesTheValue | src/ldc.cpp:404-420 | a disk read queues the database's value, and caches it only as asked and for keys in the server's range, or where pollution is allowed |
| ReadPathActions.PutStores | src/ldc.cpp:326-332 | an admitted pair is in the cache, in its slot and in the own index, what is evicted is in neither, and nothing else changes |
| ReadPathActions.LosesExactly | src/ldc.cpp:557-566 | deleting or evicting keys takes them, and no others, out of the cache and the own index |
| ReadPathActions.LandsThePeersSlot | src/ldc.h:401-416 | a read lands once, with what the peer's slot holds at that moment |
| ReadPathActions.ForwardsAreConserved | src/connection.cpp:523-537 | no step loses or doubles a forwarded pair, and only its target takes it in |
| ReplyQueues.Server.ExecutePendingOperations | src/connection.cpp:493-546 | the queues go out in order, disk replies only if polled, so that everything ever appended has been sent exactly once but for unpolled disk replies; it panics exactly on a polled reply that is not OK |
| ReplyQueues.SendsMatchTheLoop | src/connection.cpp:496-521 | the read path's send steps, in the loop's order, send what ExecutePendingOperations sends of the same queues |
| ReplyQueues.RepliesGoToTheirClients | src/connection.cpp:496-521 | each reply goes on the wire to the client and port of its own request, with its value |
| IndexReplication.CacheIndexes.WriteRemote | src/ldc.h:286-547 | one write per peer is posted for the key, each with a token of the object's own pool; it panics exactly when there is a peer and the own entry is invalid or there are fewer free tokens than peers |
| IndexReplication.CacheIndexes.DeallocRemote | src/ldc.h:286-591 | the own entry is cleared (if there is a peer) and one write per peer is posted; it panics exactly when there are fewer free tokens than peers |
| IndexReplication.CacheIndexes.ExecutePending | src/ldc.h:596-606 | afterwards every token of the pool is free again |
| IndexReplication.CacheIndexes.UpdateLocalKey | src/ldc.h:549-570 | every peer copy gets the own entry for the expected key, at the key found; nothing changes if none was found |
| IndexReplication.UndisturbedCallback | src/ldc.h:525-591 | a callback whose iterations nothing interrupts has the effect of write_remote or dealloc_remote in one call, and panics exactly on an invalid own entry with a peer to write to |
| IndexReplication.StepDamage | src/ldc.h:525-606 | a peer's entry is damaged if it will settle on another value than the owner's and no callback is left to mend it; each step changes damage exactly by a rule: storing, evicting and a callback coming by mend it, and what does it are local updates without a write under way and an eviction clearing a valid entry behind a captured one |
| IndexReplication.CopiesConvergeExactlyUnlessMarked | src/ldc.h:525-606 | in every state of every run, callbacks interleaved in any way: a peer's entry will be the owner's, or a callback is still to come, exactly where the rule has marked no damage |
| IndexReplication.DrainedEqualsExactlyUnlessMarked | src/ldc.h:596-606 | with no write under way and no callback to come, a peer's entry equals the owner's exactly where no damage is marked |
| IndexReplication.LocalDamage | src/ldc.h:549-570 | a local update at a settled key leaves it settled if and only if a write for the key is under way or the entry written is the owner's |
| IndexConvergence.StoreIsHarmlessExactlyWhen | src/ldc.h:525-591 | where all copies are converging, storing a key leaves them so, in whatever order all that is under way then settles, if and only if no eviction of the key is midway between two peers, or another one is still to come by all of them |
| IndexConvergence.StoreIsLearned | src/ldc.h:525-547 | a peer to which nothing is under way any more holds the slot stored, if no eviction of the key was under way |
| IndexConvergence.EvictionIsLearned | src/ldc.h:572-591 | and after an eviction it holds nothing for the key |
| IndexConvergence.ConvergesExactlyWhen | src/ldc.h:525-606 | every copy converges in every state of every run of n servers if and only if there are no local updates or n <= 1, and no such dangerous stores or n <= 2 |
| IndexConvergence.LocalUpdateDiverges | src/ldc.h:549-570 | for any n >= 2 a run that is drained and has a peer's entry wrong after a local update |
| IndexConvergence.DangerousStoreDiverges | src/ldc.h:525-591 | for any n >= 3 a run without local updates in which a store during an eviction leaves a peer with an entry the owner has cleared |
| IndexLog.CacheIndexLogs.AppendEntry | src/ldc.h:700-768 | the entry lands in its slot; the log is shipped exactly when slot 0 was written and a readiness round found no filled slot 0 |
| IndexLog.CacheIndexLogs.ReadyRound | src/ldc.h:714-740 | a round is ready exactly when no peer's slot 0 is filled, and the slots are untouched |
| IndexLog.Drain | src/ldc.h:676-693 | one worker pass applies the filled slots in slot order and clears them |
| IndexLog.SecondDrainIsIdle | src/ldc.h:676-693 | a second pass changes nothing |
| IndexLog.FlushCarries | src/ldc.h:700-758 | flush m >= 1 carries exactly entries (m-1)*max+1 .. m*max, the newest in slot 0 |
| IndexLog.FlushSource | src/ldc.h:700-758 | slot j of flush m holds entry (m-1)*max+j, slot 0 entry m*max, and the first flush nothing but entry 0 |
| IndexLog.EachEntrySentOnce | src/ldc.h:705-758 | no entry is in two slots of all the logs shipped |
| IndexLog.ShippedExactlyUpToLastFlush | src/ldc.h:705-758 | an entry is in some shipped log exactly if a flush has come at or after it |
| IndexLog.AtMostMaxUnsent | src/ldc.h:705-710 | at any time at most max-1 entries are in no shipped log |
| IndexLog.DrainOrder | src/ldc.h:676-691 | draining applies the newest entry first, then the others in append order |
| IndexLog.CopyIsCurrentExactlyWhen | src/ldc.h:662-696 | after flush m a copy has the last entry for a key if and only if, in the last flush mentioning the key, the newest entry was not overtaken |
| IndexLog.NoRepeatsMeansEqual | src/ldc.h:662-696 | if no batch repeats its slot-0 key, every copy equals the last entry per key |
| IndexLog.NewestCanBeLost | src/ldc.h:676-691 | a concrete log after which the peer keeps an outdated entry |
| TokenPool.SlotReadsNeverOutOfTokens | src/ldc.h:209-210 | with the program's pool sizes no interleaving of any number of threads runs out of tokens |
| TokenPool.OutOfTokensExactlyWhenFewer | src/ldc.h:286-295 | the panic is reachable if and only if there are fewer tokens than buffers |
| TokenPool.TokensWithinBuffers | src/ldc.h:381-416 | held tokens <= held buffers <= pool size, and free tokens are exactly those not held |
| TokenPool.BuffersAreExclusive | src/ldc.h:381-416 | no buffer is free and pending at once, and no two pending reads share a buffer or a token |
| TokenPool.CallbacksSeeTheirOwnRead | src/ldc.h:401-416 | every callback is handed the data of its own read |
| TokenPool.EachReadIsCalledBackOnce | src/ldc.h:381-416 | in every run the reads begun are those still under way in a thread or the pending queue and those called back, each once |
| TokenPool.QuietMeansCalledBack | src/ldc.h:401-416 | with all threads idle and nothing pending, each read begun has had exactly one callback |
| TokenPool.EveryReadCanBeCalledBack | src/ldc.h:381-416 | from every state of every run, with a thread and no fewer tokens than buffers, all reads under way can be brought to their callbacks without beginning another |
| ClientBarrier.NobodyWorksBeforeAllReady | src/ldc.cpp:109-128 | no thread works before every thread of every client machine is ready |
| ClientBarrier.NobodyLeavesBeforeAllDone | src/ldc.cpp:192-208 | no thread passes the final barrier before every thread everywhere has finished its work |
| ClientBarrier.RoundNeedsEveryPeer | src/connection.cpp:273-315 | a leader past a round has consumed that round's message from every peer, although GETs may discard sync messages |
| ClientBarrier.WhoConsumes | src/connection.cpp:273-315 | a sync message is consumed only by a leader that has sent to every peer and has polls left, or discarded by a GET of the workload |
| ClientBarrier.SyncEndsWellExactlyWhenHeardOnce | src/connection.cpp:298-315 | in every run, a sync ends without panic if and only if in that round it consumed exactly one message per peer |
| ClientBarrier.ReceiveRound | src/connection.cpp:298-315 | a sync ends without panic exactly when every poll was a sync request and each peer was heard once |
| BarrierPanic.PanicReachableExactlyWhen | src/connection.cpp:298-315 | where leaders poll nothing but sync messages, even if GETs discard some, the panic is reachable if and only if there are at least three client machines |
| BarrierPanic.ThreeMachinesCanPanic | src/connection.cpp:298-315 | for any n >= 3 a run in which a leader takes a fast peer's second message for a slow peer's first |
| BarrierFinish.CanFinishExactlyWhenClean | src/connection.cpp:273-315 | in every state of every run, with any number of machines and threads, every thread can still reach the end if and only if each message consumed so far has been counted for its sender and no poll of a present sync was wasted |
| BarrierFinish.DiscardedMessageIsStuck | src/connection.cpp:184-194 | for any n >= 2 a run in which a GET discards a peer's message and the barrier can no longer be completed |
| BarrierFinish.WastedPollIsStuck | src/connection.cpp:298-315 | for any n >= 2 a run in which a leader polls something else and the barrier can no longer be completed |
| Cdf.GetAndSortFreq | src/access_rate_calculations.cpp:7-126 | the result is the specified regrouping of the ranking, with its running totals |
| Cdf.AppendMissing | src/access_rate_calculations.cpp:56-70 | exactly the absent keys are appended, in ascending order, with frequency 0 |
| Cdf.BuildBuckets | src/access_rate_calculations.cpp:81-94 | a bucket holds the contiguous stretch of the ranking with its percentile |
| Cdf.EmitBuckets | src/access_rate_calculations.cpp:99-114 | buckets come out in ascending order, ids descending, with running totals |
| Cdf.AtMostTotalKeys | src/access_rate_calculations.cpp:45-49 | the resize never drops a key |
| CdfProperties.EveryKeyOnce | src/access_rate_calculations.cpp:28-70 | the output lists every key 1..total_keys exactly once, with the given frequencies |
| CdfProperties.BucketsAscendTo100 | src/access_rate_calculations.cpp:88-114 | bucket ids never decrease and end at 100 |
| CdfProperties.BucketOrder | src/access_rate_calculations.cpp:96-114 | earlier buckets are at least as frequent; ids strictly descend inside a bucket |
| CdfProperties.TiesAndAbsentees | src/access_rate_calculations.cpp:40-70 | of two given keys with equal frequency the one in the earlier bucket has the larger text; no absent key is in an earlier bucket than a given one |
| CdfProperties.CutOffSplitsTheKeys | src/access_rate_calculations.cpp:260-273 | exactly the keys before a position are in an earlier bucket than its key, or in its bucket with a larger id |
| CdfProperties.SumsHoldRunningTotals | src/access_rate_calculations.cpp:107-113 | the map holds each key's inclusive running total and bucket |
| CdfProperties.PrefixesNeverExceedRanking | src/access_rate_calculations.cpp:96-114 | reordering never raises a running total and restores it at each bucket end |
| CdfProperties.BucketLabelsAreHonest | src/access_rate_calculations.cpp:83-114 | the true percentile of a position lies between the previous bucket and its own, and equals it at the bucket's end |
| CdfProperties.BuiltCdfServesTheOptimiser | src/access_rate_calculations.cpp:139-157 | what is built meets the lookups' needs, and keeps the total frequency |
| Watermark.SumLoop | src/testing_optimization.cpp:86-94 | the loop returns the total of positions start..end-1 |
| Watermark.RangeTotalIsLoopSum | src/access_rate_calculations.cpp:139-165 | the difference of running totals never underflows and is the plain sum of positions start+1..end after clamping |
| Watermark.RangeTotalIsPlainSum | src/access_rate_calculations.cpp:139-165 | the range total is the sum of the frequencies at positions start+1..end; positions past the last count as the last |
| Watermark.RangeTotalsAdd | src/access_rate_calculations.cpp:139-165 | adjacent ranges add up |
| Watermark.SharesAddUp | src/access_rate_calculations.cpp:178-182 | local + remote + disk accesses = total frequency less that of position 0 |
| Watermark.PerformanceIsExact | src/access_rate_calculations.cpp:173-200 | if the load fits, no operation wraps and the score is the quotient by the exact latency |
| Watermark.EachShareHasItsRate | src/access_rate_calculations.cpp:183-187 | a local access costs a cache access, a disk access a disk access, and three remote ones two RDMA reads and a cache access |
| Watermark.ScoreFromFrequencies | src/access_rate_calculations.cpp:173-200 | the score of a split, from the frequencies at its positions alone |
| Watermark.RemoteCostRounding | src/access_rate_calculations.cpp:184-185 | the floored remote cost is below the exact one by at most two thirds of (rdma + cache) |
| Watermark.FindOptimal | src/access_rate_calculations.cpp:219-273 | the smallest split of maximal score, on the budget line, with the frequency, bucket and key at its position as cut-offs, or all ones at watermark 0 |
| Watermark.SearchBudgetLine | src/access_rate_calculations.cpp:231-252 | for any scoring of splits: the smallest local of maximal score among all on the budget line, with no wrapped candidate |
| Watermark.ChosenLatencyIsNearMinimal | src/access_rate_calculations.cpp:188-193 | with best score p, chosen latency * p <= another candidate's latency * (p+1) if and only if that latency is not 0 or the chosen one is |
| Watermark.ZeroLatencyIsPassedOver | src/access_rate_calculations.cpp:188-193 | a split of latency 0 scores below every split that has a latency |
| HillClimb.GetBestAccessRates | src/access_rate_calculations.cpp:330-566 | with a smallest step of at least 1, or from watermark 0, it ends on the budget line with a true score: at a better split that no scored step beats, or, where the start is one, at the best of the whole-percent watermarks above it; with that position's cut-offs |
| HillClimb.Climb | src/access_rate_calculations.cpp:359-446 | the improvement loop ends with no scored step up or first step down that beats the result |
| HillClimb.TryIncreasing | src/access_rate_calculations.cpp:367-404 | a round either strictly improves at a larger watermark or shows no candidate step beats the start |
| HillClimb.TryDecreasing | src/access_rate_calculations.cpp:405-443 | the result is the best of all watermarks scanned, and the scan stopped at the end of the budget or at a drop |
| HillClimb.FinalIncrease | src/access_rate_calculations.cpp:450-496 | the result is the best of the watermarks from two steps up on, and nothing is tried at watermark 0 |
| HillClimb.BudgetOrWrap | src/access_rate_calculations.cpp:466-469 | an overdrawn budget wraps to at least the cache size, so the guard catches it |
| HillClimb.PositiveStepEnds | src/access_rate_calculations.cpp:409-442 | with a step of at least 1 the shrinking pass ends |
| HillClimb.ZeroStepNeverEnds | src/access_rate_calculations.cpp:409-442 | with a step of 0 every iteration repeats the same state |
| HillClimb.ClimbEndsExactlyWhen | src/access_rate_calculations.cpp:359-446 | the improvement loop ends if and only if its smallest step is not 0 or it starts at watermark 0 |
| HillClimb.ClimbAndSearch | src/access_rate_calculations.cpp:219-566 | from any start on the budget line, start's score <= climb's score <= exhaustive search's score |
| Convexity.SortKeysByFrequency | src/testing_optimization.cpp:28-44 | each distinct key once with its number of occurrences, most frequent first |
| Convexity.CalculatePerformance | src/testing_optimization.cpp:96-111 | the score is the integer quotient by the linear latency |
| Convexity.SlopeIsDifference | src/testing_optimization.cpp:96-111 | what one more local key changes, along the budget line |
| Convexity.SlopesAscend | src/testing_optimization.cpp:96-111 | the latency is convex along remote = C - 3*local |
| Convexity.LocalOptimumIsGlobal | src/testing_optimization.cpp:96-111 | a split neither neighbour beats has the least latency on the whole budget line |
| Convexity.ScoreOptimumIsGlobal | src/testing_optimization.cpp:125-212 | a split neither neighbour outscores has the highest rounded score on the whole line, if no smaller latency has its score |
| Convexity.SmallIsSharp | src/testing_optimization.cpp:106-107 | which holds for all latencies up to 2^32 |
| Convexity.PlateauTraps | src/testing_optimization.cpp:106-107 | and without which a concrete plateau hides a better split |
| Partition.DivideOperationSetPerThread | src/operations.cpp:410-436 | the running offset yields the closed form's chunks for every positive thread count, and an error otherwise |
| Partition.ChunksConcatenate | src/ldc.cpp:93-104 | the chunks put together are the input |
| Partition.ChunksAreBalanced | src/ldc.cpp:93-104 | chunk sizes differ by at most one |
| Partition.LongerChunksComeFirst | src/ldc.cpp:93-104 | the chunks with one element more come first, as many as the remainder |
| TextFiles.DumpOperationSetToFile | src/operations.cpp:438-453 | one line per operation, in order |
| TextFiles.LoadOperationSetFromFile | src/operations.cpp:455-473 | the operations read until the first failed extraction; none from a file that does not open |
| TextFiles.LoadsBackExactlyWhenLoadable | src/operations.cpp:438-473 | a dumped list loads back unchanged if and only if keys are non-empty and free of white space, nodes are ints and op characters are not white space |
| TextFiles.LoadStopsAtTheFirstBadLine | src/operations.cpp:455-473 | after any dumped list, text that lacks a key, a number in range or an operation character ends the list, and nothing after it is read |
| TextFiles.CreateAndWriteDataset | src/dataset.cpp:35-61 | one row per key 1..n, all with the value spelt by the given letters |
| TextFiles.ReadKeysFromFile | src/dataset.cpp:6-32 | the first word of every line that has one |
| TextFiles.DatasetReadsBack | src/dataset.cpp:6-61 | a written dataset reads back as "1".."n" in order |
| TextFiles.RowHoldsKeyAndValue | src/dataset.cpp:35-61 | each row reads back as its key, then the dataset's value |
| TextFiles.IntsAreRead | src/operations.cpp:455-473 | an extraction reads an optional sign and digits, and fails exactly on values that do not fit |
| TextFiles.KeysLineByLine | src/dataset.cpp:6-32 | each line of a key file gives its first word, a blank one none |
| GreedyHeap.MaxHeap.GetNode | src/heap.h:29-43 | a fullest node loses one place and its index is returned, None exactly on an empty queue; however adds and draws are mixed, what was added is still to be drawn or has been, once |
| GreedyHeap.KeptByDraw | src/heap.h:24-43 | drawing from any node keeps the history invariant, zero counts and their wrap-around included: each index's places still in the queue and its returns so far make up what was added for it |
| GreedyHeap.ExactlyTheLoadIsDrawn | src/heap.h:24-43 | exactly the load's number of draws succeed and each index is returned as often as its share |
| GreedyHeap.LoadIsSumExactlyWhenPositive | src/heap.h:37-40 | the load is the sum of the added counts if and only if none is zero |
| GreedyHeap.ZeroCountWraps | src/heap.h:37-40 | a node added with count 0 stands for 2^64 draws |
| GreedyHeap.DrawsAreFair | src/heap.h:29-43 | after any draws a node drawn from has at least the current maximum less one |
| Sorting.SortByCorrect | src/access_rate_calculations.cpp:40 | a sort returns a permutation in the comparator's order |

## Left out

- BlockCache and its policies: the library is not part of this model; a step's `Effect` lets the cache admit, place, refuse and evict freely.
- RDMA verbs, Machnet, Cap'n Proto, device discovery, core binding, server setup: foreign calls; a slot read is atomic and slot numbers stay inside the peer's store.
- One-sided RDMA without cache indexing (`read_correct_node`, the operation ring in `async_rdma.h`): a separate path with its own buffers.
- Values shorter or longer than VALUE_SIZE: the slot store's padding and truncation are in the library.
- Counter resets at warm-up, snapshots, latency files, logging, timers and `g_stop`: reporting and shutdown; the miss equation is for runs without the reset.
- ReadPath.EachGetIsAccountedForOnce: counters are unbounded, so 64-bit wrap-around of statistics is not modelled.
- IndexLog.CopyIsCurrentExactlyWhen: takes appends as sequential and each shipped log as drained once before the next; the program's readiness wait does not establish that.
- What follows a panic of `write_remote`, on an entry cleared meanwhile or for want of tokens: the program ends there, and so does the run; whether tokens suffice depends on how often `execute_pending` is called.
- Progress of requests for keys outside the database or the index: the program panics or reads out of bounds there, so the runs of `ReadProgress.dfy` have none.
- Integer overflow of running totals: `GetAndSortFreq` and the optimiser take totals that fit in 64 bits; the score itself is modelled with wrap-around.
- A total frequency of zero, and a reference-form latency of zero: the program divides by zero there, so both are preconditions.
- Exact float values of the hill climb's percentages and comparisons: replaced by arbitrary steps and an arbitrary order-preserving rounding.
- The hill climb and the numeric optimiser in `testing_optimization.cpp`, and `test_cdf.cpp`: experimental variants of what is modelled.
- `calculateNodeAndOffset`, workload generators, parsing of configuration files: easy arithmetic, randomness, or foreign formats.
- Delete requests from write callbacks: that callback is registered under a condition that is always false; deletions themselves are steps of the read path.
