# Verified models of five stateful components

This project models, in Dafny, five components of an incremental-computation engine's
input and output adapters and of its buffer cache, and proves what they promise over all
inputs, all runs and all interleavings:

1. **Input ingestion** (`Buffers.dfy`, `InputQueue.dfy`, `InputQueueDrain.dfy`,
   `InputQueueSteps.dfy`). Producers append entries made of a buffer, transaction marks and
   auxiliary data; one flusher drains them in steps under a record limit and puts a partly
   taken buffer back at the front. The main result is schedule independence: the log of start,
   record and commit events, followed by the meaning of what is still queued, is always the
   meaning of everything pushed, whatever the limits, stop marks and interleaved pushes are.
   How far each step and each flush gets is determined as well: which entries it handles, and
   the only reasons for it to end.
2. **Stream splitting** (`StreamSplitter.dfy`, `PreprocessedParsers.dfy`). A byte buffer
   that is compacted in place refines "the stream so far, cut into consecutive chunks".
3. **Concurrent utilities** (`JobQueue.dfy`, `TokenBucket.dfy`, `RateLimits.dfy`,
   `RateReports.dfy`, `RateWindows.dfy`). A worker pool with in-order consumption, and a
   lock-free rate limiter, both as transition systems with one step per channel operation or
   atomic operation.
4. **Weighted LRU cache** (`LruLists.dfy`, `LruCache.dfy`, `CacheBuilder.dfy`). Two maps and a
   running cost refine a recency list; eviction, inclusion between two capacities, and the
   charge over whole runs are proved about that list.
5. **Output cursors** (`Cursors.dfy`, `PartitionedOutput.dfy`). Key-range partitions and the
   pass over deletions followed by the pass over insertions visit every record of nonzero weight
   exactly once, one partition after the other or in parallel.

`Arithmetic.dfy`, `Sequences.dfy` and `Options.dfy` hold facts and types that all of them use.

Code that changes state in place is a class or a method with loops, proved against a
specification function on values; the whole-run results are lemmas about those functions.
Concurrent producers of the input queue appear as `arrivals`: the entries pushed before and
after each time the flusher takes the lock.

## Where code and documentation disagree

The model follows the code. Each disagreement is proved, with the exact condition under which
the documented promise does hold.

- A vector of buffers is documented to conserve bytes in `take_some`
  (crates/adapterlib/src/format.rs:125-132). The test at line 257 also counts an element that
  was only partly taken, and the drain at line 265 then drops its unread rest:
  `TakeSomeCanLose`. One call conserves records exactly when its limit does not fall inside one
  of the nonempty elements that the vector starts with (`VecTakeConserves`). It conserves bytes
  exactly when every element it drains has no bytes or is taken whole (`VecTakeBytes`). All
  sequences of calls conserve records exactly when every prefix of the vector holds at most as
  many records as elements (`LosslessIffLight`), and bytes under the same condition when an element
  has bytes exactly if it has records (`BytesIffLight`). `FaithfulIffLossless` carries this to the
  queue: a list of entries has the same history under all splitting steps exactly when all its
  buffers are of that kind. Flushes of whole buffers need no such condition (`FlushOnlyRuns`).
- A flush with auxiliary data is documented to stop after enough records or at a stop mark
  (crates/adapterlib/src/transport.rs:397-402). A commit ends it as well: `CommitEndsFlush`. With
  nothing pushed meanwhile, the documented reasons and an empty queue are the only ones, for all
  limits and stop marks, exactly when commits come last in the queue (`DocumentedEndsIff`);
  `FlushReaches` has all reasons, for any pushes.
- The parser behind a streaming preprocessor is documented to need several outputs for one record
  at times (docs.feldera.com/docs/sql/udf.md:740-742). It treats every output as the end of the
  input (crates/adapterlib/src/format.rs:398), so a line that arrives in two outputs is cut:
  `CutLine`. All chunks are whole lines exactly when no output stops within a line
  (`LinesWholeIff`).
- The refill interval of a token bucket is documented as positive
  (crates/adapters/src/util.rs:555-556). It is zero for a window below a millisecond, and the
  division then panics: `IntervalPositive`, `PanicIff`.
- A rate limiter is documented to allow at most `max_tokens` events per window
  (crates/adapters/src/util.rs:639-640). Because refill is lazy, twice as many can be allowed
  at one instant: `BurstOfTwice`. `DocumentedLimitIff` says when the documented limit holds. The
  limit that does hold is `WindowBound` for checks one after the other, and
  `InterleavedWindowBound` for concurrent ones; at one instant both are reached.
- The suppression counters are documented as updated correctly by concurrent checks
  (crates/adapters/src/util.rs:504-508). Counts are, check by check (`ReportsCount`) and in total
  (`SuppressionsAccounted`), and the reported times are in sequential runs (`ReportsTruthful`).
  Under interleaving a check can report a time at which nothing was suppressed: `WrongReportIff`
  says for which buckets, and `ApartReportsTrue` gives a condition on the schedule under which the
  times are those of the suppressions that are reported.
- The polarity cursor is documented to iterate over all deletions in the batch before insertions
  (crates/adapterlib/src/catalog.rs:715-725). It does so for its own range (`CursorPolarity`);
  `BatchDeletesFirstIff` says when the partitions of a batch together do, and `BatchDeletesLate` is
  the smallest batch for which they do not.
- A partition index past the last one is not rejected and yields the whole batch:
  `StrayIndexCoversAll`.

## Model

| member | source | states |
|---|---|---|
| `Buffers.Fraction` | crates/adapters/src/static_compile/deinput.rs:601-610 | the share of the bytes lies between nothing and everything, and is everything when all records go |
| `Buffers.Take` | crates/adapters/src/static_compile/deinput.rs:492-508 | a leaf splits its records into a prefix of the asked length and the rest, and its bytes without loss |
| `Buffers.TakeShare` | crates/adapters/src/static_compile/deinput.rs:492-508 | the bytes that go with the records taken are their share of the bytes, rounded down |
| `Buffers.VecBuffer.TakeSome` | crates/adapterlib/src/format.rs:245-271 | the loop with its drain returns and leaves what the sweep over the elements returns and leaves |
| `Buffers.SweepSplits` | crates/adapterlib/src/format.rs:250-264 | before the drain, the first min(n, total) records are taken in order and nothing is lost, in records or bytes |
| `Buffers.VecTakeConserves` | crates/adapterlib/src/format.rs:125-132 | a call returns the first min(n, total) records; records are conserved if and only if the limit does not cut a leading nonempty element |
| `Buffers.VecTakeLoses` | crates/adapterlib/src/format.rs:257-265 | when it cuts, one element gives only m of its records and the others are lost; later elements are intact; how many bytes are returned |
| `Buffers.VecTakeBytes` | crates/adapterlib/src/format.rs:125-132 | bytes are conserved if and only if each of the first k elements has no bytes or is taken whole, k being the number of nonempty elements the call reaches; they never grow |
| `Buffers.UncutKeepsBytes` | crates/adapterlib/src/format.rs:125-132 | when no element has bytes without records, a call that does not cut conserves bytes |
| `Buffers.TakeAllNeverCuts` | crates/adapterlib/src/format.rs:135-137 | taking everything loses nothing |
| `Buffers.TakeSomeCanLose` | crates/adapterlib/src/format.rs:255-265 | the smallest loss, of a record and of a byte: one element of two records, one asked for |
| `Buffers.LosslessIffLight` | crates/adapterlib/src/format.rs:245-271 | every sequence of calls is lossless if and only if no prefix of the vector has more records than elements |
| `Buffers.LightKept` | crates/adapterlib/src/format.rs:245-271 | no call cuts such a vector, and it leaves one |
| `Buffers.HeavyLoses` | crates/adapterlib/src/format.rs:245-271 | any other vector loses records when records are taken one at a time |
| `Buffers.BytesIffLight` | crates/adapterlib/src/format.rs:125-132 | when each element has bytes if and only if it has records, every sequence of calls conserves bytes if and only if no prefix of the vector has more records than elements |
| `InputQueues.InputQueue.constructor` | crates/adapterlib/src/transport.rs:344-350 | the queue starts empty with no transaction open |
| `InputQueues.InputQueue.PushEntries` | crates/adapterlib/src/transport.rs:352-370 | entries join the end of the queue and nothing else changes |
| `InputQueues.InputQueue.Start` | crates/adapterlib/src/transport.rs:493-504 | tells the start only if no transaction is open, and reports whether it did |
| `InputQueues.InputQueue.Commit` | crates/adapterlib/src/transport.rs:506-517 | tells the commit only if a transaction is open, and reports whether it did |
| `InputQueues.InputQueue.Queue` | crates/adapterlib/src/transport.rs:535-591 | the splitting loop reaches the state and the total of the splitting step, for every interleaving of pushes |
| `InputQueues.InputQueue.HandleEntry` | crates/adapterlib/src/transport.rs:552-588 | one popped entry: marks, the part that fits, the rest put back without start mark and with commit mark |
| `InputQueues.InputQueue.FlushWithAuxUntil` | crates/adapterlib/src/transport.rs:409-483 | both loops reach the state, total and auxiliary data of the flush of whole buffers |
| `InputQueues.InputQueue.FlushBuffers` | crates/adapterlib/src/transport.rs:420-450 | the first loop, which takes the lock once per entry |
| `InputQueues.InputQueue.ApplyEntry` | crates/adapterlib/src/transport.rs:432-449 | one whole entry, and whether it committed |
| `InputQueues.HandleGood` | crates/adapterlib/src/transport.rs:552-588 | one entry of a splitting step keeps the log consistent with what was pushed, also when the rest goes back |
| `InputQueues.QueueKeeps` | crates/adapterlib/src/transport.rs:535-591 | splitting steps keep it, under every interleaving of pushes |
| `InputQueues.FlushKeeps` | crates/adapterlib/src/transport.rs:420-450 | flushing whole buffers keeps it for any buffers, under every interleaving of pushes |
| `InputQueues.AuxKeeps` | crates/adapterlib/src/transport.rs:452-480 | entries with auxiliary data only keep it, for any buffers behind them |
| `InputQueues.RunMeaning` | crates/adapterlib/src/transport.rs:352-591 | in every run of pushes, splitting steps and flushes, the log followed by the meaning of the queue is the meaning of all pushes; only splitting steps need lossless buffers, in the queue when they start and among what arrives meanwhile |
| `InputQueues.ScheduleIndependence` | crates/adapterlib/src/transport.rs:352-591 | two such runs with the same pushes tell the circuit the same history, up to how far they got, and the same history when both queues are empty |
| `InputQueues.FlushOnlyRuns` | crates/adapterlib/src/transport.rs:385-395 | runs that only flush whole buffers are such runs, whatever the buffers are |
| `InputQueues.LosslessRuns` | crates/adapterlib/src/transport.rs:535-591 | runs that push only lossless buffers are such runs, whatever the steps are |
| `InputQueues.RunAlternates` | crates/adapterlib/src/transport.rs:493-517 | over all calls of every run, with any buffers, starts and commits strictly alternate |
| `InputQueues.QueueDiscipline` | crates/adapterlib/src/transport.rs:540-590 | a splitting step tells at most n records, reports exactly how many, and tells none after a commit |
| `InputQueues.FlushDiscipline` | crates/adapterlib/src/transport.rs:397-402 | a flush consumes entries in order and none after a stop mark, flushes a buffer only while fewer than n records are flushed, reports exactly how many it told, and tells none after a commit |
| `InputQueueDrain.StepProgress` | crates/adapterlib/src/transport.rs:561-577 | a step on a nonempty queue makes progress if and only if the front entry is not a buffer with bytes but no records |
| `InputQueueDrain.StepsDrain` | crates/adapterlib/src/transport.rs:535-591 | enough steps with positive limits empty the queue, whatever the limits are |
| `InputQueueDrain.HeavyQueueLoses` | crates/adapterlib/src/transport.rs:562-577 | with a buffer that is not lossless, some sequence of steps loses a record |
| `InputQueueDrain.FaithfulIffLossless` | crates/adapterlib/src/transport.rs:535-591 | the history is the same under all step limits if and only if all buffers are lossless |
| `InputQueueSteps.StepOutcome` | crates/adapterlib/src/transport.rs:540-590 | for any buffers and pushes, a step handles entries in order while it has room and none after a commit mark, tells exactly their first n records, puts back what is left of the last one, and ends only for lack of room, at a commit mark, at an empty queue, or at a buffer with only bytes left |
| `InputQueueSteps.StepTells` | crates/adapterlib/src/transport.rs:540-590 | when no buffer has bytes without records, a step tells the first n records of the entries up to the next commit mark, counting entries that arrive meanwhile, and reports how many |
| `InputQueueSteps.FlushReaches` | crates/adapterlib/src/transport.rs:397-483 | for any buffers and pushes, a flush goes on to its limit, a stop mark, a commit or the end of the queue, and then over entries without buffer to a stop mark, a commit, a buffer or the end of the queue; which entries each loop consumes, and the records told |
| `InputQueueSteps.FlushReachesLimit` | crates/adapterlib/src/transport.rs:397-402 | unless it consumes a commit mark, a flush ends only at its limit, at a stop mark, or with an empty queue |
| `InputQueueSteps.DocumentedEndsIff` | crates/adapterlib/src/transport.rs:397-402 | with nothing pushed meanwhile, all flushes of a queue end at the limit, at a stop mark or with an empty queue if and only if after an entry that commits comes no buffer, and no other that commits except as the last |
| `InputQueueSteps.CommitEndsFlush` | crates/adapterlib/src/transport.rs:447-449 | the smallest case in which one does not: the first of two entries commits |
| `StreamSplitters.StreamSplitter.constructor` | crates/adapterlib/src/format.rs:522-540 | a new splitter has received nothing |
| `StreamSplitters.StreamSplitter.NextChunk` | crates/adapterlib/src/format.rs:545-567 | the chunk and the offsets are those of the view of the stream, with and without the end of the input |
| `StreamSplitters.StreamSplitter.Append` | crates/adapterlib/src/format.rs:570-581 | compaction and resizing amount to appending to the stream |
| `StreamSplitters.StreamSplitter.MakeRoom` | crates/adapterlib/src/format.rs:592-604 | compaction changes nothing of the view and leaves space to read into; a buffer full of data grows to twice its capacity, at least to the given size |
| `StreamSplitters.StreamSplitter.Read` | crates/adapterlib/src/format.rs:586-616 | a read appends all the file has, up to `limit` and to the end of the buffer, and something if there is something; a failed read changes nothing of the view |
| `StreamSplitters.StreamSplitter.Position` | crates/adapterlib/src/format.rs:620-622 | the position is the seek offset plus what was returned since |
| `StreamSplitters.StreamSplitter.Seek` | crates/adapterlib/src/format.rs:626-631 | a seek forgets the stream and clears the splitter |
| `StreamSplitters.Next` | crates/adapterlib/src/format.rs:542-567 | chunks are nonempty, start where the last one ended, and after none at the end of the input nothing is left |
| `StreamSplitters.CallsFaithful` | crates/adapterlib/src/format.rs:545-631 | after every sequence of calls the chunks join to the stream up to the position, and the splitter accepted the stream up to its offset without gap or repeat |
| `StreamSplitters.FeedJoins` | crates/adapterlib/src/format.rs:545-581 | appending part after part and draining after each returns the stream between the old and the new position |
| `StreamSplitters.LineInput` | crates/adapters/src/format.rs:86-91 | the split is just behind the last newline, or there is none |
| `StreamSplitters.ConcreteSplittersLegal` | crates/adapters/src/format.rs:70-94 | both concrete splitters make nonempty splits within the data |
| `StreamSplitters.LinesIndependentOfArrival` | crates/adapters/src/format.rs:79-91 | however the bytes arrive, the position ends up behind the last newline, and exactly the complete lines were returned |
| `PreprocessedParsers.StreamingParser.ParseOutput` | crates/adapterlib/src/format.rs:389-410 | terminates, hands the inner parser, which keeps its own state, the chunks of the preprocessor's output in order, and returns all its buffers and errors in order |
| `PreprocessedParsers.MessageParser.ParseOutput` | crates/adapterlib/src/format.rs:447-473 | the same with a splitter that starts cleared |
| `PreprocessedParsers.ChunksJoin` | crates/adapterlib/src/format.rs:395-404 | the chunks are nonempty and join to the preprocessor's output |
| `PreprocessedParsers.ChunksAtSplits` | crates/adapterlib/src/format.rs:453-467 | each chunk ends where the splitter, in the state it is in then, puts its split; only the last may end without one |
| `PreprocessedParsers.GatheredInOrder` | crates/adapterlib/src/format.rs:396-409 | the buffers and errors returned are those the inner parser makes of all chunks, in chunk order, and it is left in the state the last chunk leaves it in |
| `PreprocessedParsers.ParsersAgree` | crates/adapterlib/src/format.rs:453-467 | with a stateless splitter both parsers hand over the same chunks, on every call |
| `PreprocessedParsers.CallsAgree` | crates/adapterlib/src/format.rs:389-473 | over every sequence of calls both return the same buffers and errors and leave their inner parsers in the same states |
| `PreprocessedParsers.OutputChunks` | crates/adapterlib/src/format.rs:395-404 | with the line splitter, an output is handed over as its complete lines and then what follows the last newline |
| `PreprocessedParsers.LinesWholeIff` | crates/adapterlib/src/format.rs:395-404 | with the line splitter, over a sequence of outputs all chunks are whole lines if and only if every output is empty or ends in a newline |
| `PreprocessedParsers.CutLine` | crates/adapterlib/src/format.rs:398-398 | the smallest case in which they are not: a line that arrives in two outputs |
| `JobQueues.RunInv` | crates/adapters/src/util.rs:270-351 | every interleaving keeps the invariant on channels, workers, consumer and producer |
| `JobQueues.ConsumedInOrder` | crates/adapters/src/util.rs:288-345 | in every interleaving the consumed values are the worker function mapped over a prefix of the jobs, in push order |
| `JobQueues.FlushIsBarrier` | crates/adapters/src/util.rs:348-351 | when a flush can return, every earlier job is consumed, and the acknowledgement is its own |
| `JobQueues.InFlightBound` | crates/adapters/src/util.rs:280-286 | jobs sent and not consumed never exceed 2n+3 |
| `JobQueues.InFlightBoundReached` | crates/adapters/src/util.rs:280-286 | for every n the bound is reached |
| `JobQueues.UndoneBound` | crates/adapters/src/util.rs:274-278 | jobs that wait for a worker or are worked on never exceed 2n |
| `JobQueues.UndoneBoundReached` | crates/adapters/src/util.rs:274-278 | for every n there is a run in which all workers are busy and as many jobs wait |
| `JobQueues.NeverStuck` | crates/adapters/src/util.rs:288-326 | with a worker, a state with unconsumed jobs or an unfinished call is never stuck |
| `JobQueues.InternalDecreases` | crates/adapters/src/util.rs:288-326 | every step that is not a new call decreases a measure |
| `JobQueues.EveryRunSettles` | crates/adapters/src/util.rs:288-351 | every run can be completed without new calls, and then all its jobs are consumed in order and all calls returned |
| `TokenBuckets.IntervalPositive` | crates/adapters/src/util.rs:478-490 | the interval is the window divided by the tokens, rounded up, and positive if and only if there are no tokens or the window is at least a millisecond |
| `TokenBuckets.ConsumedBound` | crates/adapters/src/util.rs:509-578 | in every interleaving of atomic steps the bucket never overflows and the checks that ever take a token are at most the capacity plus the elapsed intervals |
| `TokenBuckets.SuppressionsAccounted` | crates/adapters/src/util.rs:517-531 | in every interleaving, the counts that checks report, or hold to report, plus the pending count are the number of checks that were suppressed |
| `TokenBuckets.AloneIsCheck` | crates/adapters/src/util.rs:590-612 | the atomic steps of one undisturbed thread amount to the sequential check |
| `RateLimits.InstantAllows` | crates/adapters/src/util.rs:544-612 | checks at one instant are allowed exactly the tokens held and then, once, a token per whole interval since the last refill, up to the capacity and truncated to 32 bits; the tokens left and the time of the last refill |
| `RateLimits.RefilledIsSum` | crates/adapters/src/util.rs:570-576 | adding tokens never saturates at 32 bits: it is the sum up to the capacity, after the truncation |
| `RateLimits.BoundedSteps` | crates/adapters/src/util.rs:590-612 | whatever other threads do, a check ends after at most eight steps of its own |
| `RateLimits.SuppressedFoundEmpty` | crates/adapters/src/util.rs:590-612 | in every interleaving, a check that is suppressed has found the bucket empty at its second try |
| `TokenBuckets.TokenBucket.constructor` | crates/adapters/src/util.rs:478-500 | a new bucket is full |
| `TokenBuckets.TokenBucket.TryConsumeToken` | crates/adapters/src/util.rs:509-534 | takes a token if there is one, with the suppressions since the last, and else changes nothing |
| `TokenBuckets.TokenBucket.TryRefillTokens` | crates/adapters/src/util.rs:544-578 | adds the earned tokens up to the capacity, with the 32-bit truncation, or panics |
| `TokenBuckets.TokenBucket.CheckToken` | crates/adapters/src/util.rs:590-612 | consume, refill, consume again, or record the suppression |
| `RateLimits.WindowBound` | crates/adapters/src/util.rs:544-612 | in sequential runs, whatever happened before, checks allowed in a window are at most twice the capacity plus its intervals |
| `RateWindows.InterleavedWindowBound` | crates/adapters/src/util.rs:544-612 | in every interleaving, the same plus the capacity once for every check that was stalled in a refill when the window began |
| `RateWindows.InterleavedBoundReached` | crates/adapters/src/util.rs:564-577 | for every number of stalled checks that bound is reached, at one instant |
| `RateLimits.BurstOfTwice` | crates/adapters/src/util.rs:544-578 | twice the capacity is allowed at one instant after an idle time |
| `RateLimits.DocumentedLimitIff` | crates/adapters/src/util.rs:639-641 | the documented limit holds if and only if there are no tokens or the window is empty |
| `RateLimits.ReportsTruthful` | crates/adapters/src/util.rs:604-611 | in sequential runs each report gives the number and the first and last time of the suppressions since the last allowed check |
| `RateLimits.PanicIff` | crates/adapters/src/util.rs:553-557 | some interleaving divides by zero if and only if there are tokens and the window is below a millisecond |
| `RateReports.WrongReportIff` | crates/adapters/src/util.rs:517-531 | some interleaving reports a time at which nothing was suppressed if and only if there are tokens and the bucket can suppress after time zero: it was created later, or it has a refill interval |
| `RateReports.Race` | crates/adapters/src/util.rs:604-611 | how: a check that took the last token is overtaken by one that has counted its suppression and not stored its time |
| `RateReports.ReportsCount` | crates/adapters/src/util.rs:517-531 | in every interleaving, the count of a report is the number of checks suppressed since the counter was last taken |
| `RateReports.ApartReportsTrue` | crates/adapters/src/util.rs:517-531 | if no check ever stores the counters while another takes them, a report gives the number of those suppressions, the time of the one counted first, and as last the time of one of them |
| `RateReports.ApartNeverWrong` | crates/adapters/src/util.rs:517-531 | such interleavings report no time at which nothing was suppressed |
| `LruLists.EvictKeepsLongest` | crates/buffer-cache/src/lru.rs:254-263 | eviction keeps a recency suffix within the budget and every longer suffix exceeds it |
| `LruLists.InsertedKeepsLongest` | crates/buffer-cache/src/lru.rs:266-283 | an insertion keeps the longest recency suffix that fits beside the new entry or costs nothing, without the older entry of its key; nothing is evicted if all fits |
| `LruLists.TouchedMoves` | crates/buffer-cache/src/lru.rs:241-251 | a lookup moves the entry it finds to the recent end and keeps the order of the others |
| `LruLists.WithoutIfKeeps` | crates/buffer-cache/src/lru.rs:295-328 | removal keeps exactly the entries that do not match, in their order |
| `LruLists.EvictMonotone` | crates/buffer-cache/src/lru.rs:254-263 | evicting to less from a suffix leaves a suffix of evicting to more |
| `LruLists.ServeMonotone` | crates/buffer-cache/src/lru.rs:241-292 | each request keeps the smaller cache's list a suffix of the larger's |
| `LruLists.Inclusion` | crates/buffer-cache/src/lru.rs:241-292 | on every trace of inserts, removes and lookups that insert on a miss, the smaller cache holds a suffix of the larger one and never hits more often |
| `LruLists.LookupAloneIff` | crates/buffer-cache/src/lru.rs:241-251 | a lookup that does not insert on a miss keeps inclusion if and only if it does not hit the larger cache alone, or the smaller one is empty |
| `LruLists.LookupAloneBreaksInclusion` | crates/buffer-cache/src/lru.rs:241-251 | the smallest case in which it does not |
| `LruLists.RunBounded` | crates/buffer-cache/src/lru.rs:241-328 | in every run the charge is within capacity or exactly one resident entry costs anything |
| `LruLists.BoundedWithin` | crates/buffer-cache/src/lru.rs:266-283 | without oversized entries the charge is within capacity |
| `LruCaches.RepresentsOne` | crates/buffer-cache/src/lru.rs:221-232 | the two maps determine the recency list they represent |
| `LruCaches.CacheInner.constructor` | crates/buffer-cache/src/lru.rs:209-217 | a new cache represents the empty list |
| `LruCaches.CacheInner.Get` | crates/buffer-cache/src/lru.rs:241-251 | returns the value and moves the entry to the recent end, or changes nothing |
| `LruCaches.CacheInner.EvictTo` | crates/buffer-cache/src/lru.rs:254-263 | terminates, and leaves the list of the specification, with both maps and the cost in step |
| `LruCaches.CacheInner.Insert` | crates/buffer-cache/src/lru.rs:266-283 | the evicted list without the key, followed by the key |
| `LruCaches.CacheInner.Remove` | crates/buffer-cache/src/lru.rs:286-292 | the list without the key; returns its value |
| `LruCaches.CacheInner.RemoveMatching` | crates/buffer-cache/src/lru.rs:295-328 | the list without the matching keys; counts them |
| `CacheBuilder.CapacitiesWithinTotal` | crates/buffer-cache/src/builder.rs:84-123 | the created caches share the total capacity in equal parts, less than one byte each unused |
| `CacheBuilder.SlotsAssigned` | crates/buffer-cache/src/builder.rs:84-159 | every thread of every pair has a cache; two threads share one if and only if the strategy says so, and never an LRU cache |
| `CacheBuilder.CachesUsed` | crates/buffer-cache/src/builder.rs:84-159 | every cache that is created is the cache of some thread |
| `CacheBuilder.ChargedWithinTotal` | crates/buffer-cache/src/builder.rs:84-107 | whatever is done to all LRU caches, without oversized entries their charge together is within the total |
| `Cursors.SplitCursor.constructor` | crates/adapterlib/src/catalog.rs:431-442 | the cursor stands on the first key of its partition |
| `Cursors.SplitCursor.KeyValidInRange` | crates/adapterlib/src/catalog.rs:453-467 | a key is shown if and only if it lies before the start of the next partition |
| `Cursors.SplitCursor.RewindKeys` | crates/adapterlib/src/catalog.rs:561-564 | rewinds to the partition's own start |
| `Cursors.CursorWithPolarity.constructor` | crates/adapterlib/src/catalog.rs:732-743 | the cursor stands at the first deletion of the first key of its range, or behind that key's values |
| `Cursors.CursorWithPolarity.AdvanceVal` | crates/adapterlib/src/catalog.rs:745-752 | moves to the first value of the wanted polarity, or behind the last value |
| `Cursors.CursorWithPolarity.StepVal` | crates/adapterlib/src/catalog.rs:852-855 | moves to the next value of the wanted polarity |
| `Cursors.CursorWithPolarity.StepKey` | crates/adapterlib/src/catalog.rs:840-850 | moves to the next key of the range; after the last key of the first pass, back to the first one for the second pass |
| `Cursors.StartRest` | crates/adapterlib/src/catalog.rs:732-743 | a new cursor has all deletions and then all insertions of its range before it |
| `Cursors.NextValKeepsRest` | crates/adapterlib/src/catalog.rs:852-855 | stepping over a value takes exactly its visit off what is still to come |
| `Cursors.NextKeyKeepsRest` | crates/adapterlib/src/catalog.rs:840-850 | stepping over a key whose values are done loses nothing, also where the second pass starts |
| `Cursors.Traverse` | crates/adapterlib/src/catalog.rs:840-855 | a client that steps through all keys and values sees exactly what is still to come |
| `Cursors.TraversePartition` | crates/adapterlib/src/catalog.rs:431-442 | a partition's output is its deletions followed by its insertions |
| `Cursors.PartitionCovers` | crates/adapterlib/src/catalog.rs:381-429 | partition i covers exactly the keys between two consecutive cuts, and none when it has no cursor |
| `Cursors.PassesCoverRecords` | crates/adapterlib/src/catalog.rs:726-752 | the two passes together visit every record of nonzero weight once |
| `Cursors.PartitionedTraversal` | crates/adapterlib/src/catalog.rs:381-442 | over all partitions every record of nonzero weight is visited exactly once, and for each key no deletion comes after an insertion |
| `PartitionedOutput.CursorPolarity` | crates/adapterlib/src/catalog.rs:715-725 | a polarity cursor visits all deletions of its range before all insertions |
| `PartitionedOutput.BatchDeletesFirstIff` | crates/adapterlib/src/catalog.rs:715-725 | the partitions one after the other have all deletions of the batch first if and only if no partition with an insertion precedes one with a deletion |
| `PartitionedOutput.BatchDeletesLate` | crates/adapterlib/src/catalog.rs:715-725 | the smallest case in which they do not: two partitions, an insertion in the first and a deletion in the second |
| `PartitionedOutput.ParallelTraversal` | crates/adapters/src/integrated/delta_table/output.rs:848-867 | however traversals of all partitions in parallel interleave, every record is visited exactly once, and for each key deletions come first |
| `Cursors.TraverseAll` | crates/adapters/src/integrated/delta_table/output.rs:816-867 | the loop over all partition indices, with the results of the ranges collected in index order, produces that output |
| `Cursors.StrayIndexCoversAll` | crates/adapterlib/src/catalog.rs:387-399 | an index past the last partition yields the whole batch |
| `Cursors.ClassifyKey` | crates/adapters/src/util.rs:89-166 | a key is accepted if and only if it is inserted at most once and deleted at most once, and is then an insert, a delete, an upsert or nothing accordingly; otherwise the cursor is left at the first value that breaks this and the violation says how: inserted or deleted more than once itself, or after another value that was |

## Left out

- crates/adapters/src/server.rs: HTTP handlers whose transition rules rest on code elsewhere, and checkpoint and lease counters.
- The S3-FIFO cache and its shard normalisation: a wrapper over an external library; only the division of its capacity is modelled.
- Hashing, serialisation and encryption: the hash of a flush is not modelled, and a file read is some prefix of the bytes the file has.
- Callbacks of the input queue other than start, records and commit: parse errors, buffered sizes, step requests and watermarks.
- `flatten_nested` and vectors of buffers inside vectors of buffers: the elements of a vector are leaves that split exactly.
- Buffers that return more than the asked records: the leaf modelled splits with full granularity.
- Several flushers of one input queue: there is one, with pushes interleaved at every point where it takes or releases the lock.
- `seek_key` and `seek_key_exact` on the polarity cursor: they do not establish polarity again; the traversal uses steps and rewinds.
- Choice of partition bounds by sampling: bounds are any keys of the batch, in order, as the sampling yields them.
- Panics inside workers, task cancellation, dropping a job queue, and several producers of one job queue.
- Weak memory ordering: every atomic operation of the token bucket is one step of a sequentially consistent interleaving.
- Overflow of 64-bit counters, serials and sizes; the truncation to 32 bits in the refill is modelled.
- The map from keys to token buckets, the thread-pool helper and the warnings about long operations.
- JobQueues: a transition system on values, since the tasks share channels; the loops of the tasks appear as its steps.
- Cursors: keys are integers; only their order matters.
- LruCaches.CacheInner.Get: moves the entry by taking it out of both maps and putting it back, where the code updates its serial in place; the resulting maps are the same.
- LruCaches.CacheInner.RemoveMatching: covers both removal by predicate and removal by key range, and removes in any order.
- StreamSplitters.StreamSplitter.Read: the capacity of the buffer is a parameter, as the allocator chooses it.
- Python client, scripts, benchmarks and web configuration.
