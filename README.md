# Continuous consume task (kiwi-kafka) in Dafny

This project models `ContinuousConsumeMessages`, the consumer task that tails Kafka topics. It has three parts:

- It polls the consumer in a loop, counting consecutive empty polls into the poll timeout. The timeout is meant to back off, but as written it stays at 5000 ms for the first 4095 empty polls (see Findings). It only keeps the subscription alive while paused, and stops once closed, also in the middle of a fetch.
- It filters every fetched record and batches the records that pass, together with their partitions' latest offsets. Whenever a batch reaches 50 messages, it forwards the batch to the sink with a progress snapshot, commits the offsets and clears both. It does the same once more when the fetch is exhausted.
- It computes the progress snapshot from the start, end and live offset maps: their sums, the end raised to the position, and a completion percentage.

Modules:

- `Positions` (positions.dfy): offset maps, their total (`TotalOffset`), the truncating percentage and the snapshot `Track`.
- `Int32` (int32.dfy): Java `int` wrap-around, used to show the record counter's overflow.
- `PollBackoff` (timeout.dfy): the poll timeout as written (exclusive or on 32-bit ints) and as intended (a power of ten with a 5000 ms floor).
- `Batching` (batching.dfy): the batcher as a specification.
  - `Flushes` is the flushes of a fetch, defined by recursion from the front. The size, content, commit and count lemmas are proved about it.
  - `Feed` and `FeedAll` are the same batcher one record at a time, as the loop runs it. `FeedAllFlushes` proves that the two agree.
- `ConsumeTask` (task.dfy): the class `ContinuousConsumeMessages`.
  - Its fields are the source's `closed`, `paused` and `filters`, plus a ghost `log` of what the consumer does to the outside world: polls, batches with their snapshot, commits and keep-alives.
  - Its methods are `Close`, `Pause`, `Update`, `IsClosed`, `ForwardAndCommit`, the record loop (`BatchFetch`, whose body is `Accept` and `FlushIfFull`), `ConsumeFetch`, one outer iteration (`Iterate`), the calls other threads make (`Apply`), and the body of `delegateExecuteSync` (`Execute`).
  - `messages`, `toCommit`, `totalRecords` and `idleCount` are local variables of `delegateExecuteSync` in the source, so here they are locals and in/out parameters rather than fields.
  - `forwardAndCommit` clears the caller's list and map in place, so `ForwardAndCommit` returns the cleared pair.

Broker input is a parameter of the methods: poll results, live positions, and the start and end offsets captured at subscription. The filter compiler is the uninterpreted function `compile`. The class invariant `Valid()` says the log is well formed:

- every batch holds at most 50 messages;
- every commit directly follows its batch and commits exactly that batch's last offset per partition.

## Model

| member | source | states |
|---|---|---|
| Positions.TotalOffset | src/main/java/com/github/domwood/kiwi/kafka/task/consumer/ContinuousConsumeMessages.java:193-195 | definition: the sum of the offset map's values over all its partitions, 0 for the empty map (its properties are the rows below) |
| Positions.SumOverPick | src/main/java/com/github/domwood/kiwi/kafka/task/consumer/ContinuousConsumeMessages.java:193-195 | the reduction by sum does not depend on the order in which entries are visited: any key may be taken first |
| Positions.TotalOffsetSmall | src/main/java/com/github/domwood/kiwi/kafka/task/consumer/ContinuousConsumeMessages.java:193-195 | the total of an empty map is 0 (the `orElse(0)` case); a single entry totals its value |
| Positions.TotalOffsetRemove | src/main/java/com/github/domwood/kiwi/kafka/task/consumer/ContinuousConsumeMessages.java:193-195 | the total is any entry's value plus the total of the rest, so it is the sum of all values |
| Positions.TotalOffsetMonotone | src/main/java/com/github/domwood/kiwi/kafka/task/consumer/ContinuousConsumeMessages.java:193-195 | pointwise larger offsets over the same partitions give a larger or equal total |
| Positions.TotalOffsetNonNegative | src/main/java/com/github/domwood/kiwi/kafka/task/consumer/ContinuousConsumeMessages.java:193-195 | non-negative offsets have a non-negative total |
| Positions.Percentage | src/main/java/com/github/domwood/kiwi/kafka/task/consumer/ContinuousConsumeMessages.java:182 | definition: 100 × (position − start) divided by max(end − start, 1), truncated toward zero as by the `(int)` cast; its bounds and monotonicity are the two rows after `TruncDiv` |
| Positions.TruncDiv | src/main/java/com/github/domwood/kiwi/kafka/task/consumer/ContinuousConsumeMessages.java:182 | the `(int)` cast of a quotient truncates toward zero: bounds of the quotient for non-negative and for negative dividends |
| Positions.PercentageBounds | src/main/java/com/github/domwood/kiwi/kafka/task/consumer/ContinuousConsumeMessages.java:181-182 | with start ≤ position ≤ end the percentage lies in [0, 100], is 0 at the start and 100 at an end beyond the start; the divisor max(end − start, 1) makes it defined |
| Positions.PercentageMonotone | src/main/java/com/github/domwood/kiwi/kafka/task/consumer/ContinuousConsumeMessages.java:182 | for fixed start and end, the percentage never decreases as the position advances |
| Positions.Track | src/main/java/com/github/domwood/kiwi/kafka/task/consumer/ContinuousConsumeMessages.java:174-191 | start, position and record count are reported as given; the end is at least the position and at least the summed end, and is one of the two; with start ≤ position the percentage is in [0, 100], 0 at the start, 100 once the position reaches the summed end beyond the start |
| Positions.StampedTrack | src/main/java/com/github/domwood/kiwi/kafka/task/consumer/ContinuousConsumeMessages.java:184-190 | the record count enters the snapshot only as its own field: a snapshot restamped with a count equals the snapshot at that count |
| Positions.TrackInRange | src/main/java/com/github/domwood/kiwi/kafka/task/consumer/ContinuousConsumeMessages.java:178-182 | when every partition's live offset is at or past its start offset, the percentage lies in [0, 100] |
| Int32.IncrementAsWritten | src/main/java/com/github/domwood/kiwi/kafka/task/consumer/ContinuousConsumeMessages.java:101 | `totalRecords++` on a Java int: one more below the largest int, the smallest int after it |
| Int32.IncrementAsWrittenDecreases | src/main/java/com/github/domwood/kiwi/kafka/task/consumer/ContinuousConsumeMessages.java:77-101 | the written record counter falls to −2³¹ after 2³¹ − 1 records |
| PollBackoff.PollTimeoutAsWritten | src/main/java/com/github/domwood/kiwi/kafka/task/consumer/ContinuousConsumeMessages.java:86 | the timeout as written, exclusive or on 32-bit ints, is never below 5000 ms and stays a non-negative int |
| PollBackoff.PollTimeoutAsWrittenFlat | src/main/java/com/github/domwood/kiwi/kafka/task/consumer/ContinuousConsumeMessages.java:86 | as written, the timeout is 5000 ms for the first 4095 consecutive empty polls |
| PollBackoff.PollTimeoutAsWrittenLinear | src/main/java/com/github/domwood/kiwi/kafka/task/consumer/ContinuousConsumeMessages.java:86 | as written, the timeout is 5000 ms or at most idleCount + 11: never an exponential back-off |
| PollBackoff.PollTimeout | src/main/java/com/github/domwood/kiwi/kafka/task/consumer/ContinuousConsumeMessages.java:86 | the intended timeout 10^(idleCount+1), saturated at the largest int, is at least 5000 ms |
| PollBackoff.PollTimeoutMonotone | src/main/java/com/github/domwood/kiwi/kafka/task/consumer/ContinuousConsumeMessages.java:86-88 | the intended timeout never shrinks as empty polls accumulate |
| PollBackoff.PollTimeoutBacksOff | src/main/java/com/github/domwood/kiwi/kafka/task/consumer/ContinuousConsumeMessages.java:86 | intended timeout: 5000 ms for idle counts up to 2, then 10^(idleCount+1) up to idle count 8, then the largest int |
| PollBackoff.PollTimeoutDiffers | src/main/java/com/github/domwood/kiwi/kafka/task/consumer/ContinuousConsumeMessages.java:86 | after three empty polls the written timeout is 5000 ms where the back-off gives 10000 ms |
| Batching.Filter | src/main/java/com/github/domwood/kiwi/kafka/task/consumer/ContinuousConsumeMessages.java:103-104 | definition: the records that pass the compiled filter, in fetch order (properties in `FilterProperties`) |
| Batching.FilterProperties | src/main/java/com/github/domwood/kiwi/kafka/task/consumer/ContinuousConsumeMessages.java:103-104 | the passing records are at most the fetch, all pass the filter, are the whole fetch when all pass and nothing when none does |
| Batching.LastOffsets | src/main/java/com/github/domwood/kiwi/kafka/task/consumer/ContinuousConsumeMessages.java:98-105 | definition: the pending commits built as the loop builds them, starting empty and letting each message overwrite its partition's entry with its offset (meaning in `LastOffsetsAreLast`) |
| Batching.LastOffsetsAppend | src/main/java/com/github/domwood/kiwi/kafka/task/consumer/ContinuousConsumeMessages.java:105 | adding a message to a batch overwrites its partition's pending offset with its own |
| Batching.LastOffsetsAreLast | src/main/java/com/github/domwood/kiwi/kafka/task/consumer/ContinuousConsumeMessages.java:98-106 | the pending commits hold exactly the partitions of the batch, each with the offset of its last message in the batch |
| Batching.Flushes | src/main/java/com/github/domwood/kiwi/kafka/task/consumer/ContinuousConsumeMessages.java:99-114 | every fetch ends in at least one flush (the final one at exhaustion) |
| Batching.FeedAll | src/main/java/com/github/domwood/kiwi/kafka/task/consumer/ContinuousConsumeMessages.java:99-101 | feeding records counts every one of them, passing or not |
| Batching.Admit | src/main/java/com/github/domwood/kiwi/kafka/task/consumer/ContinuousConsumeMessages.java:100-106 | definition: one record counted and, when it passes, appended to the batch with its partition's pending offset overwritten; the flushes done are untouched |
| Batching.FlushFull | src/main/java/com/github/domwood/kiwi/kafka/task/consumer/ContinuousConsumeMessages.java:108-111 | definition: a batch of 50 or more is flushed with its pending commits and the current count, and the batcher emptied; a smaller batch is left as is |
| Batching.Feed | src/main/java/com/github/domwood/kiwi/kafka/task/consumer/ContinuousConsumeMessages.java:99-111 | definition: one pass of the record loop's body, admitting the record and then flushing a full batch |
| Batching.Drained | src/main/java/com/github/domwood/kiwi/kafka/task/consumer/ContinuousConsumeMessages.java:113-114 | definition: the flushes done plus the final flush of whatever the batch holds when the fetch is exhausted |
| Batching.FeedAllFlushes | src/main/java/com/github/domwood/kiwi/kafka/task/consumer/ContinuousConsumeMessages.java:99-114 | the record-at-a-time batcher, drained at exhaustion, produces exactly the specified flushes from any starting batcher |
| Batching.FeedFetch | src/main/java/com/github/domwood/kiwi/kafka/task/consumer/ContinuousConsumeMessages.java:95-114 | from an empty batch and empty commits, the loop's batcher yields exactly the flushes of the fetch |
| Batching.FlushSizes | src/main/java/com/github/domwood/kiwi/kafka/task/consumer/ContinuousConsumeMessages.java:108-114 | every flush before the last forwards exactly 50 messages; the last one forwards fewer, possibly none |
| Batching.FlushedMessages | src/main/java/com/github/domwood/kiwi/kafka/task/consumer/ContinuousConsumeMessages.java:99-114 | the forwarded batches, joined, are exactly the passing records in fetch order: none lost, duplicated or reordered |
| Batching.FlushCount | src/main/java/com/github/domwood/kiwi/kafka/task/consumer/ContinuousConsumeMessages.java:108-114 | n passing messages give n / 50 full batches and one final batch of n % 50 |
| Batching.AllPass | src/main/java/com/github/domwood/kiwi/kafka/task/consumer/ContinuousConsumeMessages.java:99-114 | when every record passes, a fetch of n records becomes n / 50 batches of 50 and one of n % 50, forwarding the fetch unchanged |
| Batching.NonePass | src/main/java/com/github/domwood/kiwi/kafka/task/consumer/ContinuousConsumeMessages.java:99-114 | when no record passes, the fetch ends in a single flush of the previous batch, with every record counted |
| Batching.FlushCommits | src/main/java/com/github/domwood/kiwi/kafka/task/consumer/ContinuousConsumeMessages.java:103-114 | every flush commits exactly the last offsets of its own batch |
| Batching.FlushTotals | src/main/java/com/github/domwood/kiwi/kafka/task/consumer/ContinuousConsumeMessages.java:99-114 | within one fetch, the record count in the snapshots never decreases from flush to flush, stays within the fetch, and at the final flush includes every record of the fetch |
| Batching.FlushCommitsIncrease | src/main/java/com/github/domwood/kiwi/kafka/task/consumer/ContinuousConsumeMessages.java:103-111 | when each partition's records arrive in increasing offset order, a partition's committed offset strictly increases from flush to flush within one fetch |
| Batching.FlushCommitsAtMost | src/main/java/com/github/domwood/kiwi/kafka/task/consumer/ContinuousConsumeMessages.java:103-114 | the offsets a fetch commits lie at or below any per-partition bound that its records and the starting pending offsets lie at or below |
| Batching.LastOffsetsSeparate | src/main/java/com/github/domwood/kiwi/kafka/task/consumer/ContinuousConsumeMessages.java:98-105 | with offsets increasing per partition over two fetches, the first fetch's last offsets bound its own offsets from above and lie below every offset of the same partition in the second |
| Batching.CommitsIncreaseAcrossFetches | src/main/java/com/github/domwood/kiwi/kafka/task/consumer/ContinuousConsumeMessages.java:80-116 | when the broker delivers each partition in increasing offset order over two consecutive fetches, a partition's committed offset strictly increases over the flushes of both fetches together, the batcher restarting empty in between |
| ConsumeTask.WellFormedQuiet | src/main/java/com/github/domwood/kiwi/kafka/task/consumer/ContinuousConsumeMessages.java:81-91 | polls and keep-alives keep the log well formed |
| ConsumeTask.WellFormedFlush | src/main/java/com/github/domwood/kiwi/kafka/task/consumer/ContinuousConsumeMessages.java:154-159 | a batch of at most 50 followed by its exact commits keeps the log well formed |
| ConsumeTask.WellFormedLogMeans | src/main/java/com/github/domwood/kiwi/kafka/task/consumer/ContinuousConsumeMessages.java:146-166 | in a well-formed log every batch has at most 50 messages and every commit follows its batch with, per partition, the offset of the batch's last message there |
| ConsumeTask.FlushEventsAt | src/main/java/com/github/domwood/kiwi/kafka/task/consumer/ContinuousConsumeMessages.java:154-164 | each flush writes its batch with the snapshot at its record count, then its commit, then a keep-alive, in flush order |
| ConsumeTask.Accept | src/main/java/com/github/domwood/kiwi/kafka/task/consumer/ContinuousConsumeMessages.java:100-106 | every record is counted; a passing record becomes the last message and its partition's pending offset, a rejected one changes neither; the pending commits stay the batch's last offsets |
| ConsumeTask.ContinuousConsumeMessages.constructor | src/main/java/com/github/domwood/kiwi/kafka/task/consumer/ContinuousConsumeMessages.java:39-46 | a new task is open, not paused, has no filters and has done nothing |
| ConsumeTask.ContinuousConsumeMessages.Close | src/main/java/com/github/domwood/kiwi/kafka/task/consumer/ContinuousConsumeMessages.java:48-52 | sets the closed flag |
| ConsumeTask.ContinuousConsumeMessages.Pause | src/main/java/com/github/domwood/kiwi/kafka/task/consumer/ContinuousConsumeMessages.java:54-57 | sets the paused flag |
| ConsumeTask.ContinuousConsumeMessages.Update | src/main/java/com/github/domwood/kiwi/kafka/task/consumer/ContinuousConsumeMessages.java:59-62 | replaces the filter list |
| ConsumeTask.ContinuousConsumeMessages.IsClosed | src/main/java/com/github/domwood/kiwi/kafka/task/consumer/ContinuousConsumeMessages.java:168-171 | reports the closed flag |
| ConsumeTask.ContinuousConsumeMessages.ForwardAndCommit | src/main/java/com/github/domwood/kiwi/kafka/task/consumer/ContinuousConsumeMessages.java:146-166 | open: forwards exactly the batch with the snapshot, commits exactly its pending offsets, keeps alive and leaves both empty; closed: does nothing and leaves both as they were |
| ConsumeTask.ContinuousConsumeMessages.FlushIfFull | src/main/java/com/github/domwood/kiwi/kafka/task/consumer/ContinuousConsumeMessages.java:108-111 | a batch of 50 is flushed with the snapshot at the current count and emptied; a smaller one is left as is; the batch stays below 50 |
| ConsumeTask.ContinuousConsumeMessages.BatchFetch | src/main/java/com/github/domwood/kiwi/kafka/task/consumer/ContinuousConsumeMessages.java:95-112 | the record loop runs the batcher over the records taken before a close lands (the whole fetch without one): counts, leftovers and flushes as `FeedAll` gives them, and logs exactly those flushes; the consumer ends closed exactly when it was or a close landed; closed at entry, it does nothing |
| ConsumeTask.ContinuousConsumeMessages.ConsumeFetch | src/main/java/com/github/domwood/kiwi/kafka/task/consumer/ContinuousConsumeMessages.java:92-115 | open: counts the records taken before a close and logs exactly `FetchFlushes`: all specified flushes of the fetch, the final one included, without a close; only those done before it with one; closed at entry: logs nothing |
| ConsumeTask.FetchFlushes | src/main/java/com/github/domwood/kiwi/kafka/task/consumer/ContinuousConsumeMessages.java:99-114 | definition: the flushes one fetch logs, all of `Flushes` without a close and only those the batcher did before the close with one |
| ConsumeTask.CloseMidFetch | src/main/java/com/github/domwood/kiwi/kafka/task/consumer/ContinuousConsumeMessages.java:99-114 | the flushes logged are a prefix of the uninterrupted fetch's, a proper one when a close lands (nothing after it, no final flush); the passing records taken before the close are the forwarded batches plus a batch of fewer than 50 that is never forwarded |
| Batching.FeedAllFlushedGrows | src/main/java/com/github/domwood/kiwi/kafka/task/consumer/ContinuousConsumeMessages.java:99-111 | a flush once done stays in the batcher's history: feeding more records only adds flushes after it |
| Batching.Undrained | src/main/java/com/github/domwood/kiwi/kafka/task/consumer/ContinuousConsumeMessages.java:99-111 | before the final flush, the batches flushed plus the batch being built are exactly the passing records, and that batch holds fewer than 50 |
| ConsumeTask.ContinuousConsumeMessages.Iterate | src/main/java/com/github/domwood/kiwi/kafka/task/consumer/ContinuousConsumeMessages.java:80-116 | paused: only a keep-alive, counters unchanged; otherwise a poll with the idle-count timeout, then for an empty result idle + 1 and a keep-alive, for a non-empty one idle reset to 0, the records taken before a close counted and the fetch's flushes up to the close logged; closed afterwards exactly when a close landed in the fetch |
| ConsumeTask.ContinuousConsumeMessages.Apply | src/main/java/com/github/domwood/kiwi/kafka/task/consumer/ContinuousConsumeMessages.java:48-62 | a close or pause request sets its flag and nothing clears one; an update replaces the filters |
| ConsumeTask.ContinuousConsumeMessages.Execute | src/main/java/com/github/domwood/kiwi/kafka/task/consumer/ContinuousConsumeMessages.java:69-124 | runs until closed (or the given rounds run out); a closed task does nothing; a paused task stays paused and only keeps alive, never polling or forwarding; the log only grows and stays well formed |

## Left out

- Broker I/O is not executed: `subscribeAndSeek`, `currentPosition`, `poll`, `commitAsync` and `keepAlive`. The offsets and fetches they return are method parameters. What they send out is recorded in the ghost log.
- The live positions are read once per fetch. The source asks the resource again before every flush (lines 109 and 113); the model gives all flushes of one fetch the same live map.
- `FilterBuilder.compileFilters` and `MessageFilter` are not part of this model; the compiler is the uninterpreted function `compile`.
- `asConsumedRecord` and `fromKafkaHeaders` only copy fields, so a consumed message is the record itself, without timestamp and headers.
- Concurrency is modelled only as interleaving points, not `AtomicBoolean` or `volatile`. A `close` from another thread lands between outer iterations (`Apply`), or inside a fetch before the record loop's check (line 99) for a given record or before the final flush (a round's `closeAt`). A close landing between the batch-size check (line 108) and the check in `forwardAndCommit` (line 153) is not modelled: there the full batch would go unforwarded. A `pause` or `update` inside a fetch has no effect until the next iteration, so both arrive through `Apply`.
- `Thread.sleep`, logging, `logCommit` and the asynchronous commit callback are left out. So is `registerConsumer`: the sink is the log.
- Exceptions are left out. The `catch` at lines 119-121 ends the consumer; the model has no failing calls.
- `Execute`: the source loops for as long as it is open. The model runs at most the finite sequence of rounds it is given, and the never-cleared `running` flag is left out.
- Positions.Percentage: an integer abstraction of the source's `double` division, truncated toward zero like the `(int)` cast. The model's percentage can be one above the source's for sums of any size: with position − start = 29 and end − start = 100, the source computes 28.999999999999996 and reports 28, the model 29 (57 and 58 behave alike). It can also be one below once end − start exceeds about 10^13: with position − start = 60950610844944 and end − start = 90971060962603 the exact value is just under 67, so the model gives 66, while the double expression evaluates to exactly 67.0. Precision lost converting sums beyond 2^53 to doubles and the cast's saturation at −2³¹ are not modelled.
- Positions.TotalOffset: sums are unbounded integers, not 64-bit `long`s, so overflow of the sum is not modelled.
- ConsumeTask.ContinuousConsumeMessages.Iterate: the logged poll uses the intended timeout `PollTimeout(idleCount)`, not the exclusive-or value the source polls with (5000 ms at idle count 3, where the log says 10000 ms), and the record count is an unbounded `nat`, not a wrapping `int`. The written timeout and increment are `PollBackoff.PollTimeoutAsWritten` and `Int32.IncrementAsWritten`.
- ConsumeTask.ContinuousConsumeMessages.Execute: states that the log only grows and that a paused task only keeps alive. Its per-round effect is stated by `Iterate`, not repeated over the whole run.

## Findings

| source | as written | input that shows it | evidently intended | confidence | as-written member | corrected member |
|---|---|---|---|---|---|---|
| src/main/java/com/github/domwood/kiwi/kafka/task/consumer/ContinuousConsumeMessages.java:86 | `10^(idleCount+1)` is exclusive or on ints, so the timeout stays 5000 ms for the first 4095 empty polls and never grows faster than linearly | idleCount = 3: 10 XOR 4 = 14, so the timeout is 5000 ms | a back-off of 10 to the power idleCount + 1 with a 5000 ms floor (10000 ms at idleCount = 3) | medium, not executed | PollBackoff.PollTimeoutDiffers | PollBackoff.PollTimeoutBacksOff |
| src/main/java/com/github/domwood/kiwi/kafka/task/consumer/ContinuousConsumeMessages.java:77-101 | `totalRecords` is a Java `int` and `totalRecords++` wraps | 2³¹ − 1 records already counted, one more: the count in the next snapshot is −2³¹ | a record count that only grows | medium, not executed | Int32.IncrementAsWrittenDecreases | Batching.FlushTotals |

The model's loop uses the intended timeout (`PollBackoff.PollTimeout`) and an unbounded record count (`nat`). The as-written behaviour of both is kept in `PollBackoff.PollTimeoutAsWritten` and `Int32.IncrementAsWritten`.
