# Sensor-Bridge: a verified model

Sensor-Bridge moves sensor readings through a pipeline of stages, each in a thread of its own.
This project models the parts of it whose correctness is not visible from one function, and
proves what they promise: the lock-free ring buffer, the threaded pipeline with its control
flags, the timestamp synchroniser, the latency histogram, the jitter tracker, the filters, the
monotonic clock, the rate limiter and the adaptive controller.

Code that updates objects in place is modelled by classes whose methods have the same loops and
branches. Each such method is proved equal to a function on values (`Fusion.Push`,
`RateLimiter.TryAcquire`, `Worker.Passes`, ...), and the results about whole runs are lemmas about
those functions. Code that several threads run at once is also modelled as a state machine with one
atomic access per step (`RingProtocol`, `Network`, `LatencyConcurrent`, `JitterConcurrent`,
`Clock`, `RateLimiterConcurrent`). A schedule is any sequence of enabled steps, and the results
hold for every schedule. A weak exchange may fail spuriously: the machines have a flag for it, the
methods a parameter that says how often.

| file | models |
|---|---|
| `RingProtocol`, `RingBuffer`, `Bits` | the ring buffer: its protocol with stale index loads, its methods, its index arithmetic |
| `Stages`, `Subsequences` | stages, `Chain` and the stateless combinators: the sequential meaning of a pipeline |
| `Channel`, `StageControl`, `Worker`, `MultiStage` | a channel, the control block, the worker loop, the pipeline handle |
| `Network`, `NetworkMeaning`, `NetworkControl`, `NetworkReset`, `NetworkClosing` | the threaded pipeline as a state machine; what it delivers; what its commands guarantee; that it ends |
| `Fusion`, `FusionPairs`, `FusionExact`, `FusionCount`, `TimestampSync` | the timestamp synchroniser on values, what its pairs are, exactly when its pruning shows and its count is right, and in place |
| `Latency`, `LatencyHistogram`, `LatencyConcurrent` | the histogram against the list of samples, in place, and under concurrent recording |
| `Jitter`, `JitterConcurrent`, `JitterExact` | fixed-point Welford, its loop under concurrent recording, and exactly when that is right |
| `Kalman`, `Filters`, `ExponentialAverage` | the Kalman filter; moving average and median; exponential average |
| `Clock` | the monotonic clock |
| `RateLimiter`, `TokenBucket`, `RateLimiterConcurrent`, `Controller` | admission control: the limiter, its reference, concurrent callers; the adaptive controller |
| `Wrappers`, `Sums`, `RealFacts` | shared types and arithmetic |

Stages of the state machine share one type of items and one type of states; the four differently
typed stages of the program are an instance, by taking disjoint unions.

Where the code differs from what its documentation says, the model follows the code:

- `src/metrics/jitter.rs` says that its compare-and-swap loop ensures consistency. Only the count
  is exchanged: `JitterExact.ExchangeDoesNotProtectMean` has two threads recording 8 leave a mean
  of 4, and `JitterExact.RightForAllSamplesIff` says exactly which schedules keep the statistics
  right for all samples.
- `src/metrics/latency.rs` documents ten buckets per decimal order of magnitude; the code has ten
  for every three binary ones, and all samples from 2^19 ns on are reported as 2^18 ns.
- `src/backpressure/rate_limiter.rs` promises a rate. Every call discards the fraction of a token
  that it earned: `RateLimiter.PollingSucceedsIff` says when a polled limiter grants anything, and
  `RateLimiter.FractionsAreLost` how much is lost.
- `examples/full_pipeline.rs` says that a stage blocks when the next one is slow. It drops.
- The shutdown of a pipeline is called graceful. It abandons what is still queued for a worker,
  except that a worker past its check may still receive: `NetworkControl.QueuedIsReceivedIff`, with
  a run from the start in `NetworkControl.ShutdownAbandons`. Closing the input without it stops
  every worker and loses nothing (`NetworkClosing.ClosedPipelineDeliversAll`).
- A reset being handled can erase a pause: `NetworkControl.PauseCanBeLostIff`.
- `src/metrics/latency.rs` does not say what a percentile of zero is. It reports the first bucket:
  `Latency.PercentileOfNothing`.
- A reset is lost when another command overwrites it before the worker reads it:
  `NetworkReset.ResetCanHappenIff`. In particular a worker that waits in its pause, with no resume
  half stored, never carries one out: `NetworkReset.ResetWhilePausedIsLost`.
- `src/stage/fusion.rs` returns its count as the number of items in the buffer. For readings out of
  order it can be wrong: `FusionCount.CountIsExactIff` says exactly when.
- Pruning in the synchroniser shows as soon as primary timestamps step back beyond the tolerance:
  `FusionExact.PruningIsInvisibleIff`.

## Model

| member | source | states |
|---|---|---|
| RingProtocol.PoppedIsPrefixOfPushed | src/buffer/ring.rs:176-234 | in every interleaving, with loads of the other index as stale as since the last look, pops are a prefix of accepted pushes and at most N-1 values are outstanding |
| RingProtocol.RefinesBoundedFifo | src/buffer/ring.rs:176-257 | every schedule's completed pushes, pops and peeks are a run of a FIFO of capacity N-1; with fresh loads a refusal happens only when it is really full or empty |
| RingProtocol.NoSlotRace | src/buffer/ring.rs:187-228 | producer and consumer are never inside the same slot at once |
| RingProtocol.WritesFindEmptySlot | src/buffer/ring.rs:187-196 | a write never overwrites an accepted value that is not yet popped |
| RingProtocol.ReadIsInitialised | src/buffer/ring.rs:220-227 | the slot being read is initialised and holds the oldest unpopped value |
| RingProtocol.QuiescentSlots | src/buffer/ring.rs:56-68 | between operations each unpopped value sits in exactly one slot and all other slots are uninitialised |
| RingProtocol.ProducerLength | src/buffer/ring.rs:111-115 | the masked wrapping difference seen from the producer is the element count at the moment the tail had the value loaded |
| RingProtocol.ConsumerLength | src/buffer/ring.rs:111-115 | the same seen from the consumer |
| RingProtocol.NextIndexIsMod | src/buffer/ring.rs:139-148 | masking with N-1 is the successor modulo N for every power of two |
| RingProtocol.StepKeepsInv | src/buffer/ring.rs:176-257 | every atomic step of either side keeps the invariant on indices, views and slots |
| Bits.PowerOfTwoIff | src/buffer/ring.rs:71-76 | the bit test on N accepts exactly the powers of two |
| Bits.WrappedDistance | src/buffer/ring.rs:111-115 | wrapping subtraction and mask give the difference of the unbounded counters |
| RingBuffer.PushAloneAppends | src/buffer/ring.rs:176-200 | an undisturbed push, step by step, appends unless N-1 values are stored |
| RingBuffer.PopAloneTakesOldest | src/buffer/ring.rs:210-234 | an undisturbed pop, step by step, takes the oldest value unless there is none |
| RingBuffer.RingBuffer.PushInternal | src/buffer/ring.rs:176-200 | the method does what the protocol's push does; the value is handed back when full |
| RingBuffer.RingBuffer.PopInternal | src/buffer/ring.rs:210-234 | the method does what the protocol's pop does |
| RingProtocol.HeldReferenceIsValid | src/buffer/ring.rs:210-257 | a reference to the oldest value stays good until the consumer pops that value, whatever the producer does |
| RingProtocol.ReferenceIsGoodIff | src/buffer/ring.rs:210-257 | until N more values are written it is good if and only if its value is neither popped nor being popped; otherwise its slot is moved out |
| RingBuffer.SlotIsReused | src/buffer/ring.rs:187-196 | N pushes later its slot is written again, so no longer than that |
| RingBuffer.RingBuffer.PeekInternal | src/buffer/ring.rs:244-257 | the oldest value, without removing it |
| RingBuffer.RingBuffer.Len | src/buffer/ring.rs:111-115 | the number of stored values, at most N-1 |
| RingBuffer.RingBuffer.IsFull | src/buffer/ring.rs:129-133 | true if and only if N-1 values are stored |
| RingBuffer.RingBuffer.Drop | src/buffer/ring.rs:266-282 | releases exactly the values pushed and not popped, each once, in order, and leaves no live slot |
| Stages.ChainRuns | src/stage/traits.rs:139-143 | running a chain is running the second stage over the first one's outputs, states included |
| Stages.ChainIsAssociative | src/stage/traits.rs:131-159 | grouping does not change what a chain of three does with its inputs or on reset |
| Stages.ResetChainStartsAnew | src/stage/traits.rs:156-159 | a chain of stages that a reset takes back to their start is one too, and computes again what it computes from the start |
| Stages.TickOfChain | src/stage/traits.rs:145-154 | what the first stage yields on a tick is an input of the second, which is ticked itself unless that gave an output |
| Stages.RunSplit | src/stage/traits.rs:54-64 | a run over two pieces of input is the second run from where the first one ended |
| Stages.RunIsMonotone | src/stage/traits.rs:54-64 | more input only ever extends the output |
| Stages.TickGrouping | src/stage/traits.rs:145-154 | ticking does not depend on the grouping unless the first tick is swallowed by the third stage, and what happens then |
| Stages.TicksAlikeIff | src/stage/traits.rs:145-169 | the groupings tick alike if and only if the first tick is not swallowed or the second stage's own tick leaves its state and yields nothing, or something that the third stage makes into what its own tick gives |
| Stages.TickIsNotAssociative | src/stage/traits.rs:145-154 | three stages for which the two groupings tick differently |
| Stages.ChainKeepsNoOpTick | src/stage/traits.rs:69-77 | a chain of stages with the default tick has the default tick |
| Stages.StatelessRun | src/stage/traits.rs:289-301 | a stage that computes a filter-map collects it, from any state |
| Stages.CollectCompose | src/stage/traits.rs:289-301 | two filter-maps in a row are one |
| Stages.MapRuns | src/stage/traits.rs:201-216 | a map keeps every item, transformed, in order |
| Stages.IdentityRuns | src/stage/traits.rs:324-333 | the pass-through stage passes everything through |
| Subsequences.FilterRuns | src/stage/traits.rs:243-260 | a filter keeps exactly the matching items, with multiplicity and order |
| Subsequences.SubseqPositions | src/pipeline/executor.rs:276-283 | a subsequence is what remains at increasing positions |
| Channel.Channel.TrySend | src/channel/sender.rs:44-56 | queues the value if and only if there is room and a receiver, reports the lost receiver before the full queue, counts only full ones as drops |
| Channel.Channel.SendOrDrop | src/channel/sender.rs:113-118 | true if and only if the value was queued |
| Channel.Channel.TryRecv | src/channel/receiver.rs:43-52 | queued values come first, in order, then empty or disconnected |
| StageControl.ShutdownIsPermanent | src/pipeline/stage_handle.rs:110-118 | however the stores of commands interleave, the shutdown flag is up exactly if some shutdown stored it |
| StageControl.LastPausingStoreWins | src/pipeline/stage_handle.rs:110-118 | the last pause, resume or run store decides whether the stage is paused |
| StageControl.StageControl.SetCommand | src/pipeline/stage_handle.rs:110-118 | the command is stored and then its flag, no other |
| StageControl.StageControl.RequestShutdown | src/pipeline/stage_handle.rs:146-148 | the shutdown flag is raised and the pause flag kept |
| Worker.StageWorker | src/pipeline/executor.rs:234-301 | for any observations of flags, input and output, the loop computes the passes that they call for, answers each reset with a run command, and is marked running until it leaves and stopped after |
| Worker.LoopRunsItsStage | src/pipeline/executor.rs:251-290 | without resets the loop runs its stage over the items taken: state, counters and, with all sends accepted, the output |
| Worker.LoopRunsSinceReset | src/pipeline/executor.rs:264-290 | after a pass that handles a reset and until the next such pass, state, counters and what was sent are those of the stage run from its reset state on the items taken since |
| Worker.AnsweredIs | src/pipeline/executor.rs:264-268 | the loop answers a reset with the run command, which unpauses, and touches its control block only for that |
| Worker.LoopBooksBalance | src/pipeline/executor.rs:264-290 | inputs counted are outputs, filtered or dropped, resets included |
| Worker.NothingAfterLeaving | src/pipeline/executor.rs:251-255 | no item is taken after a pass that sees the shutdown flag or a closed input |
| Worker.RunsUntilItLeaves | src/pipeline/executor.rs:251-300 | the loop ends with the first such pass and not before |
| Worker.UndisturbedPass | src/pipeline/executor.rs:251-301 | from any state of the machine with a worker at the top of its loop, its own next steps make exactly one pass of the loop |
| Network.StepKeepsLink | src/pipeline/executor.rs:271-283 | every step keeps each channel first-in first-out and within its capacity |
| Network.StepKeepsWorker | src/pipeline/executor.rs:251-301 | every step keeps a worker's results accounted for, its counters balanced and, before any reset, its state and results those of its stage's run |
| Network.StepKeepsEra | src/pipeline/executor.rs:264-290 | every step keeps a worker that has handled a reset as if it had started with the state that reset gave: state, results and counters since |
| NetworkReset.ResetStartsAnew | src/pipeline/executor.rs:264-290 | in every run from a reset to the next one, the worker's state, results and counters since are those of its stage run from the reset state |
| Network.OfferIsAcceptedIff | src/channel/sender.rs:44-56 | an offered item is accepted if and only if the first worker has not stopped and its queue has room |
| Network.ResultIsSentIff | src/pipeline/executor.rs:278-283 | a result is sent if and only if the next worker has not stopped and its queue has room, and counted as dropped otherwise |
| Network.ItemIsReceivedIff | src/pipeline/executor.rs:271-300 | what is queued is received first and in order, and only an empty queue without a sender ends the loop |
| Network.ReachableInv | src/pipeline/multi_stage.rs:446-546 | all of it holds at every state of every schedule of the wired pipeline |
| NetworkMeaning.DeliveredIsPrefix | src/pipeline/executor.rs:251-306 | whatever the schedule, pauses and capacities, with no reset and no failed send so far, the output is a prefix of the stages run one after the other |
| NetworkMeaning.QuietDeliveredAll | src/pipeline/executor.rs:251-306 | and it is all of it once the queues are empty and no worker holds an item |
| NetworkMeaning.FourStagesAreAChain | src/pipeline/multi_stage.rs:446-546 | for the four stages of the pipeline that meaning is the single-threaded chain |
| NetworkMeaning.ClosingLosesNothing | src/pipeline/executor.rs:297-300 | workers that stop because the input was closed leave nothing behind |
| NetworkMeaning.ItemsAreConserved | src/pipeline/executor.rs:271-290 | without resets, at every reachable state, accepted inputs are delivered, queued (also if abandoned), in hand, filtered or dropped |
| NetworkMeaning.ItemsAreAlwaysConserved | src/pipeline/executor.rs:251-290 | the same at every reachable state, resets included, with what each stage has filtered and failed to send in place of the counters that a reset clears |
| NetworkClosing.CutOffWorkerStops | src/pipeline/executor.rs:251-315 | once its sender is gone a worker that is not paused has at most eleven steps for each queued item and thirteen more, whatever else is commanded, and has stopped when it has made them |
| NetworkClosing.ClosingStopsAll | src/pipeline/executor.rs:251-315 | with the input closed and nobody paused, 11 * capacity + 13 rounds per worker stop all of them, a round being any run in which each worker not yet stopped makes a step |
| NetworkClosing.ClosedPipelineDeliversAll | src/pipeline/executor.rs:297-306 | such a run with no shutdown, reset or failed send, its output drained, has delivered all that the stages make of what was accepted |
| NetworkClosing.FairRoundsExist | src/pipeline/executor.rs:251-306 | any number of such rounds can be run from any state |
| NetworkMeaning.CountersAddUp | src/pipeline/executor.rs:271-290 | every stage's counters add up at every moment, resets or not, and no queue exceeds its capacity |
| NetworkMeaning.DeliveredIsSubsequence | src/pipeline/executor.rs:276-287 | for stateless stages, under any drops, resets, pauses and shutdowns, the output is an order-preserving subsequence of the composed filter-map of the inputs |
| NetworkMeaning.DisturbancesOnlyThinOut | src/pipeline/multi_stage.rs:446-546 | for four stateless stages that is a subsequence of what the single-threaded chain makes of the inputs |
| NetworkMeaning.FilterThenMap | src/pipeline/multi_stage.rs:126-132 | for the documented pipeline of pass-through, filter, map and pass-through, a subsequence of the filtered and mapped inputs |
| NetworkControl.ShutdownFlagIff | src/pipeline/stage_handle.rs:110-148 | in the running pipeline the flag is up exactly if a shutdown request was completed; no run, resume, pause, reset or reset handling takes it down |
| NetworkControl.ShutdownIsFinal | src/pipeline/executor.rs:251-255 | from then on the stage is called at most once more, and not at all unless the worker was past its check |
| NetworkControl.ShutdownIsPrompt | src/pipeline/executor.rs:251-301 | after at most eleven steps of its own the worker has left its loop |
| NetworkControl.QueuedIsReceivedIff | src/pipeline/executor.rs:251-271 | once shutdown is requested, what is queued for a worker is still received in some continuation if and only if the worker is past its check and not past receiving |
| NetworkControl.ShutdownAbandons | src/pipeline/multi_stage.rs:277-288 | from the start, one item accepted and a shutdown make a state from which that item is never received |
| NetworkControl.LeftBehindStays | src/pipeline/executor.rs:303-315 | a worker that has left receives nothing more |
| NetworkControl.PauseCanBeLostIff | src/pipeline/executor.rs:264-268 | with no further command a set pause flag can be lost if and only if the worker is between seeing a reset and clearing the flag for it |
| NetworkControl.RacingPauseCanBeLost | src/pipeline/executor.rs:264-268 | the race that gets there, from any worker at the top of its loop |
| NetworkControl.PauseStays | src/pipeline/executor.rs:257-261 | outside of that window a pause lasts until somebody commands otherwise |
| NetworkReset.ResetCanHappenIff | src/pipeline/executor.rs:264-268 | without another reset command a worker still resets in some continuation if and only if it has taken a reset up, or the command still says so and it gets to read it |
| NetworkReset.ResetWhilePausedIsLost | src/pipeline/stage_handle.rs:229-241 | a reset commanded while its worker is paused and at its checks, with no other command half stored, is never carried out |
| MultiStage.MultiStagePipeline.CommandAll | src/pipeline/multi_stage.rs:256-274 | each of the four controls receives the command, whatever its state |
| MultiStage.MultiStagePipeline.Pause | src/pipeline/multi_stage.rs:256-260 | all stages are paused and no shutdown flag changes |
| MultiStage.MultiStagePipeline.Resume | src/pipeline/multi_stage.rs:263-267 | no stage is paused and no shutdown flag changes |
| MultiStage.MultiStagePipeline.Reset | src/pipeline/multi_stage.rs:270-274 | all stages get the reset command and no flag changes |
| MultiStage.MultiStagePipeline.Shutdown | src/pipeline/multi_stage.rs:277-288 | all shutdown flags are up, pause flags kept, and the input is closed |
| MultiStage.MultiStagePipeline.TrySend | src/pipeline/multi_stage.rs:222-228 | accepts in order or hands the value back: after shutdown, without a receiver, when full |
| MultiStage.MultiStagePipeline.TryRecv | src/pipeline/multi_stage.rs:236-238 | the next output in order, if there is one |
| Fusion.PruningIsInvisible | src/stage/fusion.rs:186-203 | for nondecreasing primaries a run with pruning emits the pairs and the unmatched count of a run that never prunes |
| Fusion.NearestOfLastReadings | src/stage/fusion.rs:44-57 | the run that never prunes returns the nearest of the last CAPACITY readings within tolerance, in the same terms, or nothing exactly if none is within it |
| Fusion.ClosestIsNearest | src/stage/fusion.rs:44-57 | the search returns a live reading within the tolerance, no live one strictly between it and its mirror image about the target and no earlier slot as near, and nothing exactly if none is within the tolerance |
| Fusion.ClosestMeetsSpec | src/stage/fusion.rs:44-57 | the search does what it is to do, stated on timestamps without a distance |
| Fusion.NearestIsUnique | src/stage/fusion.rs:44-57 | and nothing else would |
| Fusion.DistanceIs | src/stage/fusion.rs:112-122 | the distance leads from the earlier to the later of two timestamps, and compares them as the search is to |
| Fusion.PrimaryIsMatched | src/stage/fusion.rs:186-203 | a primary is paired with what the search is to find, with the time between them, or counted as unmatched |
| FusionPairs.PairsAreInReach | src/stage/fusion.rs:186-203 | in every run a pair is its own primary, one of the last CAPACITY readings before it within the tolerance, and the time between them |
| FusionPairs.PairsAreNearest | src/stage/fusion.rs:186-203 | as long as no primary steps back none of those readings is nearer, and a primary is unmatched exactly if none is within the tolerance |
| FusionPairs.PairedOrCounted | src/stage/fusion.rs:186-203 | pairs and unmatched count add up to the primaries |
| Fusion.BufferIsSortedQueue | src/stage/fusion.rs:33-71 | for nondecreasing pushes the buffer is a sorted queue: one circular run of live slots ending before the write index, through any pushes and prunes |
| Fusion.CountIsLive | src/stage/fusion.rs:33-71 | so count is the number of live slots |
| Fusion.PushKeepsCountIff | src/stage/fusion.rs:33-39 | a push keeps an exact count exact if and only if it does not overwrite a live slot of a buffer with room |
| FusionCount.CountIsExactIff | src/stage/fusion.rs:33-71 | over whole runs, count is exact at every moment and whatever is pruned in between, if and only if no reading is newer than one pushed after it and before its slot is written again |
| Fusion.CountDriftsWhenUnordered | src/stage/fusion.rs:33-71 | readings out of order that make count wrong |
| FusionExact.PruningIsInvisibleIff | src/stage/fusion.rs:186-203 | with room for two readings, pruning never shows with given primary times, whatever the readings, if and only if every primary that is followed by an earlier one is at most the tolerance |
| FusionExact.StepBackShows | src/stage/fusion.rs:186-203 | for any two primaries in the wrong order, the larger one beyond the tolerance, and any before them, readings with which pruning changes the output |
| FusionExact.OneReadingIsNeverPruned | src/stage/fusion.rs:186-203 | with room for one reading pruning never shows |
| TimestampSync.TimestampBuffer.Push | src/stage/fusion.rs:33-39 | the in-place push is the push on values |
| TimestampSync.TimestampBuffer.FindClosest | src/stage/fusion.rs:44-57 | the loop finds what the search on values finds, and what it is to find by the timestamps |
| TimestampSync.TimestampBuffer.PruneBefore | src/stage/fusion.rs:60-71 | the loop clears what pruning on values clears, and counts it |
| TimestampSync.TimestampBuffer.Clear | src/stage/fusion.rs:86-92 | the buffer is as new |
| TimestampSync.TimestampSync.MatchPrimary | src/stage/fusion.rs:186-203 | pair and new state are those of the matching on values; the reading is the nearest within the tolerance, the difference the time between both, and what has none is counted |
| TimestampSync.TimestampSync.Process | src/stage/fusion.rs:227-235 | secondaries are stored, primaries matched |
| TimestampSync.TimestampSync.Reset | src/stage/fusion.rs:237-240 | the synchroniser is as new |
| Latency.PercentileIsRankStatistic | src/metrics/latency.rs:160-183 | a percentile is the bucket representative of the sample at the rank, in sorted order, that is the share p of the count rounded up |
| Latency.PercentileIsQuantile | src/metrics/latency.rs:160-183 | that is the least sample with at least the share p of all samples at or below it |
| Latency.QuantileExists | src/metrics/latency.rs:160-183 | there is one for every share and every nonempty list |
| Latency.TargetIs | src/metrics/latency.rs:171 | the target is the share p of the count rounded up |
| Latency.RepresentativeIs | src/metrics/latency.rs:90-114 | exactly: a sample of highest bit m >= 1 is reported as 2^m if m is a multiple of three, as 2^(m-1) if not, and as 2^18 from m = 19 on |
| Latency.PercentileBounds | src/metrics/latency.rs:90-183 | it is at most that sample, and more than a quarter of it from 2 ns to 2^20 ns |
| Latency.RepresentativeBounds | src/metrics/latency.rs:90-114 | what every sample is reported as, including below 2 ns and from 2^19 ns on |
| Latency.PercentileMonotone | src/metrics/latency.rs:160-183 | percentiles are monotone |
| Latency.PercentileWithinMax | src/metrics/latency.rs:160-183 | and never exceed the largest sample |
| LatencyHistogram.LatencyHistogram.Record | src/metrics/latency.rs:54-86 | buckets, count, wrapped sum and extremes are those of the samples with the new one |
| LatencyHistogram.LatencyHistogram.MinValue | src/metrics/latency.rs:134-141 | the least sample, or nothing |
| LatencyHistogram.LatencyHistogram.MaxValue | src/metrics/latency.rs:145-152 | the largest sample, or nothing |
| LatencyHistogram.LatencyHistogram.Percentile | src/metrics/latency.rs:160-183 | the scan returns the percentile of the samples, that is the representative of their quantile, and never runs out of buckets |
| LatencyHistogram.LatencyHistogram.Reset | src/metrics/latency.rs:210-218 | no samples are left |
| LatencyConcurrent.ScanNeverFallsThrough | src/metrics/latency.rs:54-183 | with any number of recorders the bucket total is at least count, and a concurrent scan never reaches its fall-through |
| LatencyConcurrent.ScanIsBracketed | src/metrics/latency.rs:160-183 | a concurrent scan returns a bucket at which the buckets at its end reach the target, and below which those at its start do not, the target being the share asked for of the count it loaded |
| LatencyConcurrent.QuiescentIsSequential | src/metrics/latency.rs:54-86 | once all are done buckets, count, sum and extremes are those of recording in sequence |
| Jitter.StoredMeanError | src/metrics/jitter.rs:84-131 | for samples below 2^32 the stored mean is never above the true one and short of it by at most (n+1)/2 units in the last place |
| Jitter.M2NeverDecreases | src/metrics/jitter.rs:107-128 | the stored squared deviation never decreases and stays within 2^32 - 1 |
| Jitter.RecordStores | src/metrics/jitter.rs:100-128 | what one record stores: the new mean, and M2 plus the distance from the old mean times that from the new, each cut off at the clamp and less than one unit short |
| Jitter.WelfordIsExact | src/metrics/jitter.rs:84-131 | without truncation n * mean is the sum and M2 the sum of squared deviations from the mean |
| Jitter.StoredWithinUnitIff | src/metrics/jitter.rs:239-243 | storing loses less than one unit exactly on the representable range |
| Jitter.RoundTripIff | src/metrics/jitter.rs:239-249 | a stored value survives loading and storing exactly if it is within the clamp |
| Jitter.ExtremesAreTrue | src/metrics/jitter.rs:253-273 | minimum and maximum are those of the samples |
| Jitter.UpdateMin | src/metrics/jitter.rs:253-261 | the loop leaves the smaller of value and minimum |
| Jitter.UpdateMax | src/metrics/jitter.rs:265-273 | the loop leaves the larger of value and maximum |
| Jitter.JitterTracker.Record | src/metrics/jitter.rs:84-131 | the method makes one step of the fixed-point algorithm |
| Jitter.JitterTracker.Reset | src/metrics/jitter.rs:229-235 | the tracker is as new |
| Jitter.JitterTracker.Variance | src/metrics/jitter.rs:152-159 | zero below two samples, else M2 over n - 1 |
| JitterConcurrent.EverySampleIsCounted | src/metrics/jitter.rs:118-123 | in every interleaving each finished record is counted exactly once |
| JitterConcurrent.SafeWinsAreSequential | src/metrics/jitter.rs:91-130 | if the attempts that win their exchange loaded mean and M2 with nobody about to store them, the statistics are those of recording in sequence; attempts that fail may load anything |
| JitterExact.RightForAllSamplesIff | src/metrics/jitter.rs:91-130 | a shape of schedule keeps the statistics right for all samples, at every point until the next win, if and only if all its wins are safe |
| JitterExact.UnsafeIsWrong | src/metrics/jitter.rs:114-130 | every schedule with an unsafe win has samples with which mean or M2 goes wrong |
| JitterExact.ExchangeDoesNotProtectMean | src/metrics/jitter.rs:114-130 | in particular two records of 8 can leave a mean of 4 |
| Kalman.CovarianceBounded | src/stage/filter.rs:339-355 | from the first update on the covariance is between 0 and R |
| Kalman.EstimateInHull | src/stage/filter.rs:339-355 | the estimate stays in the range of the first estimate and the measurements |
| Kalman.ConvergesToConstant | src/stage/filter.rs:339-355 | on a constant signal the error shrinks by R/(Q+R) an update |
| Kalman.CovarianceGapShrinks | src/stage/filter.rs:339-355 | the gap between two filters' covariances shrinks by the square of that |
| Kalman.RunExists | src/stage/filter.rs:339-355 | with positive noise no update divides by zero |
| Kalman.UpdateWeighs | src/stage/filter.rs:339-355 | an update weighs estimate and measurement by each other's variance, and leaves the product of both variances over their sum |
| Kalman.UpdateIsOptimal | src/stage/filter.rs:339-355 | no other gain leaves a smaller covariance |
| Kalman.KalmanFilter1D.Update | src/stage/filter.rs:339-355 | the method makes one step of such a run |
| Kalman.KalmanFilter1D.Reset | src/stage/filter.rs:376-379 | estimate 0 and covariance 1 |
| Filters.MovingAverage.Process | src/stage/filter.rs:118-132 | the result is the mean of the last min(n, WINDOW) samples since the last reset |
| Filters.MovingAverage.Current | src/stage/filter.rs:81-87 | that mean again, or nothing before the first sample |
| Filters.MovingAverage.Reset | src/stage/filter.rs:134-139 | no samples are left |
| Filters.SlidingTotal | src/stage/filter.rs:118-132 | sliding the window adds the new sample and subtracts the oldest exactly when it was full |
| Filters.MedianFilter.Process | src/stage/filter.rs:536-544 | the result is the median of the last min(n, WINDOW) samples since the last reset |
| Filters.MedianFilter.SortWindow | src/stage/filter.rs:510-519 | the in-place insertion sort computes the sort on values |
| Filters.SortFromSorts | src/stage/filter.rs:510-519 | which yields a sorted permutation |
| Filters.MiddleIsMedian | src/stage/filter.rs:505-523 | so the middle of the sorted buffer is the median of the window, rotated or not |
| Filters.MedianIsUnique | src/stage/filter.rs:505-523 | a window has one median |
| Filters.MeanIs | src/stage/filter.rs:81-87 | the mean times the number of samples is their sum |
| ExponentialAverage.ExponentialMovingAverage.Process | src/stage/filter.rs:230-241 | the result is the exponential average of all samples since the last reset, and its closed form |
| ExponentialAverage.EmaIsWeighted | src/stage/filter.rs:230-241 | sample i of n weighs alpha * (1 - alpha)^(n - 1 - i), and the first one (1 - alpha)^(n - 1) |
| ExponentialAverage.NewestWeighsAlpha | src/stage/filter.rs:230-241 | changing the newest of several samples by d changes the result by alpha * d |
| ExponentialAverage.StepResponse | src/stage/filter.rs:230-241 | after one sample a and k samples b the result is b + (1 - alpha)^k * (a - b) |
| ExponentialAverage.EmaInHull | src/stage/filter.rs:230-241 | it stays in the range of the samples |
| Clock.NeverDecreases | src/timestamp.rs:214-233 | along every schedule the shared timestamp never decreases |
| Clock.ReturnsAreMonotone | src/timestamp.rs:170-233 | a call returns at least its argument and at least what every call returned that finished before it began |
| Clock.QuiescentIsMaximum | src/timestamp.rs:214-233 | with no call under way the shared timestamp is the largest argument given |
| Clock.StampsAreNumbered | src/timestamp.rs:248-252 | stamps never share a number, and stamps that do not overlap are numbered in order |
| Clock.StampsMayInvertIff | src/timestamp.rs:248-252 | two stamps can come to be numbered against their times if and only if the earlier one has its time and not its number, or they are already |
| Clock.OverlappingStampsMayInvert | src/timestamp.rs:248-252 | overlapping stamps may be numbered against the order of their times |
| Clock.MonotonicClock.RecordTime | src/timestamp.rs:214-233 | the loop leaves and returns the larger of argument and last timestamp |
| Clock.MonotonicClock.StampWithTime | src/timestamp.rs:248-252 | data, that time and the next number |
| Clock.MonotonicClock.ResetSeq | src/timestamp.rs:265-267 | numbers start again from zero and the last timestamp stays |
| RateLimiter.SupplyBound | src/backpressure/rate_limiter.rs:129-203 | tokens granted up to time T plus tokens left never exceed the initial ones plus rate * T |
| RateLimiter.WindowBound | src/backpressure/rate_limiter.rs:129-203 | from one call to a later one, both included, the grants never exceed max(capacity, initial) plus rate times the time between them |
| RateLimiter.PaidInFullIff | src/backpressure/rate_limiter.rs:129-148 | a grant is paid for in full exactly below 2^32 tokens, where the price does not saturate |
| RateLimiter.PollingSucceedsIff | src/backpressure/rate_limiter.rs:177-203 | polling an empty limiter ever succeeds if and only if some two consecutive calls are a whole token apart |
| RateLimiter.FractionsAreLost | src/backpressure/rate_limiter.rs:177-203 | away from the capacity, granted and held tokens are the initial ones plus the whole tokens of every gap between calls; less than one token per call is lost |
| RateLimiter.RefillIs | src/backpressure/rate_limiter.rs:177-203 | a refill adds the whole tokens that the elapsed time is worth, up to exactly the capacity |
| TokenBucket.RefinesReference | src/backpressure/rate_limiter.rs:129-203 | with capacity and initial tokens below 2^32, every run grants and holds what a bucket of whole tokens does, for calls of any size |
| TokenBucket.GrantedIff | src/backpressure/rate_limiter.rs:129-148 | a call for n tokens is granted if and only if the whole tokens held, with those its gap is worth, up to the capacity, are at least n |
| TokenBucket.UnclampedGrantedIff | src/backpressure/rate_limiter.rs:129-148 | away from the capacity, if and only if the initial tokens and those of all gaps, less what was granted before, are at least n |
| TokenBucket.EarnedExists | src/backpressure/rate_limiter.rs:185-194 | what each gap is worth exists for every run |
| RateLimiter.RateLimiter.RefillTokens | src/backpressure/rate_limiter.rs:177-203 | the method refills as the function on values does |
| RateLimiter.RateLimiter.TryAcquireN | src/backpressure/rate_limiter.rs:129-151 | the method grants, charges and counts as the function on values does: exactly if the tokens there, with the whole ones earned since and up to the capacity, are at least n |
| RateLimiter.RateLimiter.Reset | src/backpressure/rate_limiter.rs:251-257 | the bucket is as new, its clock reading included |
| RateLimiterConcurrent.NoTokenSpentTwice | src/backpressure/rate_limiter.rs:129-203 | in every interleaving tokens paid, left and discarded are exactly the initial ones and those added |
| RateLimiterConcurrent.ConcurrentSupplyBound | src/backpressure/rate_limiter.rs:177-203 | racing clock reads loosen the supply bound by at most the rate times the distance that swaps moved the update time back |
| RateLimiterConcurrent.RacingReadsCreditTwice | src/backpressure/rate_limiter.rs:177-203 | and do so exactly, for every distance, by a schedule of three racing reads |
| RateLimiterConcurrent.UndisturbedCall | src/backpressure/rate_limiter.rs:129-203 | from any reachable state a thread that runs alone makes exactly one sequential call |
| Controller.ChangesAreSlow | src/backpressure/controller.rs:148-169 | from any state, level changes times threshold + 1 never exceed the updates made plus the hysteresis count at the start |
| Controller.ChangeNeedsStreak | src/backpressure/controller.rs:148-169 | the level changes only at the end of threshold + 1 consecutive readings outside the band; a reading inside it starts the count again |
| Controller.OverloadReachesMinimal | src/backpressure/controller.rs:148-169 | 4 * (threshold + 1) updates above the high mark reach Minimal from any state |
| Controller.RecoveryReachesFull | src/backpressure/controller.rs:148-169 | as many below the low mark reach Full from any state |
| Controller.LastReadingDecides | src/backpressure/controller.rs:148-169 | the counter is shared: after threshold + 1 readings of either kind the level follows the last one |
| Controller.EverySixteenthIsAccepted | src/backpressure/controller.rs:124-145 | across any level changes, forced or not, at least every sixteenth item is accepted, and the rest is counted as sampled out |
| Controller.SteadyShare | src/backpressure/controller.rs:29-145 | at a steady level l from 0 to 4 the share accepted is one in 2^l, within one item |
| Controller.RateIs | src/backpressure/controller.rs:29-37 | the sampling rates are 1, 2, 4, 8 and 16 |
| Controller.AdaptiveController.UpdateLevel | src/backpressure/controller.rs:148-169 | the method updates as the function on values does |
| Controller.AdaptiveController.ShouldAccept | src/backpressure/controller.rs:124-145 | the method updates, samples and counts as the function on values does, and accepts exactly the multiples of 2^level in the sampling counter |
| Controller.AdaptiveController.SetQuality | src/backpressure/controller.rs:172-175 | the level is forced and the hysteresis restarted |
| Controller.AdaptiveController.Reset | src/backpressure/controller.rs:196-202 | the controller is as new |

## Left out

- Kalman.KalmanFilter1D.Update: requires a nonzero denominator, where the float code would compute NaN.
- RingBuffer.RingBuffer.PeekInternal: returns a copy, where the program returns a reference; how long that reference is good is stated separately.
- NetworkControl.LeftBehindStays: keeps the queue of a stopped worker as it was, where the program's channel discards it with its receiver; neither is received.
- RateLimiter.FractionsAreLost: is for runs in which no refill is cut off at the capacity.
- RateLimiter.SupplyBound: for calls whose clock reads are nondecreasing, no reset, a rate that is not negative, and capacity and initial tokens below 2^32.
- TokenBucket.RefinesReference: for the same calls and configurations.
- Worker.StageWorker: takes what other threads decide, the flags it loads included, as a sequence of observations, so its output channel is not an object; the state machine has the channels.
- NetworkMeaning.DeliveredIsPrefix: is stated for stages that share one item type and one state type; differently typed stages are an instance through disjoint unions, which the model does not build.
- Rounding, NaN and infinities of f32 and f64: reals are used, apart from the fixed point of the jitter tracker and the saturating cast of the limiter.
- C11 weak memory: accesses interleave, with stale loads of the other index in the ring buffer only.
- Overflow of counters that only grow (sample, bucket, unmatched, sequence and metrics counters): unbounded here; the histogram's sum, the controller's counters and the ring's indices wrap.
- A `WINDOW`, `CAPACITY` or buffer size of zero, which panics or divides by zero in the program: a requirement of the constructors.
- Channels of capacity zero, which hand over directly: with capacity zero the model's channels refuse everything.
- Blocking `send` and `recv`: only their successful completion is a step.
- User-defined `tick` and `flush` in the threaded pipeline, and the output count of a failed final flush: stages there have the default ones, which do nothing.
- Lifecycle states other than those that a worker stores, `join` and its timeout, thread spawning, sleeping, wall-clock reads: time is an input, threads are steps.
- `batch_stage_worker`, which nothing calls.
- `reset` of histogram, jitter tracker and limiter and `reset_seq` of the clock while other threads use them: each is a method for one caller.
- Length queries from a third thread, which may see two unrelated indices.
- Concurrent updates of the adaptive controller: its loads and stores are modelled for one caller.
- The processing-time histogram and totals of stage metrics, and the approximate depth gauge of channels.
- `BackpressureProducer`, samplers, `LowPassFilter`, `HighPassFilter`, `Fuse`, `WeightedAverage`, `Inspect`: one-line bodies or wrappers of what is modelled.
- Object and buffer pools, cache padding, shared data: layout and bookkeeping.
- Dashboard, export, display, examples, benches, configuration, error types, mock sensors: formatting and terminal output.
- crossbeam: its channels are taken to be bounded queues that report full, empty and disconnected.
