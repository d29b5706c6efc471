# Verified model of the vllm_apple streaming, allocation and lifecycle core

This project models the parts of `vllm_apple` that keep state between calls, and proves what that
state guarantees over every input, every cut of a stream and every run.

- **Streaming audio** (`AudioPreprocessing.dfy`, `AudioStreamingState.dfy`,
  `AudioPublishedSignal.dfy`): a linear resampler, a downmix and a log-band encoder, each holding
  only a small tail between calls. Each stage is an online algorithm that refines a closed-form
  function of the whole stream, and their composition publishes the same features however the stream
  is cut into calls. `AudioPublishedSignal` says what is published in terms of the samples alone:
  weighted means of neighbouring frames, means over channels, logarithms of mean squares.
- **Pressure planning** (`AdaptiveStateAllocation.dfy`): the two greedy passes of the planner against
  a closed form, with conservation, minimality, monotonicity in pressure and independence of the
  listing order; and the coordinator that applies plans.
- **Bounded queues and caches** (`AudioDeadlineScheduler.dfy`, `AudioSchedulability.dfy`,
  `AudioEncoderCache.dfy`, `AudioCacheInclusion.dfy`, `AudioRingBuffer.dfy`,
  `AudioRingInterleaving.dfy`): the objects against simple specifications (a sorted queue of live
  tasks, a recency list, a FIFO of frames), and schedulability, inclusion and FIFO laws about those.
- **Incremental statistics** (`ActivationStatistics.dfy`): Welford's step and the pairwise merge equal
  the batch definitions, over exact reals.
- **Lifecycle protocols** (`BackendSupervision.dfy`, `HttpAdmission.dfy`, `BackendRouting.dfy`,
  `BackendComposition.dfy`): interleaved atomic steps with invariants over all runs.
- **Trend of resident memory** (`RssTrend.dfy`): the reported slope is the unique least-squares slope.
- `Results.dfy` holds the shared results, rounding divisions and sums.

## How to read the model

Samples, positions, times and statistics are exact reals or rationals; a read position of the
resampler is an integer numerator over `output_rate`. Clock readings, factory and commit outcomes,
engine replies and the logarithm are parameters. A raised exception is an `Err` or a constructor of a
result datatype. Objects that the source updates in place are classes whose methods are proved
against specification functions; a ghost field (written with a capital letter) records the history
that the specification talks about, such as all frames received.

What a specification function computes is stated once more without it, over the inputs alone: for
instance `OutputIsWeightedMean`, `DownmixIsMean` and `FeatureIsLogEnergy` for a session,
`ShrunkBytes`, `LastShrinkWasNeeded` and `LastEvictionWasNeeded` for a plan, `CountedTaskPostpones`
and `OtherTasksDoNotCount` for an admission, `EvictionMeaning` for a cache, `CallIsDecidedByFirstTaken`
for a routed call and `FailuresAre` for a shutdown.

What a specification function computes is stated once more without it, over the inputs alone: for
instance `OutputIsWeightedMean`, `DownmixIsMean` and `FeatureIsLogEnergy` for a session,
`ShrunkBytes`, `LastShrinkWasNeeded` and `LastEvictionWasNeeded` for a plan, `CountedTaskPostpones`
and `OtherTasksDoNotCount` for an admission, `EvictionMeaning` for a cache, `CallIsDecidedByFirstTaken`
for a routed call and `FailuresAre` for a shutdown.

What a specification function computes is stated once more without it, over the inputs alone: for
instance `OutputIsWeightedMean`, `DownmixIsMean` and `FeatureIsLogEnergy` for a session,
`ShrunkBytes`, `LastShrinkWasNeeded` and `LastEvictionWasNeeded` for a plan, `CountedTaskPostpones`
and `OtherTasksDoNotCount` for an admission, `EvictionMeaning` for a cache, `CallIsDecidedByFirstTaken`
for a routed call and `FailuresAre` for a shutdown.

Claims that turn out to need a condition are stated with it:

- A chunk refused by the feature stage (more than 4,000,000 mono samples) has already been consumed
  by the resampler, so such an `ingest` is not atomic. `Ingest` says exactly when this happens;
  `UpsampledChunkCanExceedFeatureBound` gives an input and `ModerateUpsamplingIsAccepted` a family of
  configurations that never meets it.
- A finished stream can be longer than its rounded target when the rate drops by more than half
  (`RoundedTargetCanBeExceeded`); `FinishedLengthIff` gives the exact condition.
- With a binding byte limit a larger cache can lack an entry of a smaller one
  (`ByteLimitCanBreakInclusion`); `LargerCacheIncludesSmallerIff` gives the exact condition over
  whole traces. With a fixed value and size per key it cannot happen (`ComputedCachesNest`).
- An admitted task can be late, or make an earlier admission late, for three reasons: a task in
  execution is not counted (`RunningTaskIsNotCounted`), nor is higher-priority work with a later
  deadline (`HigherPriorityIsNotCounted`), nor the slack of later tasks
  (`EarlierDeadlineCanBreakSchedule`). `AdmittedTasksAreOnTime` and `SafeIff` give the exact
  condition over whole runs, `QuietArrivalsAreOnTime` the runs that need no more than the test.
- A start can slip in after the locked part of a stop and before the stop returns, which then leaves a
  live child (`StopCanReturnWithLiveChild`); `StopIsFinalIff` gives the exact condition at the end of
  the locked part, `AliveAfterStopIff` the one at the return.
- The ring buffer's frame count loses an update when a store of one side falls between a load and a
  store of the other and moves frames (`ReadCanBeForgotten`); `CountIsExactIff` shows that nothing else
  does.
- An interruption of the dispatching call after its handler thread has begun gives a request slot back
  twice (`LateInterruptionUnderflows`); `UnderflowIff` gives the exact condition.
- An exception outside the `Exception` hierarchy during a rollback or shutdown stops the walk over
  the engines (`InterruptedCloseLeavesInstance`); `RollbackEmptiesIff` and `RunIsAllOrNothingIff` give the exact
  condition.

## Model

| member | source | states |
|---|---|---|
| LinearResampling.StreamingLinearResampler.Process | vllm_apple/audio_preprocessing.py:31-69 | One call emits exactly the part of the whole-stream output that the new frames determine (all the rest when final), rejects exactly the oversized or short inputs without any change, and a final call leaves a fresh stream |
| LinearResampling.StreamingLinearResampler.Accept | vllm_apple/audio_preprocessing.py:44-52 | The frames are split out of the interleaved samples and appended in order; what was already emitted is unaffected |
| LinearResampling.StreamingLinearResampler.EmitAvailable | vllm_apple/audio_preprocessing.py:55-56 | From an aligned state the main loop emits precisely the outputs whose upper neighbour has arrived, as interpolations of the whole stream |
| LinearResampling.StreamingLinearResampler.DiscardConsumed | vllm_apple/audio_preprocessing.py:57-60 | After dropping consumed frames exactly one frame remains (none before any input) and discarded frames plus position still account for every output emitted |
| LinearResampling.StreamingLinearResampler.PadToTarget | vllm_apple/audio_preprocessing.py:62-67 | At the end of the stream the loop terminates and repeats the last input frame up to the rounded target |
| LinearResampling.StreamingLinearResampler.AppendInterpolated | vllm_apple/audio_preprocessing.py:71-82 | One clamped interpolation of the buffer is appended, one more output is counted and the position advances by one step, kept within the buffer when clamping |
| LinearResampling.StreamingLinearResampler.GuardMeaning | vllm_apple/audio_preprocessing.py:55-55 | The loop guard on the rebased position holds exactly when the next output of the whole stream is already determined |
| LinearResampling.StreamingLinearResampler.NextIsInterpolation | vllm_apple/audio_preprocessing.py:72-78 | What the rebased buffer interpolates next is the whole stream's interpolation with that number |
| LinearResampling.StreamingLinearResampler.Reset | vllm_apple/audio_preprocessing.py:84-88 | A reset object behaves as one that has received nothing |
| LinearResampling.EmittedCountIsExact | vllm_apple/audio_preprocessing.py:55-56 | Output k is emitted early exactly when input frame number k*in/out + 1 has arrived |
| LinearResampling.OpenOutputAt | vllm_apple/audio_preprocessing.py:71-78 | Output k of an unfinished stream is the linear interpolation of the input at position k*in/out |
| LinearResampling.OpenOutputIsStable | vllm_apple/audio_preprocessing.py:54-69 | More input, or the end of the stream, never revises an output already emitted |
| LinearResampling.OutputsIgnoreLaterInput | vllm_apple/audio_preprocessing.py:54-61 | Outputs already determined are the same whatever follows in the input |
| LinearResampling.FinishedLengthIsRounded | vllm_apple/audio_preprocessing.py:63-67 | A finished stream has round-half-even(N*out/in) frames whenever the rate drops by at most half |
| LinearResampling.FinishedLengthIff | vllm_apple/audio_preprocessing.py:55-67 | At any rate the finished length is the rounded target exactly when the target reaches the position of the last input frame |
| LinearResampling.RoundedTargetCanBeExceeded | vllm_apple/audio_preprocessing.py:55-67 | Two frames at rate 4 to 1 yield one output although the rounded target is zero |
| LinearResampling.OutputStaysInRange | vllm_apple/audio_preprocessing.py:72-78 | Every output sample, padding included, lies between bounds of its channel's inputs |
| LinearResampling.AppendMix | vllm_apple/audio_preprocessing.py:75-78 | The channel loop appends exactly the frame interpolated between its two neighbours |
| LinearResampling.DeinterleaveFlatten | vllm_apple/audio_preprocessing.py:44-51 | Reading an interleaved buffer back gives the frames written to it, whatever follows them |
| LogBandEncoding.StreamingLogBandEncoder.Process | vllm_apple/audio_preprocessing.py:116-135 | One call returns exactly the windows that the new samples complete, with their stream positions, refuses exactly oversized chunks without change, and retains fewer samples than one window |
| LogBandEncoding.StreamingLogBandEncoder.EmitWindows | vllm_apple/audio_preprocessing.py:124-134 | The window loop emits the remaining whole-stream windows in order and keeps the tail of the stream for later ones |
| LogBandEncoding.StreamingLogBandEncoder.Reset | vllm_apple/audio_preprocessing.py:141-143 | A reset encoder behaves as one that has received nothing |
| LogBandEncoding.EncodeBands | vllm_apple/audio_preprocessing.py:126-131 | The band loop produces one log energy per band of the window, the energy floored at 1e-12 |
| LogBandEncoding.BandsPartition | vllm_apple/audio_preprocessing.py:128-129 | The bands are consecutive non-empty slices from the first sample to the last of the window |
| LogBandEncoding.BandsConserveEnergy | vllm_apple/audio_preprocessing.py:127-131 | The band energies weighted by their sizes add up to the window's total squared signal |
| LogBandEncoding.WindowCountIsExact | vllm_apple/audio_preprocessing.py:124-134 | Window j exists exactly when j*hop + frame_length samples have arrived |
| LogBandEncoding.FeaturesAt | vllm_apple/audio_preprocessing.py:124-134 | Feature frame j is the window starting at sample j*hop of the whole stream |
| LogBandEncoding.FeaturesAreStable | vllm_apple/audio_preprocessing.py:123-135 | Later samples never change feature frames already emitted |
| LogBandEncoding.RetainedTail | vllm_apple/audio_preprocessing.py:133-139 | The samples needed for later windows always exist and are fewer than frame_length |
| AudioStreaming.StreamingAudioSession.Ingest | vllm_apple/audio_streaming_state.py:87-123 | Refused calls (closed, wrong sequence, budget, malformed chunk) change nothing; an accepted call advances the counters and publishes exactly what its frames add to the whole-stream features; with the stages in step it fails exactly when the fresh outputs exceed the feature bound, and then the resampler has already consumed the chunk |
| AudioStreaming.StreamingAudioSession.IngestAdmitted | vllm_apple/audio_streaming_state.py:105-123 | The admitted part of a call: accepted or lost in the feature stage, with nothing in between |
| AudioStreaming.StreamingAudioSession.Commit | vllm_apple/audio_streaming_state.py:109-113 | The counters and the closed flag advance together, and stay those of the accepted frames |
| AudioStreaming.StreamingAudioSession.RunStages | vllm_apple/audio_streaming_state.py:105-108 | The three stages composed: the new outputs complete the whole-stream output, and their mono mix extends the whole-stream features |
| AudioStreaming.StreamingAudioSession.SetRecurrentState | vllm_apple/audio_streaming_state.py:125-137 | A state is stored exactly when the session is open and the total bytes after replacement stay within the budget; otherwise nothing changes |
| AudioStreaming.StreamingAudioSession.Close | vllm_apple/audio_streaming_state.py:155-160 | Closing releases all stage and recurrent state and is remembered |
| AudioStreaming.PlayStream | vllm_apple/audio_streaming_state.py:87-123 | Ingesting the chunks of a stream in order publishes the features of the whole stream and the finished number of resampled frames, and within the stated bounds no call fails |
| AudioStreaming.DownmixFlatten | vllm_apple/audio_streaming_state.py:234-240 | Downmixing interleaved samples is the per-frame channel mean; one channel passes through unchanged |
| AudioStreaming.StageComposition | vllm_apple/audio_streaming_state.py:105-108 | Resampler, downmix and encoder refinements compose to the session's increment |
| AudioStreaming.SessionFeaturesAreStable | vllm_apple/audio_streaming_state.py:87-123 | Features published so far are a prefix of those of any continuation |
| AudioStreaming.PlayedCompletesStream | vllm_apple/audio_streaming_state.py:87-123 | From any point on, the features of the remaining calls complete those already published to the whole stream's |
| AudioStreaming.PlayedFromStart | vllm_apple/audio_streaming_state.py:87-123 | All features of a session equal the features of the joined stream |
| AudioStreaming.ChunkInvariance | vllm_apple/audio_streaming_state.py:87-123 | Two ways of cutting the same frames into calls publish the same features with the same start samples |
| AudioStreaming.SameSamplesSameFeatures | vllm_apple/audio_streaming_state.py:87-123 | Chunk invariance stated on the interleaved sample stream itself |
| AudioStreaming.ChunksAreCuts | vllm_apple/audio_streaming_state.py:87-123 | The frames of exact chunks, joined, are the frames of the flat stream they were cut from |
| AudioStreaming.DeinterleaveConcat | vllm_apple/audio_streaming_state.py:105-105 | Splitting into frames distributes over concatenated chunks |
| AudioStreaming.UpsampledChunkCanExceedFeatureBound | vllm_apple/audio_streaming_state.py:105-108 | A chunk within the resampler's bound at 8 kHz to 48 kHz overflows the feature stage |
| AudioStreaming.ModerateUpsamplingIsAccepted | vllm_apple/audio_streaming_state.py:105-108 | Up to fourfold upsampling, chunks below the resampler's bound are never refused by the feature stage |
| AdaptiveStateAllocation.PlanFor | vllm_apple/adaptive_state_allocation.py:84-150 | The planner rejects exactly oversized lists and repeated ids, and otherwise returns the closed-form plan |
| AdaptiveStateAllocation.ShrinkPass | vllm_apple/adaptive_state_allocation.py:101-119 | The first pass shrinks the shortest oldest-first stretch that meets the limit, and its running total is the sum of what remains |
| AdaptiveStateAllocation.EvictPass | vllm_apple/adaptive_state_allocation.py:121-129 | The second pass evicts the shortest oldest-first stretch that meets the limit; undoing earlier shrink choices keeps the running total equal to what remains |
| AdaptiveStateAllocation.BuildActions | vllm_apple/adaptive_state_allocation.py:131-149 | Each record gets, in listing order, the action of its choice |
| AdaptiveStateAllocation.SortedOrderIsUnique | vllm_apple/adaptive_state_allocation.py:103-106 | With unique ids the oldest-first order is strict: there is one sorted order |
| AdaptiveStateAllocation.PlanConservesBytes | vllm_apple/adaptive_state_allocation.py:92-150 | The plan's target total is the sum of the target bytes of its actions |
| AdaptiveStateAllocation.PlanRespectsRecords | vllm_apple/adaptive_state_allocation.py:107-150 | Pinned records are retained, nothing grows, only CRITICAL evicts, and a shrunk record moves to a narrower promoted precision with non-zero size |
| AdaptiveStateAllocation.PlanMeetsLimitIfPossible | vllm_apple/adaptive_state_allocation.py:93-129 | Either the target is within the limit, or under CRITICAL every unpinned record is evicted and under WARNING every reducible unpinned record is shrunk |
| AdaptiveStateAllocation.PlanIsMonotoneInPressure | vllm_apple/adaptive_state_allocation.py:93-150 | The target under CRITICAL is at most that under WARNING, which is at most the source total, which NORMAL and UNKNOWN keep |
| AdaptiveStateAllocation.PlanEvictsOldestLast | vllm_apple/adaptive_state_allocation.py:121-129 | Evictions are a prefix of the oldest-first order and happen only after every reducible unpinned record was shrunk or evicted |
| AdaptiveStateAllocation.PlanIsMinimal | vllm_apple/adaptive_state_allocation.py:107-129 | Undoing the last choice made would exceed the limit |
| AdaptiveStateAllocation.PlanIgnoresListingOrder | vllm_apple/adaptive_state_allocation.py:103-106 | Permuting the records changes neither totals nor the action of any id |
| AdaptiveStateAllocation.UnchangedPlanKeepsBytes | vllm_apple/adaptive_state_allocation.py:206-210 | A plan without a change releases nothing |
| AdaptiveStateAllocation.ShrinkCountAntitone | vllm_apple/adaptive_state_allocation.py:107-109 | A lower limit never stops the first pass earlier |
| AdaptiveStateAllocation.AdaptiveStateCoordinator.Request | vllm_apple/adaptive_state_allocation.py:197-225 | Deferred, ignored, applied, rejected and rolled-back requests each update pending pressure and counters exactly as described, and an applied one records the bytes the plan releases |
| AdaptiveStateAllocation.AdaptiveStateCoordinator.ApplyPending | vllm_apple/adaptive_state_allocation.py:227-232 | A remembered pressure is retried; without one nothing happens |
| AudioEncoderCaching.AudioEncoderCache.Get | vllm_apple/audio_encoder_cache.py:97-106 | A hit returns the stored value and moves it to the recent end, a miss changes only the miss counter; the stored entries stay the same |
| AudioEncoderCaching.AudioEncoderCache.Put | vllm_apple/audio_encoder_cache.py:108-127 | A put is stored exactly when its size is within bounds; the new entry is then newest, and the evictions counted are the entries dropped |
| AudioEncoderCaching.AudioEncoderCache.ReplaceEntry | vllm_apple/audio_encoder_cache.py:115-119 | An entry with the same digest is replaced and resident bytes stay the sum of sizes |
| AudioEncoderCaching.AudioEncoderCache.EvictOldest | vllm_apple/audio_encoder_cache.py:120-126 | The eviction loop terminates with the entries that satisfy both limits and the exact resident bytes |
| AudioEncoderCaching.AudioEncoderCache.GetOrCompute | vllm_apple/audio_encoder_cache.py:129-139 | A hit answers the cached value, a miss the computed one, and the entries become those of a lookup or of a put; with digests that do not collide and values computed by f, the answer is always f(key) |
| AudioEncoderCaching.AudioEncoderCache.ClearAll | vllm_apple/audio_encoder_cache.py:141-144 | Clearing empties the entries and the byte count |
| AudioEncoderCaching.EvictKeepsLongestSuffix | vllm_apple/audio_encoder_cache.py:120-126 | What eviction keeps is the longest recent stretch satisfying both limits |
| AudioEncoderCaching.NewestSurvives | vllm_apple/audio_encoder_cache.py:118-127 | The entry just put is present afterwards |
| AudioEncoderCaching.StepKeepsShape | vllm_apple/audio_encoder_cache.py:97-144 | Every operation keeps digests unique and both limits |
| AudioDeadlineScheduling.AudioDeadlineScheduler.Submit | vllm_apple/audio_deadline_scheduler.py:90-113 | A task is admitted exactly when its id is new, there is room, and now + counted backlog + estimate meets its deadline; then it takes its place in the order of live tasks |
| AudioDeadlineScheduling.AudioDeadlineScheduler.QueuedAhead | vllm_apple/audio_deadline_scheduler.py:96-102 | The summing loop over the heap gives the estimates of the live tasks that are at least as urgent in class and deadline |
| AudioDeadlineScheduling.AudioDeadlineScheduler.Cancel | vllm_apple/audio_deadline_scheduler.py:115-121 | A queued task not yet cancelled disappears from the live tasks, and only then the counter moves |
| AudioDeadlineScheduling.AudioDeadlineScheduler.PopActive | vllm_apple/audio_deadline_scheduler.py:166-174 | The first live task is handed out, or nothing is left at all; the counters stay in balance |
| AudioDeadlineScheduling.AudioDeadlineScheduler.PopEntries | vllm_apple/audio_deadline_scheduler.py:167-174 | The popping loop drops cancelled entries until a live one comes up and keeps identifiers equal to the queued ids |
| AudioDeadlineScheduling.AudioDeadlineScheduler.RunNext | vllm_apple/audio_deadline_scheduler.py:123-164 | The outcome names the first live task, is missed exactly when started after the deadline and completed in time exactly when finished by it, with its exact lateness and counters |
| AudioDeadlineScheduling.AudioDeadlineScheduler.RecordExpiry | vllm_apple/audio_deadline_scheduler.py:130-135 | A missed task is counted once and the maximum lateness covers it |
| AudioDeadlineScheduling.AudioDeadlineScheduler.RecordCompletion | vllm_apple/audio_deadline_scheduler.py:148-154 | A completed task is counted once, as a miss exactly when late, and the maximum lateness covers it |
| AudioDeadlineScheduling.AudioDeadlineScheduler.Drain | vllm_apple/audio_deadline_scheduler.py:123-174 | Draining hands out exactly the live tasks, each once, in priority, deadline and submission order |
| AudioDeadlineScheduling.PopHandsOutFirstActive | vllm_apple/audio_deadline_scheduler.py:166-174 | Popping from the lazily cancelled heap is taking the head of the live tasks, and the queue depth falls by one exactly when a task is handed out |
| AudioDeadlineScheduling.SubmitRefines | vllm_apple/audio_deadline_scheduler.py:106-113 | An admitted task is inserted at its place among the live tasks and ids stay unique |
| AudioDeadlineScheduling.CancelRefines | vllm_apple/audio_deadline_scheduler.py:115-121 | Lazy cancellation is removal from the live tasks |
| AudioDeadlineScheduling.CancelledTaskIsGone | vllm_apple/audio_deadline_scheduler.py:115-121 | A cancelled task is no longer among the live tasks and all others stay |
| AudioRingBuffering.AudioRingBuffer.WriteFrom | vllm_apple/audio_ring_buffer.py:52-74 | Accepted frames are appended to the queue and counted, the excess counted as overflow; a non-finite sample among the frames that fit rejects the call with queue, positions and counters unchanged |
| AudioRingBuffering.AudioRingBuffer.FillSlots | vllm_apple/audio_ring_buffer.py:61-69 | The producer loop writes only free slots: stored frames survive also when it stops at a non-finite sample |
| AudioRingBuffering.AudioRingBuffer.WriteFrame | vllm_apple/audio_ring_buffer.py:65-69 | The channel loop changes one slot only and completes exactly on finite samples |
| AudioRingBuffering.AudioRingBuffer.Publish | vllm_apple/audio_ring_buffer.py:70-74 | Advancing the write position modulo capacity publishes the frames written |
| AudioRingBuffering.AudioRingBuffer.ReadInto | vllm_apple/audio_ring_buffer.py:76-95 | The oldest frames are copied out in order and leave the queue; the rest of the output is untouched and the shortfall counted as underrun |
| AudioRingBuffering.AudioRingBuffer.CopyOut | vllm_apple/audio_ring_buffer.py:85-90 | The consumer loop copies the oldest frames across the wraparound |
| AudioRingBuffering.AudioRingBuffer.CopyFrame | vllm_apple/audio_ring_buffer.py:89-90 | The channel loop copies one slot and nothing else |
| AudioRingBuffering.AudioRingBuffer.Consume | vllm_apple/audio_ring_buffer.py:91-95 | Advancing the read position modulo capacity drops the frames read |
| AudioRingBuffering.AudioRingBuffer.Clear | vllm_apple/audio_ring_buffer.py:97-101 | Unread frames are discarded; the counters stay |
| AudioRingBuffering.SlotsDiffer | vllm_apple/audio_ring_buffer.py:62-62 | Different distances below capacity reach different slots |
| AudioRingBuffering.JoinMirrors | vllm_apple/audio_ring_buffer.py:70-71 | Frames stored from one position followed by frames stored right behind them are stored contiguously across the wraparound |
| AudioRingBuffering.DropMirrors | vllm_apple/audio_ring_buffer.py:91-92 | After dropping n frames the rest is stored from the advanced read position |
| AudioRingBuffering.WriteKeepsMirrors | vllm_apple/audio_ring_buffer.py:61-69 | Writing a free slot leaves the stored frames alone |
| AudioRingBuffering.OtherSlotsKept | vllm_apple/audio_ring_buffer.py:62-69 | Writing inside one slot of the flat array leaves the frames of all other slots alone |
| ActivationStatistics.Accumulate | vllm_apple/activation_statistics.py:41-62 | The update loop accepts exactly finite batches within the bound, reports the first offending condition, and accumulates the batch definitions of count, mean, m2, extrema and zeros |
| ActivationStatistics.OnlineActivationStatistics.Absorb | vllm_apple/activation_statistics.py:63-78 | The locked merge makes the accumulator describe all values so far followed by the new ones |
| ActivationStatistics.OnlineActivationStatistics.Update | vllm_apple/activation_statistics.py:40-79 | A failing update changes nothing and fails exactly for the stated reasons; a successful one appends its values |
| ActivationStatistics.OnlineActivationStatistics.TakeSnapshot | vllm_apple/activation_statistics.py:81-93 | The snapshot is empty exactly when nothing was accepted, and otherwise describes all accepted values |
| ActivationStatistics.MeanStep | vllm_apple/activation_statistics.py:54-55 | The mean moves by delta over the new count |
| ActivationStatistics.WelfordStep | vllm_apple/activation_statistics.py:54-56 | The squared deviation grows by delta times the distance from the new mean |
| ActivationStatistics.DeviationAroundMean | vllm_apple/activation_statistics.py:54-56 | Around any centre the squared deviation is that around the mean plus the count times the squared shift |
| ActivationStatistics.PushIsAppend | vllm_apple/activation_statistics.py:50-60 | One loop step gives the batch summary of one more value |
| ActivationStatistics.MergeMeans | vllm_apple/activation_statistics.py:68-70 | The merged mean is the mean of the concatenation |
| ActivationStatistics.MergeDeviations | vllm_apple/activation_statistics.py:68-69 | The merged m2 is the squared deviation of the concatenation from its mean |
| ActivationStatistics.MergeIsConcat | vllm_apple/activation_statistics.py:67-78 | Merging two summaries gives the summary of the concatenation, an empty left side included |
| ActivationStatistics.MergeAllIsBatch | vllm_apple/activation_statistics.py:63-78 | Any sequence of merges gives the batch summary of everything seen |
| ActivationStatistics.SplitDoesNotMatter | vllm_apple/activation_statistics.py:63-78 | However the values are split into updates, the accumulated statistics are the same |
| ActivationStatistics.ExtremaAreAttained | vllm_apple/activation_statistics.py:57-60 | Minimum, maximum and absolute maximum bound all values and are attained |
| ActivationStatistics.SnapshotDescribes | vllm_apple/activation_statistics.py:85-93 | The published variance is the mean squared deviation, and the other fields are those of all values |
| BackendSupervision.LiveChildIsNewest | vllm_apple/backend.py:226-323 | A child is gone before the next is created, so a live child is the newest one |
| HttpAdmission.BoundedRuntimeServer.ProcessRequest | vllm_apple/api.py:252-263 | A connection is admitted exactly while the server accepts and a permit is free; peak and rejection counters follow |
| HttpAdmission.BoundedRuntimeServer.RetireRequest | vllm_apple/api.py:220-228 | The locked decrement; below zero it is an error that leaves the negative count and nothing else changed |
| HttpAdmission.BoundedRuntimeServer.ReturnPermit | vllm_apple/api.py:229-229 | The later release of the permit, with the over-release error of a bounded semaphore |
| HttpAdmission.RequestByteBudget.Reserve | vllm_apple/api.py:65-74 | A reservation within bounds is granted exactly when it fits in the budget; refusals are counted; others are errors without change |
| HttpAdmission.RequestByteBudget.Release | vllm_apple/api.py:76-82 | A release is subtracted; negative amounts are refused without change, and an underflow is an error that leaves the negative count |
| HttpAdmission.SettleKeepsInvariant | vllm_apple/api.py:560-572 | Giving one holder's bytes back keeps in-flight bytes equal to the outstanding reservations |
| HttpAdmission.ByteStepKeepsInvariant | vllm_apple/api.py:94-107 | Each step of a handler or of a native completion, early or late, keeps the byte account |
| HttpAdmission.ByteRunKeepsInvariant | vllm_apple/api.py:65-107 | In every reachable state in-flight bytes are the sum of outstanding reservations, within the budget, and released at most once each |
| HttpAdmission.QuiescentBudgetIsEmpty | vllm_apple/api.py:94-107 | With nothing outstanding all bytes are back and every non-empty grant was released exactly once |
| BackendRouting.BackendEngineRegistry.Execute | vllm_apple/backend_engine.py:141-181 | A call returns the outcome of routing along the candidates and records exactly its attempts in order |
| BackendRouting.BackendEngineRegistry.RecordAttempt | vllm_apple/backend_engine.py:200-210 | One more attempt is accounted for and no telemetry key is ever dropped |
| BackendRouting.BackendEngineRegistry.Note | vllm_apple/backend_engine.py:151-152 | The call's own list of attempts and the recorded ones grow together |
| BackendRouting.RouteFollowsCandidates | vllm_apple/backend_engine.py:147-181 | Attempts follow the candidate order up to the first candidate that is not passed over; every earlier one was ineligible or failed retryably, only the last can have succeeded, and exhaustion means that all were passed over |
| BackendRouting.AskMeaning | vllm_apple/backend_engine.py:148-180 | A candidate is passed over exactly for an ineligibility or a retryable failure; anything else ends the call |
| BackendRouting.CountKnown | vllm_apple/backend_engine.py:203-210 | After one more attempt each key present still has its exact number of occurrences, at most 256 keys exist, and overflow counts exactly the attempts whose key is absent |
| BackendComposition.ManagedEngine.Start | vllm_apple/backend_composition.py:43-60 | An engine that holds an instance keeps it; otherwise one is made, kept when ready and closed once when not; each of the five ways to end is told apart |
| BackendComposition.ManagedEngine.Stop | vllm_apple/backend_composition.py:91-98 | The instance is let go before its close is called once; a missing, failing or untrue close is an error |
| BackendComposition.ProductionComposition.Start | vllm_apple/backend_composition.py:145-161 | One start is the transition of the specification: all engines in order, then the registry, else rollback of those started |
| BackendComposition.ProductionComposition.Close | vllm_apple/backend_composition.py:163-168 | The registry is withdrawn first, then every engine is stopped although some fail; the failures are reported in shutdown order |
| BackendComposition.ProductionComposition.StopDown | vllm_apple/backend_composition.py:155-161 | The reverse walk stops every engine, skips failures, and ends early exactly at an interruption |
| BackendComposition.ProductionComposition.StartEngines | vllm_apple/backend_composition.py:150-152 | The start loop reaches the specified world and stops at the first engine that does not hold |
| BackendComposition.RollbackKeepsBalance | vllm_apple/backend_composition.py:155-161 | A rollback, interrupted or not, keeps the account of instances |
| BackendComposition.StartingKeepsBalance | vllm_apple/backend_composition.py:150-152 | Starting engines one by one keeps the account, and exactly the engines started hold |
| BackendComposition.StepKeepsAccount | vllm_apple/backend_composition.py:145-168 | Every transition keeps: each instance with a callable close is held by one engine and not closed, or closed exactly once; a published registry means that all engines hold |
| BackendComposition.RunKeepsAccount | vllm_apple/backend_composition.py:145-168 | The account holds over every run, interruptions included |
| BackendComposition.RollbackEmptiesIff | vllm_apple/backend_composition.py:155-161 | A rollback leaves no engine holding exactly when no close above the first engine is interrupted; other engines are untouched |
| BackendComposition.RunIsAllOrNothing | vllm_apple/backend_composition.py:145-168 | Over every run without interruption: all or nothing, and while nothing is published every closable instance ever made has been closed exactly once |
| BackendComposition.RollbackOrder | vllm_apple/backend_composition.py:155-161 | The close calls of a rollback are issued in reverse engine order |
| BackendComposition.FailedStartClosesNewestFirst | vllm_apple/backend_composition.py:145-161 | A failed start, a rejection by the registry included, closes every instance it made, newest first |
| BackendComposition.CloseReleasesAll | vllm_apple/backend_composition.py:163-168 | Closing releases all engines in reverse order |
| BackendComposition.InterruptedCloseLeavesInstance | vllm_apple/backend_composition.py:163-168 | An interruption during shutdown leaves an earlier engine holding, and a second close does nothing about it |
| BackendComposition.RegistryAcceptsIff | vllm_apple/backend_engine.py:132-134 | The registry takes exactly non-empty sets without a repeated backend; the bound on their number never decides |
| RssTrend.RecentTrend | scripts/qualify_gemma2_batch_mask.py:266-319 | An invalid epoch is rejected and a short one has no slope, exactly; otherwise the slope is the least-squares slope of the recent half, with growth and plateau flag from exact values |
| RssTrend.Invalid | scripts/qualify_gemma2_batch_mask.py:270-279 | The validating loop accepts exactly plausible samples with strictly increasing elapsed time |
| RssTrend.SpreadIsPositive | scripts/qualify_gemma2_batch_mask.py:301-305 | Strictly increasing times make the denominator positive, so the 0.0 fallback is unreachable |
| RssTrend.FitIsLeast | scripts/qualify_gemma2_batch_mask.py:299-305 | Among all lines the fitted one, and no other, has the least squared residual |
| RssTrend.BestSlopeIsUnique | scripts/qualify_gemma2_batch_mask.py:299-305 | A slope is optimal for some intercept exactly when it is the reported one |
| RssTrend.ShiftKeepsBestSlope | scripts/qualify_gemma2_batch_mask.py:292-297 | Measuring time from the first recent sample does not change the optimal slope |
| RssTrend.LinearGrowthIsRecovered | scripts/qualify_gemma2_batch_mask.py:299-307 | Memory growing at a constant rate is reported with exactly that rate |
| AudioSchedulability.FeasibleIff | vllm_apple/audio_deadline_scheduler.py:96-105 | A back-to-back schedule is feasible exactly when each task's planned finish meets its deadline |
| AudioSchedulability.InsertFeasibleIff | vllm_apple/audio_deadline_scheduler.py:96-105 | Inserting a task into a feasible schedule keeps it feasible exactly when the task is on time behind the work that runs before it and each later task is planned to finish at least the new estimate before its deadline; the start of the schedule is a parameter |
| AudioSchedulability.LastArrivalSeesWholeBacklog | vllm_apple/audio_deadline_scheduler.py:96-103 | For a task that is last in the order the admission test counts exactly the queued work ahead of it, and nothing behind it needs slack |
| AudioSchedulability.ArrivalKeepsSafeIff | vllm_apple/audio_deadline_scheduler.py:90-113 | With a task possibly executing, an admission keeps the line safe exactly when the task fits behind the executing task and the work ahead, and what is behind it can wait |
| AudioSchedulability.LastArrivalAccommodatedIff | vllm_apple/audio_deadline_scheduler.py:96-105 | A task that is last in the order fits exactly when the counted backlog, measured from the end of the executing task and not from now, meets its deadline |
| AudioSchedulability.EventKeepsSafe | vllm_apple/audio_deadline_scheduler.py:115-164 | Cancellation, the start and the end of an execution and the passing of time keep the line safe and are never late |
| AudioSchedulability.SafeIff | vllm_apple/audio_deadline_scheduler.py:123-174 | A line is safe exactly when no continuation without arrivals, with executions within their estimates, makes any task late |
| AudioSchedulability.UnsafeRunsLate | vllm_apple/audio_deadline_scheduler.py:123-174 | From an unsafe line the run in which every execution takes its whole estimate makes a task late |
| AudioSchedulability.AdmittedTasksAreOnTime | vllm_apple/audio_deadline_scheduler.py:90-164 | Along every run from a safe line, with submissions also during executions, the line stays safe throughout exactly when every admitted task is accommodated at its arrival, and then no task is late |
| AudioSchedulability.QuietArrivalsAreOnTime | vllm_apple/audio_deadline_scheduler.py:90-164 | If tasks arrive last in the order and while nothing executes, the admission test alone keeps every admitted task on time |
| AudioSchedulability.EmptySchedulerIsOnTime | vllm_apple/audio_deadline_scheduler.py:90-164 | Both results for runs from an empty scheduler |
| AudioSchedulability.RunningTaskIsNotCounted | vllm_apple/audio_deadline_scheduler.py:96-105 | A task that arrives last during an execution is admitted with nothing queued and runs late although everything keeps to its estimate |
| AudioSchedulability.EarlierDeadlineCanBreakSchedule | vllm_apple/audio_deadline_scheduler.py:96-105 | An earlier-deadline task is admitted although it makes a safe line unsafe |
| AudioSchedulability.HigherPriorityIsNotCounted | vllm_apple/audio_deadline_scheduler.py:96-102 | Higher-priority work with a later deadline is not counted, so a task that will be late is admitted |
| AudioCacheInclusion.GetKeepsInclusion | vllm_apple/audio_encoder_cache.py:97-106 | A lookup keeps the inclusion between any two caches, and the larger answers every hit of the smaller with the same entry |
| AudioCacheInclusion.PutKeepsInclusionIff | vllm_apple/audio_encoder_cache.py:108-127 | A put with eviction, under any limits, keeps the inclusion exactly when the larger list, from the oldest entry that the smaller cache keeps on, fits the larger cache |
| AudioCacheInclusion.IncludedPutKeepsInclusionIff | vllm_apple/audio_encoder_cache.py:108-127 | While a smaller cache with room left equals the larger one, only the bytes of that stretch decide |
| AudioCacheInclusion.SuffixEmbedsIff | vllm_apple/audio_encoder_cache.py:120-126 | Of a list that includes another, the last k entries include it exactly when they reach back to its oldest entry |
| AudioCacheInclusion.EvictionReachesIff | vllm_apple/audio_encoder_cache.py:120-126 | Eviction keeps a recent stretch exactly when the stretch satisfies both limits |
| AudioCacheInclusion.LargerCacheIncludesSmallerIff | vllm_apple/audio_encoder_cache.py:97-144 | Along any trace, for any two entry limits under one byte limit, the larger cache includes the smaller one throughout exactly when each accepted put leaves it able to; and then the smaller has no more hits |
| AudioCacheInclusion.InclusionFromEmpty | vllm_apple/audio_encoder_cache.py:97-144 | The same from two empty caches; a byte limit that never binds in the larger cache suffices |
| AudioCacheInclusion.PlentifulBytesKeepIncluded | vllm_apple/audio_encoder_cache.py:97-144 | With the byte limit not binding, inclusion holds along every trace when the entry limits are ordered |
| AudioCacheInclusion.ByteLimitCanBreakInclusion | vllm_apple/audio_encoder_cache.py:120-126 | One trace from two empty caches after which the larger cache lacks an entry that the smaller one keeps |
| AudioCacheInclusion.ComputedCachesNest | vllm_apple/audio_encoder_cache.py:129-144 | When values and sizes are fixed per key, along every trace of get_or_compute and clear and whatever the byte limit, the smaller cache is the most recent part of the larger one and has no more hits |
| AudioCacheInclusion.FetchKeepsNested | vllm_apple/audio_encoder_cache.py:129-139 | One get_or_compute keeps that nesting, hit or miss in either cache |
| BackendSupervision.StepKeepsInvariant | vllm_apple/backend.py:384-435 | Every step of watchdog, planned restart, child death, start and stop, in any order, keeps the lock, child and counter invariant |
| BackendSupervision.RunKeepsInvariant | vllm_apple/backend.py:375-492 | The invariant holds in every reachable state |
| BackendSupervision.SupervisionIsSafe | vllm_apple/backend.py:375-492 | Over all interleavings, starts racing with stops included: at most one live child, at most maximum_restarts watchdog restarts, no more failures than restarts, exhaustion only at the bound |
| AudioRingInterleaving.ExactRunIsSafe | vllm_apple/audio_ring_buffer.py:60-92 | While the count is right, unread frames are never overwritten and unwritten ones never read, although each side decides on a count that may be outdated |
| AudioRingInterleaving.WrittenSlotsAreFree | vllm_apple/audio_ring_buffer.py:62-62 | A slot being written holds no unread frame |
| RssTrend.OfPidKeepsOrder | scripts/qualify_gemma2_batch_mask.py:268-269 | Selecting the epoch keeps the listing order: it distributes over concatenation |
| BackendSupervision.StopIsFinalIff | vllm_apple/backend.py:484-492 | The locked part of a stop call always ends with no child alive; that none is alive when the call returns, or ever after, is guaranteed exactly when the watchdog had been started by the end of the locked part |
| BackendSupervision.AliveAfterStopIff | vllm_apple/backend.py:484-492 | At the return, and anywhere after the locked part: a child is alive now or in some continuation exactly when one is alive, or no watchdog exists and no start is about to end with a dead child |
| BackendSupervision.StartDuringStopSurvives | vllm_apple/backend.py:375-382 | A start that takes the lock between the locked part and the return: its watchdog returns at once, the join ends, and the stop returns with the child alive |
| BackendSupervision.StopCanReturnWithLiveChild | vllm_apple/backend.py:484-492 | The same as a run from the initial state: the stop of a supervisor never started returns with a live child and a watchdog that has returned |
| BackendSupervision.StepKeepsSealed | vllm_apple/backend.py:384-492 | With the stop requested, no child alive and the watchdog started, no step can create a child |
| BackendSupervision.UnstartedCanBeAlive | vllm_apple/backend.py:375-382 | After a stop that found no watchdog, from any state of the lock, some continuation has a live child |
| AudioRingInterleaving.CountIsExactIff | vllm_apple/audio_ring_buffer.py:52-95 | Over every interleaving of one producer and one consumer without a lock, the shared frame count is right in every state exactly when, for every load and the first store of the same side after it, the stores of the other side in between move no frame |
| AudioRingInterleaving.GapGrows | vllm_apple/audio_ring_buffer.py:71-92 | Between a load and the next store of a side the count moves away from the loaded value by what the other side moves, never back |
| AudioRingInterleaving.ReadCanBeForgotten | vllm_apple/audio_ring_buffer.py:71-92 | An interleaving that forgets a read, after which a read may take a frame that was never written |
| BackendComposition.StepIsAllOrNothingIff | vllm_apple/backend_composition.py:145-168 | A start that publishes, or whose rollback is not interrupted above the first engine, and a close that is not so interrupted, end with a published registry and every engine holding or with neither; and no other transition does |
| BackendComposition.RunIsAllOrNothingIff | vllm_apple/backend_composition.py:145-168 | Over every run: all or nothing after each transition exactly when each transition meets that condition |
| HttpAdmission.ServerStepKeepsInvariant | vllm_apple/api.py:220-301 | Each step of any request keeps free permits + active requests + permits on their way back equal to the limit, and the active count equal to the unfinished requests less the late interruptions of a dispatching call |
| HttpAdmission.ServerRunKeepsInvariant | vllm_apple/api.py:220-301 | In every reachable state that account holds, no permit is over-released, and the underflow branch is reached only after a dispatching call was interrupted once its handler thread had begun |
| HttpAdmission.UnderflowIff | vllm_apple/api.py:285-301 | In every reachable state an underflow has happened or can still happen without a further late interruption exactly when there was such an interruption |
| HttpAdmission.LateInterruptionUnderflows | vllm_apple/api.py:285-301 | One request whose dispatching call is interrupted after its thread has begun gives its slot back twice |
| HttpAdmission.DrainIsFinal | vllm_apple/api.py:231-245 | Once draining has begun and active has reached 0 it stays 0 or underflows; the requests then still unfinished are as many as the late interruptions, so without any there are none |
| AudioPublishedSignal.OutputIsWeightedMean | vllm_apple/audio_preprocessing.py:72-78 | With q whole input frames and a remainder of r parts out of output_rate before output k, output_rate times the output is (output_rate - r) times input frame q plus r times input frame q + 1 |
| AudioPublishedSignal.LinearSignalIsFollowed | vllm_apple/audio_preprocessing.py:72-78 | A channel that is linear in time is reproduced at every output position k*in/out |
| AudioPublishedSignal.FinishedFrame | vllm_apple/audio_preprocessing.py:54-67 | A finished stream first gives what its frames determined and then its last frame, each told by the position alone |
| AudioPublishedSignal.FinishedLength | vllm_apple/audio_preprocessing.py:62-67 | The length of a finished stream: the determined outputs, or N*out/in rounded to the nearest integer, even on a tie, if that is more; nothing from an empty stream |
| AudioPublishedSignal.FeatureIsLogEnergy | vllm_apple/audio_preprocessing.py:124-134 | Value b of the frame that starts at sample j*hop is the logarithm of the greater of 1e-12 and the mean square of the window's samples from b*length/bands to (b+1)*length/bands |
| AudioPublishedSignal.ConstantAmplitude | vllm_apple/audio_preprocessing.py:127-131 | A constant amplitude whose square is above 1e-12 gives the logarithm of that square in every band, and silence the logarithm of 1e-12 |
| AudioPublishedSignal.DownmixIsMean | vllm_apple/audio_streaming_state.py:234-240 | On the interleaved samples: the number of channels times mono sample k is the sum of the k-th group |
| AudioPublishedSignal.EqualChannelsPassThrough | vllm_apple/audio_streaming_state.py:234-240 | A frame whose channels agree passes through unchanged |
| AudioPublishedSignal.PublishedFeature | vllm_apple/audio_streaming_state.py:105-108 | Each feature value a session publishes is the logarithm of the mean square of its slice of the mono mix of the resampled stream, or of 1e-12 |
| AudioPublishedSignal.PublishedCount | vllm_apple/audio_streaming_state.py:105-108 | A session has published frame j exactly when all samples of its window have been produced |
| LinearResampling.FrameSample | vllm_apple/audio_preprocessing.py:44-51 | Sample c of frame i is read from position i*channels + c |
| LinearResampling.FlattenedSample | vllm_apple/audio_preprocessing.py:75-78 | Sample c of frame i is written to position i*channels + c |
| AdaptiveStateAllocation.ShrunkBytes | vllm_apple/adaptive_state_allocation.py:110-119 | A record shrinks exactly when a narrower precision is promoted, to the narrowest (bf16 before fp16) and to a quarter or a half of its bytes rounded down, but at least one |
| AdaptiveStateAllocation.PlanShrinksOldestFirst | vllm_apple/adaptive_state_allocation.py:103-119 | When a record is shrunk, so is (or it is evicted) every older unpinned one that a narrower promoted precision could shrink |
| AdaptiveStateAllocation.LastShrinkWasNeeded | vllm_apple/adaptive_state_allocation.py:107-119 | Without evictions: had the youngest shrunk record been left alone, the total would be above half of the source under CRITICAL, above three quarters under WARNING |
| AdaptiveStateAllocation.LastEvictionWasNeeded | vllm_apple/adaptive_state_allocation.py:121-129 | Had the youngest evicted record been kept, shrunk if it can be, the total would be above half of the source |
| AdaptiveStateAllocation.LexMeaning | vllm_apple/adaptive_state_allocation.py:105-105 | The order of identifiers: a prefix first, otherwise the smaller first difference |
| AdaptiveStateAllocation.DecisionReports | vllm_apple/adaptive_state_allocation.py:246-255 | A decision carries the totals of its plan and the number of actions of each kind |
| AudioEncoderCaching.EvictionMeaning | vllm_apple/audio_encoder_cache.py:120-126 | Eviction drops the oldest entries and stops within both limits, and had it stopped one entry earlier a limit would be exceeded |
| AudioEncoderCaching.EntryMovesToRecentEnd | vllm_apple/audio_encoder_cache.py:97-119 | A hit moves its entry behind the others; an accepted put of the same digest replaces it there before eviction; a put out of bounds changes nothing |
| AudioDeadlineScheduling.CountedTaskPostpones | vllm_apple/audio_deadline_scheduler.py:96-105 | A live queued task that is not less urgent and not due later postpones a new task by exactly its estimate |
| AudioDeadlineScheduling.OtherTasksDoNotCount | vllm_apple/audio_deadline_scheduler.py:96-105 | A queued task that is cancelled, of lower priority or due later makes no difference to the admission |
| AudioDeadlineScheduling.IdleAdmission | vllm_apple/audio_deadline_scheduler.py:103-105 | With nothing queued a task is admitted exactly when the clock plus its estimate meets its deadline |
| AudioDeadlineScheduling.TurnedAway | vllm_apple/audio_deadline_scheduler.py:93-95 | A task whose id is still queued, or for which there is no room, is turned away |
| AudioDeadlineScheduling.MostUrgentComesUp | vllm_apple/audio_deadline_scheduler.py:166-174 | The task that comes up is realtime before interactive before background, then due first, then submitted first, among the live ones |
| AudioRingBuffering.SampleIsDelivered | vllm_apple/audio_ring_buffer.py:61-90 | Every sample of an accepted frame is delivered with its value at the same position of the frame it was handed in with |
| ActivationStatistics.ZerosCount | vllm_apple/activation_statistics.py:60-60 | The zero counter is the number of positions that hold zero |
| ActivationStatistics.SquaredDistance | vllm_apple/activation_statistics.py:56-56 | The deviation of one value is its squared distance from the centre |
| BackendRouting.CallIsDecidedByFirstTaken | vllm_apple/backend_engine.py:147-229 | With the candidates before n missing something the request needs, or failing retryably, the attempts name what was missing first or how each failed, and candidate n, which suits the request, decides the outcome; without one the chain is exhausted |
| BackendRouting.ChosenBackendSuits | vllm_apple/backend_engine.py:147-229 | A chosen backend is registered, ready and lists the operator, phase, precision and architecture of the request; a candidate with all of these is never recorded as rejected |
| BackendComposition.FailuresAre | vllm_apple/backend_engine.py:231-242 | A shutdown lists exactly the engines above the first interruption whose close is missing, not clean or raising, last engine first; it is interrupted exactly when there is such an engine |
| HttpAdmission.ArrivalMeaning | vllm_apple/api.py:252-263 | In any state of a run an arriving request is admitted exactly while the server accepts and a permit is free; otherwise only the rejection is counted |
| HttpAdmission.DispatchReturnIsFinal | vllm_apple/api.py:285-301 | A dispatching call that has returned cannot be interrupted any more, so it gives no slot back |
| HttpAdmission.ReservationMeaning | vllm_apple/api.py:65-74 | In any state of a run a reservation is refused exactly when it and the outstanding ones together exceed the maximum |
| RssTrend.ResidualAdds | scripts/qualify_gemma2_batch_mask.py:299-305 | The residual adds up the squared vertical distances of the points from the line |
| RssTrend.PlotsArePoints | scripts/qualify_gemma2_batch_mask.py:292-297 | The fitted points are the samples' elapsed times and resident bytes, and nothing else |

## Left out

- IEEE rounding, single-precision storage, NaN and infinity: numbers are exact; only the ring buffer's rejected write and the statistics' refused values model non-finite input.
- A resampler or encoder call with a non-finite sample: the source raises part way and keeps the frames before it; the model takes finite samples.
- Type checks of arguments (`type(x) is int`, `isinstance`): the model is typed.
- `AudioDeadlineScheduling.AudioDeadlineScheduler.Submit`: the heap is kept as its sorted sequence, so the internals of `heapq` are not modelled.
- `AudioSchedulability.AdmittedTasksAreOnTime`: one thread executes tasks, the clock is read once per call, and a start and its clock reading are one step.
- `AudioRingBuffering.AudioRingBuffer.WriteFrom`: each call is one step; `AudioRingInterleaving` treats the unlocked updates of the frame count separately, without the samples and the other counters.
- `AudioRingBuffering.AudioRingBuffer.ReadInto`: each call is one step, as for `WriteFrom`.
- `AudioRingInterleaving.CountIsExactIff`: whether an interpreter really lets another thread run between a load and a store is left open.
- Task payloads and the results of executing them.
- `LogBandEncoding.EncodeBands`: the natural logarithm is an arbitrary function, so nothing is said about its values.
- `StreamingAudioSessionRegistry` and the check of session ids: dictionary bookkeeping around the session.
- `AudioEncoderCaching.AudioEncoderCache.GetOrCompute`: SHA-256 over JSON is a digest function, assumed not to collide where the answer depends on it; stored values that are `None` are not modelled, and the compute callback does not touch the cache.
- Locks of the cache, scheduler, statistics and coordinator: each locked section is one atomic method; `RunNext` shows one undisturbed call, while `PopActive`, `RecordExpiry` and `RecordCompletion` are its separately locked parts.
- `AdaptiveStateAllocation.AdaptiveStateCoordinator.Request`: a rollback that itself raises is counted like one that returns, and the exception passed on is not told apart.
- `BackendSupervision.SupervisionIsSafe`: readiness probes, backoff delays, log draining, event handlers and the expiry of `wait` after a kill are not modelled; a kill ends the child.
- The supervisor and its process are a transition relation on values rather than objects, because the claims are about interleavings of their steps.
- `HttpAdmission.ServerRunKeepsInvariant`: a run ends at the first error branch; what other threads do after it is not followed.
- `BackendSupervision.StopIsFinalIff`: creating the watchdog thread and starting it are one step with the release of the lock.
- HTTP parsing, response bodies, authentication, the request log and the timeout of `wait_for_drain`.
- `BackendRouting.BackendEngineRegistry.Execute`: engine readiness does not change during one call, and the request context and fault injector are a reply per candidate.
- `BackendComposition.ProductionComposition.Start`: when the rollback is interrupted too, only the interruption is reported; interruptions arrive only inside factory and close calls; an empty registration tuple, which the source refuses at construction, is here a set that is never published.
- Execution, model listing and diagnostics of managed engines, and the inference adapter above the composition.
- `RssTrend.RecentTrend`: the slope is the exact one, before rounding to three decimals.
- `ActivationStatisticsStream`, audio generation, `ane_probe`, `backend_fingerprint`, inventories, admission checks, benchmarks, the other scripts and the Swift sources: I/O, validation or one-branch facts.
