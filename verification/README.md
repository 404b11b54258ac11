# Serverless components: a verified model

This project models the parts of the Datadog serverless components whose correctness rests on state
that is updated step by step, and proves what they promise.

**Error sampler.** `WaterFilling` is the uniform split of the sampling budget, `Ring` the six-slot
circular buffer. `SamplerModel` states one step of the score sampler as a function of its state;
`ScoreSampler` is the class that updates that state in place, proved equal to it for any order in
which a hash map yields its keys. `SamplerInvariants` holds what every step keeps, `SamplerRuns`
compares whole runs with an unbounded record of what was counted, `CombinedRing` does so for the
combined ring and the default rate, and `SamplerRecovery` follows a signature whose traffic stops.
`SampleByRate` and `Signatures` are the keep decision and the trace `SampleByRate` and `Signatures` are the keep decision and the trace signature, `RateLimited` puts the
sampler together and bounds its cardinality, and `SampleDecision` says which traces it keeps.

**Error rescue.** `ErrorRescue` proves the two-phase rescue equal to a single pass; `RescueState`
derives from the timestamp floor that the sampler's clock never goes back, and carries the sampler's
guarantees over to every run of requests.

**Batches.** `LogAggregator` and `LogService` batch log entries, `LogFlusher` ships the batches, and
`LogDelivery` follows an entry through all three, from insertion to its final fate. `TraceSplit` and
`TraceAggregator` split and batch trace payloads; `TraceDelivery` puts them together for any number
of overlapping requests.

**Protocols.** `ApiKey` and `BufferPool` are step relations over every interleaving of the tasks;
`PipeReassembly` is the in-place line buffer of a named-pipe client.

`Common`, `RealSums` and `Sorting` hold the shared vocabulary.

Counts, rates and weights are real numbers. A `hide` statement at the head of a proof only keeps
definitions the proof does not need away from the solver.

Where code and documentation differ, the model follows the code:

- score_sampler.rs:365-367 says that previously active signatures are unaffected by folding. Only
  those with a stored rate when the allow-list is taken are, and those below 100, which fold onto
  themselves: `RateLimited.KeepsItsName` is the exact
  condition, and `RateLimited.KnownButFolded` a state in which a known signature is folded.
  `RateLimited.FirstBucketFoldsTheKnown` covers every run before its first rotation, when nobody is
  rated. The comment below it (lines 369-373) admits the case of the first bucket.
- dogstatsd.rs:978 speaks of dropping a message larger than the buffer. What is dropped is every full
  buffer from the start of the message: its tail stays and is emitted with its newline
  (`PipeReassembly.EveryLineOrItsTail` for every stream, `PipeReassembly.TailOfLongLineIsEmitted` for
  one). Nothing is lost exactly when every line is shorter than the buffer
  (`PipeReassembly.ConservedExactlyWhenLinesFit`).

## Model

| member | source | states |
|---|---|---|
| WaterFilling.ComputeTpsPerSig | crates/datadog-agent-trace-sampler/src/score_sampler.rs:184-199 | the loop stops at the level where the demands, each cut at the level, use up exactly the budget or their whole sum; the level is never below the uniform share |
| WaterFilling.LevelFills | crates/datadog-agent-trace-sampler/src/score_sampler.rs:184-199 | for every target and every non-empty list, the sum of min(demand, level) is min(target, sum of demands) |
| WaterFilling.LevelIsTheOnlyOne | crates/datadog-agent-trace-sampler/src/score_sampler.rs:184-199 | when the target is below the total demand, a level spends exactly the target if and only if it is the computed one |
| WaterFilling.LevelAtLeastShare | crates/datadog-agent-trace-sampler/src/score_sampler.rs:184-199 | what low-volume signatures leave over only raises the level above target / n |
| WaterFilling.LevelIgnoresOrder | crates/datadog-agent-trace-sampler/src/score_sampler.rs:184-199 | any reordering of the demands gives the same level |
| Ring.ZeroAndGetMax | crates/datadog-agent-trace-sampler/src/score_sampler.rs:202-232 | the loop returns the highest count of the live buckets still inside the six-bucket window, and clears exactly the slots taken over by buckets up to the new one |
| Ring.PeakIsMaximum | crates/datadog-agent-trace-sampler/src/score_sampler.rs:219-229 | the peak bounds every count in the window and is reached (or is zero) |
| SamplerModel.LevelOfAnyListing | crates/datadog-agent-trace-sampler/src/score_sampler.rs:86-97 | whatever order the hash map yields its signatures in, the budget level is the same |
| ScoreSampler.Sampler.CountWeightedSig | crates/datadog-agent-trace-sampler/src/score_sampler.rs:58-75 | a count rotates first when the bucket changed, then adds the weight to the signature and to the combined ring; says whether it rotated |
| ScoreSampler.Sampler.UpdateRates | crates/datadog-agent-trace-sampler/src/score_sampler.rs:79-126 | the in-place update over an arbitrary iteration order equals one deterministic function of the state |
| ScoreSampler.RotateAll | crates/datadog-agent-trace-sampler/src/score_sampler.rs:86-92 | every ring is rotated and each listed signature gets its peak per second |
| ScoreSampler.ApplyRates | crates/datadog-agent-trace-sampler/src/score_sampler.rs:97-125 | kept signatures get the capped rate, the others lose ring and rate, and the lowest rate is the least of the kept ones |
| SamplerInvariants.NewRateBounds | crates/datadog-agent-trace-sampler/src/score_sampler.rs:99-115 | a new rate lies in (0, 1], lets through at most min(traffic, level), and is at most 1.2 times the stored rate |
| SamplerInvariants.NewRateIsLargest | crates/datadog-agent-trace-sampler/src/score_sampler.rs:99-115 | a rate is at most 1, within the level for the traffic seen and at most 20% above the stored rate if and only if it is at most the new rate |
| SamplerInvariants.BudgetHeld | crates/datadog-agent-trace-sampler/src/score_sampler.rs:79-126 | in every valid state, the rates set by a rotation times the peaks it saw sum to at most the target |
| SamplerInvariants.BudgetSpentInFull | crates/datadog-agent-trace-sampler/src/score_sampler.rs:79-126 | a rotation spends exactly the target, or lets all traffic through when that is less, if and only if the 20% cap keeps no signature below its share |
| SamplerInvariants.GrowthIsCapped | crates/datadog-agent-trace-sampler/src/score_sampler.rs:106-120 | a stored rate grows by at most 20% in a rotation, and disappears only if 20% more would have reached 1 |
| SamplerInvariants.UpdateKeepsCounts | crates/datadog-agent-trace-sampler/src/score_sampler.rs:86-95 | a rotation, with its clean-up, keeps the combined ring equal to the sum of the rings |
| SamplerInvariants.CleanedIsEmpty | crates/datadog-agent-trace-sampler/src/score_sampler.rs:116-120 | a signature cleaned up for lack of traffic had nothing left in its rotated ring |
| SamplerInvariants.UpdateKeepsRates | crates/datadog-agent-trace-sampler/src/score_sampler.rs:97-125 | after a rotation the rated signatures are the known ones, with rates in (0, 1] and at least the lowest rate |
| SamplerInvariants.CountKeepsInv | crates/datadog-agent-trace-sampler/src/score_sampler.rs:58-75 | every count, at any timestamp, keeps the whole invariant: combined ring, rated signatures known, rates in (0, 1] |
| SamplerInvariants.DefaultIsLowest | crates/datadog-agent-trace-sampler/src/score_sampler.rs:153-169 | the rate for unknown signatures is in (0, 1] and at most every stored rate |
| SamplerInvariants.DefaultIsLargest | crates/datadog-agent-trace-sampler/src/score_sampler.rs:153-169 | the default rate is the largest that is at most 1, exceeds no stored rate and keeps the busiest combined bucket within the target |
| CombinedRing.RunIsCombined | crates/datadog-agent-trace-sampler/src/score_sampler.rs:58-95 | after any run under a clock that does not go back, every slot of the combined ring is the total weight recorded in its bucket |
| CombinedRing.DefaultRateOnRecord | crates/datadog-agent-trace-sampler/src/score_sampler.rs:153-169 | in every run the default rate is the largest that exceeds no stored rate and keeps the recorded total of each of the last six buckets within the target |
| SamplerRuns.RunIsAligned | crates/datadog-agent-trace-sampler/src/score_sampler.rs:58-75 | after any run under a clock that does not go back, every slot of every ring, kept or evicted, holds exactly the weight recorded for its bucket |
| SamplerRuns.RecordIsOfFiveSeconds | crates/datadog-agent-trace-sampler/src/score_sampler.rs:58-75 | the record of bucket b is exactly what was counted from second 5b up to second 5b + 5 |
| SamplerRuns.RotationReadsSixBuckets | crates/datadog-agent-trace-sampler/src/score_sampler.rs:202-232 | the peak a rotation to a bucket reads off a ring is the maximum recorded over the six complete buckets before it |
| SamplerRuns.BudgetOnEveryRotation | crates/datadog-agent-trace-sampler/src/score_sampler.rs:79-126 | at every rotation of every run, stored rate times recorded peak traffic sums to at most the target |
| SamplerRecovery.Recovery | crates/datadog-agent-trace-sampler/src/score_sampler.rs:99-124 | after j rotations with an empty recorded window the rate is r0 * 1.2^j while that is below 1, and the signature is forgotten from the first rotation where it is not |
| SamplerRecovery.QuietRotation | crates/datadog-agent-trace-sampler/src/score_sampler.rs:99-120 | one rotation with an empty window multiplies the rate by 1.2, or forgets the signature if that reaches 1 |
| SamplerRecovery.RecoveryEnds | crates/datadog-agent-trace-sampler/src/score_sampler.rs:106-112 | every positive rate reaches 1 after at most 5 / rate such rotations |
| SampleByRate.ExactShare | crates/datadog-agent-trace-sampler/src/signature.rs:110-124 | a rate in [0, 1) keeps exactly floor(rate * 2^64) of the 2^64 trace ids, a rate of 1 or more keeps all |
| SampleByRate.Unhashed | crates/datadog-agent-trace-sampler/src/signature.rs:18-20 | multiplication by the hasher modulo 2^64 is a bijection, with the inverse written out |
| SampleByRate.NestedDecisions | crates/datadog-agent-trace-sampler/src/signature.rs:110-124 | an id is kept at the lower of two rates if and only if it is kept at both |
| SampleByRate.KeptTogether | crates/datadog-agent-trace-sampler/src/score_sampler.rs:304-305 | two chunks of one trace are kept together for exactly the ids the lower rate keeps |
| SampleDecision.ExactShareIsKept | crates/datadog-agent-trace-sampler/src/score_sampler.rs:334-362 | for every sample after any history, exactly floor(p * 2^64) of the trace ids (none below 0, all from 1) are kept, where p is the client rate times the rate in force: the stored rate of the signature after the count times the extra rate, or the default rate; a kept trace reports the rate in force; what cannot be scored is dropped and not counted |
| SampleDecision.DecisionsAreNested | crates/datadog-agent-trace-sampler/src/score_sampler.rs:304-305 | whatever the two samplers have counted, the ids kept at the smaller product of rates are kept at the larger |
| SampleDecision.FirstTrace | crates/datadog-agent-trace-sampler/src/score_sampler.rs:334-349 | a new sampler decides its first trace at the target per second over the weight of that trace, at most 1 |
| SampleDecision.EighthOfAllIds | crates/datadog-agent-trace-sampler/src/score_sampler.rs:351-362 | in numbers: target 0.1, upstream rate one half, and an eighth of all ids is kept |
| SampleDecision.NoTargetKeepsNothing | crates/datadog-agent-trace-sampler/src/score_sampler.rs:313-324 | without a positive target every trace of every run is dropped and nothing is counted |
| Signatures.Fnv1a32.Write | crates/datadog-agent-trace-sampler/src/signature.rs:31-38 | the accumulator ends as the byte-by-byte fold of what was written |
| Signatures.ComputeSpanHash | crates/datadog-agent-trace-sampler/src/signature.rs:54-72 | the hash written field by field is the fold over the concatenated identity of the span |
| Signatures.KnownHashes | crates/datadog-agent-trace-sampler/src/signature.rs:31-38 | the accumulator gives the reference values of FNV-1a for the empty string, "a" and "is" |
| Signatures.IdentityLayout | crates/datadog-agent-trace-sampler/src/signature.rs:54-72 | where each field of a span lies in the bytes that are hashed, and that there are no others |
| Signatures.ErrorChangesHash | crates/datadog-agent-trace-sampler/src/signature.rs:54-72 | spans that differ in the error flag alone never share a hash |
| Signatures.MergeSorted | crates/datadog-agent-trace-sampler/src/signature.rs:91-103 | skipping equal neighbours in sorted hashes merges the set of hashes: root xor the xor over the set |
| Signatures.ComputeSignature | crates/datadog-agent-trace-sampler/src/signature.rs:79-104 | the signature is the root hash xor the xor over the set of span hashes |
| Signatures.RootResourceMatters | crates/datadog-agent-trace-sampler/src/signature.rs:79-104 | changing one byte of the resource of the root always changes the signature |
| Signatures.SignatureIgnoresOrderAndRepeats | crates/datadog-agent-trace-sampler/src/signature.rs:74-79 | permuting or repeating spans leaves the signature unchanged when the root is the same span |
| RateLimited.ClientRate | crates/datadog-agent-trace-sampler/src/score_sampler.rs:404-410 | the upstream rate is used when in (0, 1], otherwise 1; the result is always in (0, 1] |
| RateLimited.WeightRoot | crates/datadog-agent-trace-sampler/src/score_sampler.rs:416-418 | the weight is the inverse of the client rate, and at least 1 |
| RateLimited.RateLimitedSampler.Shrink | crates/datadog-agent-trace-sampler/src/score_sampler.rs:373-387 | takes or forgets the allow-list at 100 signatures, and folds what is not on it |
| RateLimited.KeepsItsName | crates/datadog-agent-trace-sampler/src/score_sampler.rs:365-387 | a signature escapes folding if and only if fewer than 100 are known, it is below 100, or it was rated when the list in force was taken |
| RateLimited.FoldedTogether | crates/datadog-agent-trace-sampler/src/score_sampler.rs:373-387 | unprotected signatures are folded below 100, two of them onto the same value if and only if they differ by a multiple of 100 |
| RateLimited.AllowListInForce | crates/datadog-agent-trace-sampler/src/score_sampler.rs:373-387 | in every run the allow-list in force is the rates stored when the present crowd of at least 100 signatures began, and there is none after a scored call that found fewer |
| RateLimited.FirstBucketFoldsTheKnown | crates/datadog-agent-trace-sampler/src/score_sampler.rs:365-387 | in every run that has not rotated yet, once 100 signatures are known, every signature from 100 on is folded, known or not |
| RateLimited.KnownButFolded | crates/datadog-agent-trace-sampler/src/score_sampler.rs:365-387 | after 100 signatures counted at one time, a known one is folded onto 0 |
| RateLimited.RateLimitedSampler.Sample | crates/datadog-agent-trace-sampler/src/score_sampler.rs:334-349 | a scored trace is folded, counted and decided by its signature rate; a disabled sampler or a missing root changes nothing |
| RateLimited.EveryRunIsAccounted | crates/datadog-agent-trace-sampler/src/score_sampler.rs:334-349 | every run of samples under a clock that does not go back keeps the engine invariant and agrees with the record of what was counted |
| RateLimited.EveryRotationIsWithinBudget | crates/datadog-agent-trace-sampler/src/score_sampler.rs:334-349 | any sample that rotates the buckets leaves rates within the target for the recorded traffic of the folded signatures |
| RateLimited.CardinalityIsBounded | crates/datadog-agent-trace-sampler/src/score_sampler.rs:365-387 | at most 100 signatures without an allow-list; with one, at most the 100 of its snapshot and [0, 100): never more than 200 |
| LogAggregator.Aggregator.Insert | crates/datadog-logs-agent/src/aggregator/core.rs:40-55 | appends a serialized entry of at most 1 MB and says whether the queue is full; rejects others unchanged |
| LogAggregator.Aggregator.IsFull | crates/datadog-logs-agent/src/aggregator/core.rs:61-66 | full by count or by framed size |
| LogAggregator.FullMeansNoRoom | crates/datadog-logs-agent/src/aggregator/core.rs:57-66 | full if and only if not even an empty entry more would fit a batch with the queue |
| LogAggregator.Aggregator.GetBatch | crates/datadog-logs-agent/src/aggregator/core.rs:82-128 | takes the greedy prefix off the queue and returns it framed; the byte count stays exact, so its subtraction never saturates |
| LogAggregator.FrameBytes | crates/datadog-logs-agent/src/aggregator/core.rs:82-128 | the frame byte by byte: opening bracket, every entry at its offset, one comma between two, closing bracket |
| LogAggregator.Aggregator.GetAllBatches | crates/datadog-logs-agent/src/aggregator/core.rs:132-138 | terminates with the queue empty and returns the framed greedy split |
| LogAggregator.BatchesPartition | crates/datadog-logs-agent/src/aggregator/core.rs:82-138 | the batches concatenated are the queue in order; each is non-empty and within 1000 entries and 5 MB framed |
| LogAggregator.GreedyIsOptimal | crates/datadog-logs-agent/src/aggregator/core.rs:82-138 | no split into consecutive batches within both limits has fewer batches |
| LogAggregator.StuckOnlyByOversized | crates/datadog-logs-agent/src/aggregator/core.rs:105-107 | a drain takes nothing if and only if the first entry fits no batch by itself |
| LogAggregator.OneBatchWhenItFits | crates/datadog-logs-agent/src/aggregator/core.rs:61-66 | a drain is a single batch if and only if the whole queue fits, which a queue that is not full does |
| LogService.AggregatorService.Run | crates/datadog-logs-agent/src/aggregator/service.rs:77-105 | the loop over the commands answers each request with the drained batches, framed, and stops at a shutdown |
| LogService.EachRequestIsAnswered | crates/datadog-logs-agent/src/aggregator/service.rs:77-105 | every request is answered with exactly what was accepted since the request before it, in the fewest batches; what is left is what was accepted since the last; nothing after a shutdown is looked at |
| LogService.AcceptedExactly | crates/datadog-logs-agent/src/aggregator/core.rs:40-55 | exactly the entries that serialize to at most 1 MB are accepted, each once, in order |
| LogService.NothingLostOrReordered | crates/datadog-logs-agent/src/aggregator/service.rs:77-105 | all answered batches followed by what is queued are exactly the accepted entries in order |
| LogService.AnswersAreWithinLimits | crates/datadog-logs-agent/src/aggregator/service.rs:88-95 | every batch ever answered is non-empty and within both limits |
| LogFlusher.LogFlusher.SendWithRetry | crates/datadog-logs-agent/src/flusher.rs:205-270 | sends until a final reply or three attempts, as the reply sequence dictates |
| LogFlusher.DeliverStopsAtFinal | crates/datadog-logs-agent/src/flusher.rs:205-270 | only transient replies before the last send; accepted, rejected or handed back according to the last reply |
| LogFlusher.HandedBackExactly | crates/datadog-logs-agent/src/flusher.rs:205-270 | by status code: a request is handed back if and only if three replies in a row were a network error, 408, 425, 429, or outside 200-299 and 400-499 |
| LogFlusher.LogFlusher.Flush | crates/datadog-logs-agent/src/flusher.rs:62-143 | retries the handed-back requests first, then the drained ones, and keeps what failed |
| LogFlusher.FlushKeepsSettled | crates/datadog-logs-agent/src/flusher.rs:62-143 | one flush loses and doubles nothing, sends each request at most three times, and never again after a final reply |
| LogFlusher.EveryRunIsSettled | crates/datadog-serverless-compat/src/main.rs:347-372 | in every run of flushes each drained batch is settled or pending once, and a pending one was sent three times in every flush since |
| LogFlusher.ExactlyOneFate | crates/datadog-logs-agent/src/flusher.rs:205-270 | settled if and only if not pending, if and only if some reply was final; accepted if and only if the last reply was a success |
| LogDelivery.EveryEntryHasOneFate | crates/datadog-logs-agent/src/flusher.rs:62-143 | over any interleaving of inserts and flush cycles, the accepted entries are those of the drained batches, in order, followed by the queue; each batch is within both limits and exactly one of accepted, rejected and pending once, as its replies say |
| LogDelivery.CyclesDrain | crates/datadog-serverless-compat/src/main.rs:347-372 | every cycle is one flush, and one that reaches the aggregator leaves nothing queued |
| TraceSplit.SplitCarries | crates/datadog-trace-agent/src/trace_processor.rs:58-81 | bisection keeps every chunk in place with the fields of its payload |
| TraceSplit.SplitPieces | crates/datadog-trace-agent/src/trace_processor.rs:58-81 | every piece fits or has at most one chunk, keeps the other fields, and is non-empty; nothing is cut that did not need it |
| TraceSplit.NoNeedlessCut | crates/datadog-trace-agent/src/trace_processor.rs:58-81 | every piece but an uncut payload is one half of a stretch of chunks that was too large |
| TraceSplit.SplitKeepsChunks | crates/datadog-trace-agent/src/trace_processor.rs:48-56 | over all payloads, the chunk sequence is unchanged and nothing is left that could still be cut |
| TraceSplit.SplitTwice | crates/datadog-trace-agent/src/trace_processor.rs:48-56 | splitting what was split changes nothing |
| TraceSplit.RecordedSizes | crates/datadog-trace-agent/src/trace_processor.rs:488-502 | each queued piece records its encoded length plus the allowance for the envelope, and that is within the limit or the piece has at most one chunk |
| TraceAggregator.TraceAggregator.GetBatch | crates/datadog-trace-agent/src/aggregator.rs:45-71 | takes one batch off the front, putting back the payload that did not fit |
| TraceAggregator.BatchesPartition | crates/datadog-trace-agent/src/aggregator.rs:45-71 | with a positive limit the batches concatenated are the queue; each is within the limit or a single payload |
| TraceAggregator.BatchesAreFull | crates/datadog-trace-agent/src/aggregator.rs:45-71 | every batch but the last has reached the limit or has no room for the first payload of the next |
| TraceAggregator.Flush | crates/datadog-trace-agent/src/trace_flusher.rs:66-75 | terminates, hands every batch to send, and leaves the queue empty when the limit is positive |
| TraceAggregator.FlushEmptiesQueue | crates/datadog-trace-agent/src/trace_flusher.rs:66-75 | everything is sent if and only if the limit is positive or nothing was queued |
| TraceDelivery.EveryRequestArrives | crates/datadog-trace-agent/src/trace_processor.rs:533-541 | in every interleaving of enqueue tasks, channel, aggregator and flushes, what was sent and what is underway of a request are exactly its pieces in order; once nothing is underway its chunks were sent in order with their fields; every batch is within the limit in encoded bytes and envelopes, or one piece with at most one chunk. Pieces of different requests may mix |
| TraceDelivery.StepConserves | crates/datadog-trace-agent/src/trace_flusher.rs:48-75 | accepting a request, enqueueing a piece, adding it to the aggregator and flushing each lose, double and reorder nothing within a request |
| TraceDelivery.FlushSendsTheQueue | crates/datadog-trace-agent/src/trace_flusher.rs:66-75 | a flush sends everything the aggregator was given before it |
| TraceDelivery.StepsAreCounted | crates/datadog-trace-agent/src/trace_flusher.rs:48-56 | every enqueueing hands over one piece, and every receipt brings one of them to the aggregator |
| ErrorRescue.TwoPhasesAreOnePass | crates/datadog-trace-agent/src/trace_processor.rs:226-277 | collecting, sampling at one time and writing back by index gives the payloads and the sampler of a single pass in order |
| ErrorRescue.WhoQualifies | crates/datadog-trace-agent/src/trace_processor.rs:351-376 | a chunk qualifies if and only if it has an errored span and a root, and priority 0 or, with the feature on, a negative one that is neither -128 nor a manual drop |
| ErrorRescue.WhatIsSampled | crates/datadog-trace-agent/src/trace_processor.rs:226-262 | what the sampler sees of a chunk: environment, root, id and upstream rate of the root, and the identifying fields of every span |
| ErrorRescue.OnlyRootsAreStamped | crates/datadog-trace-agent/src/trace_processor.rs:272-277 | a chunk is untouched, or it differs in the metric _dd.errors_sr of the resolved root of an eligible, errored chunk and in nothing else |
| ErrorRescue.PositionsAreInOrder | crates/datadog-trace-agent/src/trace_processor.rs:226-240 | every chunk is visited once, in order |
| RescueState.ErrorRescueState.ClampTimestamp | crates/datadog-trace-agent/src/trace_processor.rs:162-165 | the floor and the result become the later of floor and reading |
| RescueState.ErrorRescueState.SampleAll | crates/datadog-trace-agent/src/trace_processor.rs:250-269 | the samples under the lock are the run of calls at the clamped time, and the kept ones carry their rates |
| RescueState.ErrorRescueState.ApplyErrorRescue | crates/datadog-trace-agent/src/trace_processor.rs:207-278 | a request forwards what the single pass gives, and moves the shared state as its calls do |
| RescueState.EveryRootIsMarked | crates/datadog-trace-agent/src/trace_processor.rs:226-277 | every qualified chunk that the sampler keeps carries the decided rate as _dd.errors_sr on its root and differs in nothing else; every other chunk is as it came; each is decided at the clamped time with the sampler as the candidates before it left it |
| RescueState.RequestOnlyStampsRoots | crates/datadog-trace-agent/src/trace_processor.rs:193-244 | a request changes no shape, no env and nothing but root stamps; without candidates payload, sampler and floor are untouched |
| RescueState.SamplerClockNeverGoesBack | crates/datadog-trace-agent/src/trace_processor.rs:161-165 | however the clock readings jump, the sampler sees timestamps that never go back |
| RescueState.EveryProductionRun | crates/datadog-trace-agent/src/trace_processor.rs:207-278 | any run of requests keeps the sampler invariant, its agreement with the record, at most 200 signatures, and at every rotation rates within the target for the recorded traffic |
| ApiKey.StepKeepsInv | crates/dogstatsd/src/api_key.rs:58-129 | every step of every task keeps the protocol invariant |
| ApiKey.AtMostOneResolver | crates/dogstatsd/src/api_key.rs:70-85 | in every interleaving at most one task is inside the resolver |
| ApiKey.NoResultBeforeFirstLoad | crates/dogstatsd/src/api_key.rs:86-100 | no task returns before a load has completed, and what it returns is the value of a completed load |
| ApiKey.ResultIsFresh | crates/dogstatsd/src/api_key.rs:58-104 | a task never returns a load older than the last one completed when it was called |
| ApiKey.LoadedOnce | crates/dogstatsd/src/api_key.rs:115-118 | without a reload interval the resolver is called once at most and every task returns its value |
| ApiKey.LoadsAreSpaced | crates/dogstatsd/src/api_key.rs:119-123 | with an interval, consecutive loads are stamped more than the interval apart |
| ApiKey.OverdueKeyIsNotReturned | crates/dogstatsd/src/api_key.rs:58-129 | a task called while the stored key is overdue returns the value of a load completed after its call, unless some other task was inside the lock in the meantime |
| ApiKey.FreshKeyNeedsNoLock | crates/dogstatsd/src/api_key.rs:108-129 | with a key that is not overdue, a caller reads it without taking or awaiting the lock |
| ApiKey.OwnStepsEnd | crates/dogstatsd/src/api_key.rs:58-104 | every call ends after at most seven steps of its task, waiting for the first load aside, and no step of another task sets it back |
| ApiKey.WaitingForSomebody | crates/dogstatsd/src/api_key.rs:86-96 | a task waiting for the first load always has one inside the lock whose load is still to come |
| BufferPool.BuffersAreConserved | crates/dogstatsd/src/dogstatsd.rs:431-505 | in every interleaving each buffer ever allocated is in exactly one of pool, queue, reader and processor, and at most capacity + 2 are ever allocated |
| BufferPool.PacketsAreConserved | crates/dogstatsd/src/dogstatsd.rs:514-535 | every packet handed over is exactly one of processed, in processing, queued and dropped |
| BufferPool.StepsAreCounted | crates/dogstatsd/src/dogstatsd.rs:431-572 | every packet read is handed over or about to be, every offer hands over one packet, every receipt and every completion concern one |
| BufferPool.ProcessedInOrder | crates/dogstatsd/src/dogstatsd.rs:514-572 | packets are processed in the order they were handed over; one is dropped if and only if capacity accepted packets have not reached the processor, and no other step loses or adds one |
| BufferPool.StepKeepsBufs | crates/dogstatsd/src/dogstatsd.rs:431-572 | every step of reader and processor keeps each buffer in one place |
| PipeReassembly.PipeClient.OnRead | crates/dogstatsd/src/dogstatsd.rs:914-983 | one round in place: the complete lines become the packet, the rest moves to the front, and a full queue counts a drop |
| PipeReassembly.PipeClient.CopyToFront | crates/dogstatsd/src/dogstatsd.rs:981-982 | the overlapping move to the front keeps the bytes |
| PipeReassembly.Serve | crates/dogstatsd/src/dogstatsd.rs:914-983 | the loop emits the packets of its reads and stops early only when the queue is closed |
| PipeReassembly.KeptOrTooLong | crates/dogstatsd/src/dogstatsd.rs:931-983 | if all lines fit, the packets are the stream up to its last newline and the buffer holds the rest, otherwise bytes are missing; the buffer always has room to read |
| PipeReassembly.ConservedExactlyWhenLinesFit | crates/dogstatsd/src/dogstatsd.rs:975-983 | nothing is lost if and only if every stretch without a newline is shorter than the buffer, however the stream is cut |
| PipeReassembly.CuttingDoesNotMatter | crates/dogstatsd/src/dogstatsd.rs:909-985 | two cuttings of one stream, any stream, emit the same bytes and keep the same remainder |
| PipeReassembly.CutIsStream | crates/dogstatsd/src/dogstatsd.rs:914-983 | whatever the reads, what is emitted and what is kept are folds over the bytes of the stream |
| PipeReassembly.EveryLineOrItsTail | crates/dogstatsd/src/dogstatsd.rs:931-983 | for every stream and every cutting, a line shorter than the buffer is emitted whole, a longer one without its leading full buffers, and the unfinished line is kept in the same way |
| PipeReassembly.LinesAreTheStream | crates/dogstatsd/src/dogstatsd.rs:931-938 | the lines and the fragment that theorem speaks of are the stream taken apart at its newlines |
| PipeReassembly.TailOfLongLineIsEmitted | crates/dogstatsd/src/dogstatsd.rs:975-983 | a line of three bytes through a buffer of two: the first two are gone, the third is emitted as a message |
| PipeReassembly.PacketsEndInNewline | crates/dogstatsd/src/dogstatsd.rs:933-948 | every packet is non-empty and ends in a newline |

## Left out

- Floating-point rounding, NaN and infinity: rates, counts and weights are real numbers; `ClientRate` is then a range check.
- Negative timestamps inside the rings: the record is compared under non-negative, non-decreasing clocks, which the timestamp floor guarantees (`RescueState.SamplerClockNeverGoesBack`); budget, combined ring and cardinality hold for all timestamps.
- In-place iteration over the hash map: `ScoreSampler.RotateAll` and `ScoreSampler.ApplyRates` return the updated maps, which `UpdateRates` then stores; the intermediate states of the map fields are not visible.
- The library sort: an insertion sort stands for `sort_by` and `sort_unstable`; only its result matters.
- The `AlwaysKeep` strategy: it has no state.
- `get_root_span_index` and `encoded_len`: parameters. A root index outside its chunk is read as no root; the library never gives one.
- Serialization of log entries: an insert receives the serialized bytes or the failure.
- LogService.AggregatorService.Run: answers are listed whether or not the receiver of the answer still waits; the code drains the batches in both cases and logs an undeliverable answer.
- Traces that are not delivered: a request that gets no enqueue permit in time is dropped before it is accepted, and a batch whose send fails is lost; `TraceDelivery` speaks of accepted requests and of what is handed to `send`.
- Trace payloads of other versions: they are queued whole, with the size of the request body, and not split.
- Additional log endpoints: best effort, never retried across flushes.
- The branch for requests that cannot be cloned: requests for log batches hold their body in memory and can.
- Concurrent sends of one flush: requests are sent one after the other; replies depend only on the request and on how often it was sent, so the order between requests does not matter.
- Duplicate delivery: a request whose reply was lost may have been accepted by the intake; the model speaks of replies.
- Memory ordering of the atomics in the API-key loader, cancellation or panic of a task while it loads, and overflow of the reload deadline: every access is one sequentially consistent step, and tasks run to completion.
- DogStatsD shutdown: steps are modelled until the processor stops receiving; packets still in the queue then are not followed.
- The second UDP reader beside a named pipe: the buffer pool is that of a single reader.
- Parsing, aggregation and shipping of metrics, HTTP, compression, obfuscation, trace statistics, configuration and metadata.
