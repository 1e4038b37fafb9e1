# Verified model of DSpark speculative decoding

DSpark drafts a block of tokens for every running request, decides how many of them the target model
should verify, and keeps a sliding window of target key/value entries per request for the draft model
to attend to. This project models that logic in Dafny and proves what it is relied on for:

- **Prefix scheduler.** The greedy planner over cumulative survival is globally optimal; and for every batch
  shape, the exact conditions on the step-rate curve under which early stopping loses nothing and under which
  the exhaustive result beats every schedule, dead tokens included. Convex step times satisfy the first.
- **Stable slots and the draft window.** Over every run of steps (arrivals, finishes, reorders, chunked
  prefill, rejected suffixes) the draft of a request that entered at position 0, or has filled its window
  since, attends only to that request's own accepted entries; for others, exactly which slots are not its own.
- **Flattened-batch index arithmetic.** Cumulative sums, repeats, scatters, a pigeonhole fast path and a
  reused scratch buffer all agree with a per-request meaning.
- **Greedy block decoding.** Blockwise, per-rank and cross-rank reductions and every branch of the token
  loop decode the same greedy block.
- **Numeric cores.** The minimum-variance acceptance schedule and the block-scaled einsum with
  tensor-parallel narrowing.

Code that updates state is modelled by methods and classes over arrays and fields, each proved against a
specification function; the theorems are then lemmas about those functions and about whole runs. Numbers
that are floats in the program are reals. Exceptions are `Failure` results. The key/value projection, the
step-rate curve, the base scores, the embeddings and the logprob values are parameters.

## Files

| files | subject |
|---|---|
| `PrefixValue`, `GreedyOrder`, `PrefixScheduler`, `SchedulerTheorems` | survival, the greedy path, the planner and its optimality on given rows |
| `GreedyGains`, `CurveConditions`, `DraftLengths` | gains along the path, exact conditions on the curve, the rate table and the modes |
| `SlotAllocator`, `DraftWindow`, `MainKvCache`, `ContextPreparation`, `WindowRun` | slots, one ring, the cache, context preparation, whole runs |
| `BatchRuns`, `SpecDecodeMetadata`, `Compaction`, `InputIds`, `KvLayout`, `PromptLogprobs` | flattened batches and layouts |
| `FirstArgMax`, `InnerProduct`, `GreedyDecode` | hierarchical argmax, inner products and the token loop |
| `AcceptanceSchedule`, `BlockScaledEinsum`, `Diagnostics` | synthetic rates, scaled einsum, running totals |
| `Wrappers`, `Division` | results and options, quotients and remainders |

`hide` statements keep the solver from unfolding definitions a proof does not need.

## Where the code and its documentation differ

The model follows the code.

- The planner's docstring says early stopping ends at "the first throughput drop". The code ends at the
  first point that does not improve, ties included: `DraftLengths.EarlyStopCanLoseAtATie` gives a path whose
  throughput never drops and on which the default mode returns half of the best.
- Early stopping is meant for smooth curves, but a profiled table is looked up as a step function, which is
  not smooth across a drop. `CurveConditions.EarlyStopLosesNothingIff` decides for any positive curve whether
  stopping ever costs anything; `DraftLengths.EarlyStopCanLose` gives a falling table that fails the condition.
- "Keeps the best point along that path" is optimal among all schedules only up to tokens of zero survival,
  which the path never admits. `SchedulerTheorems.ExhaustiveBeatsEverythingIff` gives the exact condition for
  given rows, `CurveConditions.ExhaustiveIsOptimalIff` the one on the curve alone, and
  `DraftLengths.ExhaustiveCanLoseToDeadTokens` a rising table that fails it.
- The rejection mask is applied after a segment has been cut to the window. It agrees with trimming exactly
  when nothing is rejected or the segment fits the window (`MainKvCache.MaskAgreesIff`); otherwise the oldest
  accepted entries are lost.
- With the mask off, a batch whose row total happens to be divisible is divided evenly without looking at the
  request offsets. Every request gets its own rows exactly when all lengths are equal
  (`ContextPreparation.UnmaskedIsOwnIff`, `ContextPreparation.RectangleCanMixRequests`).
- `valid_main_lengths` counts slots from position 0 on. They are the request's own exactly when it entered at
  position 0 or has filled the window since (`WindowRun.CountedSlotsAreOwnIff`).
- The comment above `prepare_inputs` gives the new sequence lengths as s - n + 1; the code stores s - n. Its
  `max_query_len` is the one before rejection.
- Over several ranks the winning token index is gathered as a 32-bit float. Every index survives exactly up to
  2^24 + 1 vocabulary entries (`GreedyDecode.GatherIsExactIff`).
- A failing `DSparkDiagnostics.observe` has already announced its requests and tokens, so its totals stop
  agreeing, whichever request failed and why (`Diagnostics.SchedulerDiagnostics.Observe`).

## Model

| member | source | states |
|---|---|---|
| PrefixValue.CumulativeSurvival | overlay/vllm/v1/spec_decode/dspark.py:540-548 | entry j is the probability that the first j + 1 tokens are all accepted, each the previous one times its confidence; fails exactly on a row with a number outside [0, 1], naming the first one |
| PrefixValue.SurvivalRowsDecay | overlay/vllm/v1/spec_decode/dspark.py:540-548 | on valid confidences every survival row lies in [0, 1] and never grows |
| PrefixValue.EveryDecayIsReached | overlay/vllm/v1/spec_decode/dspark.py:540-548 | every decaying matrix is the survival of some valid confidences, so statements about survivals are about the planner as called |
| PrefixValue.ScoreOfNothing | overlay/vllm/v1/spec_decode/dspark.py:633-645 | scheduling nothing expects one token per request, at the rate of that many tokens |
| PrefixValue.ScoreOfOneMore | overlay/vllm/v1/spec_decode/dspark.py:597-611 | scheduling one more token of a request adds its survival to the expected tokens and one to the batch, whose rate then applies |
| PrefixScheduler.ConfidenceThresholdPrefixLength | overlay/vllm/v1/spec_decode/dspark.py:551-570 | succeeds exactly when every confidence reached is a probability, and admits while the prefix survival reaches the threshold and no further |
| PrefixScheduler.ThresholdIsLongest | overlay/vllm/v1/spec_decode/dspark.py:551-560 | a prefix has survival at or above the threshold if and only if it is no longer than the admitted one |
| PrefixScheduler.ThresholdIsNonAnticipating | overlay/vllm/v1/spec_decode/dspark.py:557-559 | two rows that agree up to position p agree on whether p is admitted |
| PrefixScheduler.ScorePrefixLengths | overlay/vllm/v1/spec_decode/dspark.py:573-611 | succeeds exactly on a schedule within valid rows at a non-negative rate, and returns its expected tokens, batch tokens and throughput; otherwise the error of the first offending request |
| PrefixScheduler.WhatIsBad | overlay/vllm/v1/spec_decode/dspark.py:590-597 | a request is rejected exactly for a length out of range or a confidence outside [0, 1]; the length is reported first, then the first bad confidence |
| GreedyOrder.OrderIsGreedy | overlay/vllm/v1/spec_decode/dspark.py:647-653 | the sorted candidates are exactly the positive-survival tokens, each once, by falling survival, then request, then position |
| GreedyOrder.PathNeverSkips | overlay/vllm/v1/spec_decode/dspark.py:655-661 | every candidate is the next position of its request, so the guard that skips candidates never fires |
| GreedyOrder.PathAdmitsInOrder | overlay/vllm/v1/spec_decode/dspark.py:653-661 | a schedule on the path that holds a token holds every token of larger survival, and at equal survival every one of an earlier request or position |
| GreedyOrder.PathTokens | overlay/vllm/v1/spec_decode/dspark.py:655-661 | after k candidates the schedule is within the rows and verifies exactly k draft tokens |
| GreedyOrder.PathCut | overlay/vllm/v1/spec_decode/dspark.py:653-661 | the last admitted survival separates what is in from what is out, in every request |
| GreedyOrder.FullPathCut | overlay/vllm/v1/spec_decode/dspark.py:650-661 | at the end of the path a token is scheduled if and only if its survival is positive |
| GreedyOrder.PathIsBestOfItsSize | overlay/vllm/v1/spec_decode/dspark.py:623-625 | exchange argument: no schedule of k tokens has more expected tokens than the k-th point of the path |
| GreedyOrder.FullPathIsBest | overlay/vllm/v1/spec_decode/dspark.py:623-625 | no schedule of any size has more expected tokens than the end of the path |
| PrefixScheduler.GreedyPathIsPath | overlay/vllm/v1/spec_decode/dspark.py:633-666 | the scored greedy points are what the loop's counters hold, step by step, from the empty schedule on |
| PrefixScheduler.NextPoint | overlay/vllm/v1/spec_decode/dspark.py:663-676 | what evaluating one more point does to the best schedule in either mode |
| PrefixScheduler.AdmitGreedily | overlay/vllm/v1/spec_decode/dspark.py:655-683 | the loop returns the first best of the points its mode visits, or fails if a visited rate is negative |
| PrefixScheduler.CollectCandidates | overlay/vllm/v1/spec_decode/dspark.py:647-651 | fails exactly on invalid confidences, otherwise collects the positive-survival tokens in request and position order |
| PrefixScheduler.HardwareAwarePrefixSchedule | overlay/vllm/v1/spec_decode/dspark.py:614-683 | the imperative planner computes the specification plan the optimality theorems are about, errors included |
| PrefixScheduler.ScheduleRaises | overlay/vllm/v1/spec_decode/dspark.py:633-651 | what a failing call raises: a negative rate of the empty schedule before anything else, then the first confidence outside [0, 1] in reading order |
| SchedulerTheorems.ResultIsScored | overlay/vllm/v1/spec_decode/dspark.py:678-683 | the returned fields are what scoring the returned lengths gives, and no zero-survival token is scheduled |
| SchedulerTheorems.PlanAdmitsInOrder | overlay/vllm/v1/spec_decode/dspark.py:653-683 | in either mode the planned schedule is closed under the admission order: larger survival first, ties by request and then position |
| SchedulerTheorems.PlanFailsIff | overlay/vllm/v1/spec_decode/dspark.py:655-666 | on valid rows a call fails if and only if a rate between the empty schedule and the last visited one is negative |
| SchedulerTheorems.ExhaustiveIsPathBest | overlay/vllm/v1/spec_decode/dspark.py:655-683 | without early stopping the result beats every point of the path, and every rate on it was non-negative |
| SchedulerTheorems.GreedyIsBestOfItsSize | overlay/vllm/v1/spec_decode/dspark.py:623-625 | no schedule of the same size, dead tokens included, expects more accepted tokens than the greedy point |
| SchedulerTheorems.ExhaustiveIsOptimal | overlay/vllm/v1/spec_decode/dspark.py:614-683 | for every curve the exhaustive result is at least every schedule of positive-survival tokens |
| SchedulerTheorems.ExhaustiveBeatsEverythingIff | overlay/vllm/v1/spec_decode/dspark.py:650-651 | for given rows the exhaustive result beats every schedule if and only if each padding of the path with dead tokens is outrun by some point of the path |
| SchedulerTheorems.ExhaustiveIsOptimalOnNonIncreasing | overlay/vllm/v1/spec_decode/dspark.py:614-683 | on a non-increasing curve the exhaustive result is optimal over all schedules whatsoever |
| SchedulerTheorems.RatioStaysFlat | overlay/vllm/v1/spec_decode/dspark.py:627-630 | a ratio of concave gains to convex times does not recover once it stops growing |
| SchedulerTheorems.FlatStaysFlat | overlay/vllm/v1/spec_decode/dspark.py:668-676 | on a positive curve with convex step time a point that does not improve is followed by one that does not |
| SchedulerTheorems.FlatToTheEnd | overlay/vllm/v1/spec_decode/dspark.py:627-630 | on such a curve the path has a single peak: after the first non-improvement none of the remaining points improves |
| GreedyGains.ReachGrowsSlowly | overlay/vllm/v1/spec_decode/dspark.py:653-661 | expected tokens grow no faster along the path than the number of tokens verified |
| GreedyGains.StairGains | overlay/vllm/v1/spec_decode/dspark.py:647-661 | the planner takes the tokens of a row-by-row stair matrix in row order, so every such sequence of gains occurs for every batch shape |
| CurveConditions.EarlyStopIsFinal | overlay/vllm/v1/spec_decode/dspark.py:655-676 | where the curve never recovers within the path, early stopping returns the full traversal's result |
| CurveConditions.EarlyStopLosesNothingIff | overlay/vllm/v1/spec_decode/dspark.py:627-676 | for a positive curve, both modes return the same result, or only the same throughput, on every batch of a shape if and only if no stop that certain tokens could cause is followed by a recovery |
| CurveConditions.PlannerLosesNothingIff | overlay/vllm/v1/spec_decode/dspark.py:614-683 | the same condition decides it for all valid confidences of the shape |
| CurveConditions.RecoveryLoses | overlay/vllm/v1/spec_decode/dspark.py:668-676 | for any curve that fails the condition, a batch of the shape on which early stopping returns less |
| CurveConditions.SmoothNeverRecovers | overlay/vllm/v1/spec_decode/dspark.py:627-630 | a positive curve with convex step time satisfies the condition |
| CurveConditions.EarlyStopLosesNothing | overlay/vllm/v1/spec_decode/dspark.py:627-630 | on such a curve early stopping returns exactly the result of the full traversal, and neither fails |
| CurveConditions.ExhaustiveIsOptimalIff | overlay/vllm/v1/spec_decode/dspark.py:614-683 | for a non-negative curve, the exhaustive result beats every schedule on every batch of a shape if and only if padding certain tokens with dead ones never beats fewer certain tokens |
| CurveConditions.RisingTakesAll | overlay/vllm/v1/spec_decode/dspark.py:655-683 | on a positive curve that does not fall along the path both modes schedule exactly the tokens of positive survival |
| DraftLengths.LookupIsProfiledEntry | overlay/vllm/v1/spec_decode/dspark_proposer.py:269-280 | the lookup answers with the entry whose range contains the token count, and with the first entry below the table |
| DraftLengths.StepsPerSecond | overlay/vllm/v1/spec_decode/dspark_proposer.py:269-280 | the lookup loop computes the table's step function: 1.0 for an empty table, otherwise the rate of the entry whose range contains the token count |
| DraftLengths.UnprofiledOutcome | overlay/vllm/v1/spec_decode/dspark_proposer.py:269-272 | without a profile the reported throughput is the expected number of tokens, and the hardware mode, early stop or not, schedules exactly the tokens of positive survival |
| DraftLengths.LookupNonIncreasing | overlay/vllm/v1/spec_decode/dspark_proposer.py:269-280 | a table with falling rates gives a non-increasing curve |
| DraftLengths.ScheduleFromConfidence | overlay/vllm/v1/spec_decode/dspark_proposer.py:759-804 | every mode succeeds exactly on valid truncated rows, reports the score of the lengths that mode prescribes (the forced length, the row or the limit, whichever is least; the longest prefix at the threshold; the plan; with an empty table all tokens of positive survival), and otherwise names the row that raises first in that mode |
| DraftLengths.HardwareDominates | overlay/vllm/v1/spec_decode/dspark_proposer.py:778-804 | with falling rates the exhaustive hardware mode reports at least what any other mode, threshold or forced length reports |
| DraftLengths.EarlyStopCanLose | overlay/vllm/v1/spec_decode/dspark_proposer.py:264-280 | a falling table whose curve recovers: the default mode returns 10 and the traversal at least 16 |
| DraftLengths.EarlyStopCanLoseAtATie | overlay/vllm/v1/spec_decode/dspark.py:668-676 | a curve that recovers after a tie: the throughput never drops along the path, and stopping halves the result |
| DraftLengths.ExhaustiveCanLoseToDeadTokens | overlay/vllm/v1/spec_decode/dspark.py:650-651 | a rising table that fails the condition: a certainly rejected token makes a schedule five times better than the result |
| SlotAllocator.ResolveKeepsInvariant | overlay/vllm/v1/spec_decode/dspark_proposer.py:516-557 | used and free slots keep partitioning the rows with an injective map; a request still in the batch keeps its slot; exactly the batch's requests hold slots |
| SlotAllocator.ResolveDistinct | overlay/vllm/v1/spec_decode/dspark_proposer.py:544-550 | distinct requests get distinct rows in range |
| SlotAllocator.NewRequestGetsLowest | overlay/vllm/v1/spec_decode/dspark_proposer.py:544-550 | a request new to the allocator gets the lowest row free at its turn: each lower row belongs to a request of the batch that had a slot or came earlier |
| SlotAllocator.ResolveSucceedsIff | overlay/vllm/v1/spec_decode/dspark_proposer.py:548-548 | the pop from the free list fails if and only if the batch has more distinct requests than rows |
| SlotAllocator.AppendOnlyStaysIdentity | overlay/vllm/v1/spec_decode/dspark_proposer.py:540-553 | if the survivors lead the new batch in row order, lowest-first reuse gives the identity permutation again |
| SlotAllocator.RunKeepsInvariant | overlay/vllm/v1/spec_decode/dspark_proposer.py:84-85 | the invariant holds after every sequence of calls, also after one that ran out of slots |
| SlotAllocator.RunKeepsSlots | overlay/vllm/v1/spec_decode/dspark_proposer.py:536-550 | a request present in consecutive calls keeps its slot through all of them |
| SlotAllocator.SingleStreamStaysIdentity | overlay/vllm/v1/spec_decode/dspark_proposer.py:540-541 | a server with one request at a time stays on the identity path whatever requests come and go |
| SlotAllocator.Slots.ResolveSlots | overlay/vllm/v1/spec_decode/dspark_proposer.py:516-557 | the stateful call performs one abstract step; for a matching id list None means exactly the identity, otherwise the buffer holds the slots; a missing or mismatched list changes nothing |
| SlotAllocator.Slots.ReclaimSlots | overlay/vllm/v1/spec_decode/dspark_proposer.py:536-542 | exactly the slots of absent requests return to the sorted free list |
| DraftWindow.LongRunKeepsLast | overlay/vllm/models/deepseek_v4/nvidia/dspark.py:312-314 | of a run longer than the window only the last W entries matter |
| DraftWindow.RowAfterEntries | overlay/vllm/models/deepseek_v4/nvidia/dspark.py:305-353 | what each slot of a row holds after a store: the last W columns land at their positions modulo W, masked ones keep what was there, the first never being masked, and all other slots are unchanged |
| DraftWindow.UnmaskedStoreIsRun | overlay/vllm/models/deepseek_v4/nvidia/dspark.py:305-353 | an unmasked store of contiguous positions equals storing its entries one by one |
| DraftWindow.MaskedStoreIsTrimmedStore | overlay/vllm/models/deepseek_v4/nvidia/dspark.py:331-353 | for segments within the window, masking a rejected suffix leaves the row as if only the accepted prefix had been stored, live entries under the suffix included |
| DraftWindow.StoreExtendsWindow | overlay/vllm/models/deepseek_v4/nvidia/dspark.py:305-353 | a store turns the window of a history into the window of the history extended by the accepted entries |
| MainKvCache.MaskAgreesIff | overlay/vllm/models/deepseek_v4/nvidia/dspark.py:312-345 | mask and trim agree for every content if and only if nothing is rejected or the segment fits the window |
| MainKvCache.LostEntry | overlay/vllm/models/deepseek_v4/nvidia/dspark.py:312-345 | for every longer segment with a rejected suffix, contents on which the mask loses an accepted entry |
| MainKvCache.Cache.UpdateRow | overlay/vllm/models/deepseek_v4/nvidia/dspark.py:312-346 | cutting, projecting, masking and scattering column by column gives the specified row |
| MainKvCache.Cache.StoreMainKv | overlay/vllm/models/deepseek_v4/nvidia/dspark.py:305-353 | request b's segment lands in row slot_index[b], or row b without an index, and every row not named there is unchanged |
| MainKvCache.Cache.PrefillMainRagged | overlay/vllm/models/deepseek_v4/nvidia/dspark.py:865-912 | the per-segment loop stores the rows between two offsets as a ring update of row slot_index[b], or row b without an index, and touches no other row |
| MainKvCache.StoredPlaces | overlay/vllm/models/deepseek_v4/nvidia/dspark.py:329-353 | the stored rows read off the slot index itself, with and without one |
| MainKvCache.StoresEachIsUnique | overlay/vllm/models/deepseek_v4/nvidia/dspark.py:855-912 | segments and slots determine the cache, so the rectangular and the ragged path agree where both apply |
| MainKvCache.StoreOrderIsIrrelevant | overlay/vllm/models/deepseek_v4/nvidia/dspark.py:890-912 | the cache after a batch does not depend on the order of its requests |
| MainKvCache.RaggedEqualsRectangular | overlay/vllm/models/deepseek_v4/nvidia/dspark.py:855-912 | on equal lengths both layouts cut the same segments |
| ContextPreparation.TrimRejectedTargetContext | overlay/vllm/v1/spec_decode/dspark_proposer.py:687-742 | without a rejection everything stays; otherwise every request keeps exactly its first starts[b + 1] - starts[b] - rejected[b] rows, if that is the same positive number for all, and else the call names mismatched offsets, the first request left empty, or unequal lengths |
| ContextPreparation.PrepareContext | overlay/vllm/v1/spec_decode/dspark_proposer.py:908-976 | takes the trimmed, rectangular or ragged branch under the code's conditions with that branch's rows, anchors and errors; ragged exactly under the mask, for offsets that end at the rows and lengths that differ |
| ContextPreparation.RectangleMeans | overlay/vllm/v1/spec_decode/dspark_proposer.py:944-970 | the rectangular view raises exactly for no rows or a total that is no multiple of the batch size; otherwise row b is slice b of that length |
| ContextPreparation.RaggedIsOwn | overlay/vllm/v1/spec_decode/dspark_proposer.py:639-685 | a ragged batch is cut at the request offsets and each anchor is the last accepted row |
| ContextPreparation.RectangleIsOwn | overlay/vllm/v1/spec_decode/dspark_proposer.py:944-970 | for equal lengths the rectangular view gives each request its own rows and its last accepted row as anchor |
| ContextPreparation.TrimmedIsOwn | overlay/vllm/v1/spec_decode/dspark_proposer.py:719-742 | viewing the trimmed rows gives each request exactly its accepted part |
| ContextPreparation.ContextIsOwn | overlay/vllm/v1/spec_decode/dspark_proposer.py:908-976 | on every branch each request gets its own accepted rows and its last accepted row as anchor |
| ContextPreparation.ContextSucceedsIff | overlay/vllm/v1/spec_decode/dspark_proposer.py:722-740 | under the mask preparation always succeeds; when it trims it succeeds exactly for uniform accepted lengths |
| ContextPreparation.UnmaskedIsOwnIff | overlay/vllm/v1/spec_decode/dspark_proposer.py:943-970 | with the mask off and nothing to trim, whatever the rows hold, preparation gives each request its own rows and anchor if and only if all lengths are equal; it raises exactly when the total does not divide |
| ContextPreparation.RectangleCanMixRequests | overlay/vllm/v1/spec_decode/dspark_proposer.py:571-596 | a divisible ragged batch in which request 0 receives a row of request 1 |
| WindowRun.RowExtends | overlay/vllm/models/deepseek_v4/nvidia/dspark.py:305-353 | a row that holds its request's window still does after the step, masked or trimmed |
| WindowRun.StepKeepsInvariant | overlay/vllm/v1/spec_decode/dspark_proposer.py:905-976 | a step with any arrivals, finishes, row order, chunk lengths and rejections keeps every live request's window in its own row |
| WindowRun.RunKeepsWindows | overlay/vllm/v1/spec_decode/dspark_proposer.py:79-85 | the invariant holds in every state of every run |
| WindowRun.DraftReadsOwnWindow | overlay/vllm/models/deepseek_v4/nvidia/dspark.py:395-403 | after every step of every run the row the draft selects holds the request's own entry of position q at slot q mod W, for its last W accepted positions since it entered |
| WindowRun.WindowIs | overlay/vllm/models/deepseek_v4/nvidia/dspark.py:389-403 | holding the window of a history means: entry q, for its last W positions, sits at slot q mod W |
| WindowRun.StayingRequestExtends | overlay/vllm/v1/spec_decode/dspark_proposer.py:536-550 | a request that stays keeps its start, slot and past and gains exactly its accepted entries |
| WindowRun.CountedSlotsAreOwnIff | overlay/vllm/models/deepseek_v4/nvidia/dspark.py:389-393 | the counted slots are exactly the own window entries, each once, if and only if the request entered at position 0 or has filled the window |
| WindowRun.AttendedKeysAreOwn | overlay/vllm/models/deepseek_v4/nvidia/dspark_kernels.py:161-164 | over every run each window key that counts as valid is the request's own entry of one of its last W positions |
| WindowRun.UncountedBefore | overlay/vllm/models/deepseek_v4/nvidia/dspark.py:390-393 | a request that entered later counts the slot before its start, which it never stored |
| WindowRun.AnchorIsLastPosition | overlay/vllm/v1/spec_decode/dspark_proposer.py:953-970 | the anchor position of a request is the last position of its extended history, which is where the valid slots are counted from |
| WindowRun.DraftContext.Propose | overlay/vllm/v1/spec_decode/dspark_proposer.py:905-976 | for every batch that fits, stores exactly the prepared segments in the stable rows and returns their slots, or none when they are 0, 1, ... in batch order; for a batch of the run it is one step, the row that the returned index selects for a request holds its own window, and the position handed to the draft is its last accepted one |
| WindowRun.DraftContext.PrefillMain | overlay/vllm/models/deepseek_v4/nvidia/dspark.py:834-863 | both layouts store every request's segment in its own row |
| BatchRuns.RunsAt | overlay/vllm/v1/worker/gpu_model_runner.py:1692-1693 | entry j of request i sits at the request's offset plus j, in runs and in repeats |
| BatchRuns.ArangeMinusStarts | overlay/vllm/v1/worker/gpu_model_runner.py:1695-1699 | subtracting the repeated offsets restarts the count in every request |
| SpecDecodeMetadata.Runner.GetCumsumAndArange | overlay/vllm/v1/worker/gpu_model_runner.py:1677-1701 | returns the running totals, fills the front of the buffer with per-request counts and leaves the rest |
| SpecDecodeMetadata.Runner.CalcSpecDecodeMetadata | overlay/vllm/v1/worker/gpu_model_runner.py:2777-2848 | for every request, at the places its own running totals give: the sampled rows end at its last row, all but the last are targets, the last is the bonus, and the draft tokens are the inputs after the targets, although the scratch buffer is filled twice |
| SpecDecodeMetadata.TargetsAndBonusPartition | overlay/vllm/v1/worker/gpu_model_runner.py:2810-2823 | target and bonus rows together are 0, 1, ..., each once |
| SpecDecodeMetadata.DraftTokenMeaning | overlay/vllm/v1/worker/gpu_model_runner.py:2842-2845 | the token after each target row is draft token j of its request, and the target row is the one that predicts it |
| SpecDecodeMetadata.BonusMeaning | overlay/vllm/v1/worker/gpu_model_runner.py:2809-2810 | each bonus row is the last scheduled row of its request |
| SpecDecodeMetadata.LogitsRowsInRange | overlay/vllm/v1/worker/gpu_model_runner.py:2803-2807 | every sampled row lies inside the batch, in the request it is sampled for |
| Compaction.Proposer.PrepareInputs | overlay/vllm/v1/spec_decode/llm_base_proposer.py:1222-1299 | a request with drafts keeps exactly its first length - drafts - 1 + sampled rows, one without keeps all; the new offsets, sequence lengths, total and gathered slot mappings follow those numbers |
| Compaction.AllRequestsKeepFirst | overlay/vllm/v1/spec_decode/llm_base_proposer.py:1236-1279 | every request keeps its leading rows, in order, between its new offsets |
| Compaction.CompactionKeepsOwner | overlay/vllm/v1/spec_decode/llm_base_proposer.py:1258-1279 | entry j of request i after compaction is row j of request i before it |
| Compaction.CompactionKeepsExactly | overlay/vllm/v1/spec_decode/llm_base_proposer.py:1236-1279 | a row survives if and only if it is not in its request's rejected suffix |
| Compaction.CompactionKeepsOrder | overlay/vllm/v1/spec_decode/llm_base_proposer.py:1275-1280 | surviving rows keep their order |
| InputIds.Buffers.ComputePrevPositions | overlay/vllm/v1/worker/gpu_model_runner.py:1703-1716 | each request's previous position, -1 for a new one, and nothing else changes |
| InputIds.SkippedCopyIsCovered | overlay/vllm/v1/worker/gpu_model_runner.py:1785-1790 | pigeonhole: when the copy is skipped every row is the sample row or a draft row of a continued request |
| InputIds.SkipsCopyIff | overlay/vllm/v1/worker/gpu_model_runner.py:1785-1790 | the copy is skipped if and only if every request consists of its previous sample and its drafts |
| InputIds.FastPathShape | overlay/vllm/v1/worker/gpu_model_runner.py:1798-1802 | pigeonhole: under the fast-path test no continued request has drafts and each sits in its previous row |
| InputIds.FastRowOwner | overlay/vllm/v1/worker/gpu_model_runner.py:1798-1802 | each of the first rows belongs to a continued request whose previous position it is |
| InputIds.ScatterRuns | overlay/vllm/v1/worker/gpu_model_runner.py:1815-1843 | a scatter of one run per request writes each run's values in place and leaves every other row |
| InputIds.GeneralPath | overlay/vllm/v1/worker/gpu_model_runner.py:1808-1843 | the two scatters give every row the token it should hold |
| InputIds.FastCopyIsGeneral | overlay/vllm/v1/worker/gpu_model_runner.py:1798-1807 | the slice copy gives every row the token the scatters would |
| InputIds.Buffers.CollectIndices | overlay/vllm/v1/worker/gpu_model_runner.py:1756-1783 | the grown lists are the per-request runs, and the two flags mean what the fast path needs |
| InputIds.Buffers.PrepareInputIds | overlay/vllm/v1/worker/gpu_model_runner.py:1718-1843 | on every path, copy or no copy, fast or general: row cu[i] - 1 - drafts[i] holds sample prev[i], the rows after it columns 0, 1, ... of row prev[i] of the previous drafts, all other rows of the batch the CPU tokens, and rows after the batch are untouched |
| KvLayout.ViewStrides | overlay/vllm/v1/worker/gpu_model_runner.py:7156-7176 | the last physical dimension has stride 1, every other one the stride times the size of the dimension after it, listed in the public order |
| KvLayout.AddressMoves | overlay/vllm/v1/worker/gpu_model_runner.py:7172-7176 | one step along a dimension moves the address by its stride |
| KvLayout.AddressIgnoresOrder | overlay/vllm/v1/worker/gpu_model_runner.py:7162-7164 | the address of a named index does not depend on the public order |
| KvLayout.AddressIsMixedRadix | overlay/vllm/v1/worker/gpu_model_runner.py:7166-7170 | the strided address is the mixed-radix number of the index in physical order |
| KvLayout.AddressInRange | overlay/vllm/v1/worker/gpu_model_runner.py:7172-7176 | valid indices stay below the number of elements |
| KvLayout.AddressHitsEverything | overlay/vllm/v1/worker/gpu_model_runner.py:7172-7176 | every element is the address of a valid index |
| KvLayout.AddressIsInjective | overlay/vllm/v1/worker/gpu_model_runner.py:7172-7176 | different valid indices have different addresses |
| KvLayout.ViewsAgree | overlay/vllm/v1/worker/gpu_model_runner.py:7162-7171 | two public orders over one physical order address the same named index alike |
| PromptLogprobs.TrackedUntilDone | overlay/vllm/v1/worker/gpu_model_runner.py:5523-5537 | a prompt stays tracked exactly until its last token has been processed |
| PromptLogprobs.SlicesTile | overlay/vllm/v1/worker/gpu_model_runner.py:5565-5572 | over every split into non-empty chunks the written slices are 0, 1, ... in order, each once, up to the last but one token |
| PromptLogprobs.ReportedOnce | overlay/vllm/v1/worker/gpu_model_runner.py:5533-5537 | the chunk that processes the last token, and no other, reports the request |
| PromptLogprobs.Request.Step | overlay/vllm/v1/worker/gpu_model_runner.py:5523-5578 | a step writes each processed position's target token and value, nothing else, and reports exactly when the prompt ends |
| FirstArgMax.ArgMaxIsFirstMax | overlay/vllm/models/deepseek_v4/nvidia/dspark.py:118-118 | the index is the first among the maxima |
| FirstArgMax.HierarchicalArgMax | overlay/vllm/models/deepseek_v4/nvidia/dspark_kernels.py:598-601 | first maximum per chunk, then first best chunk, is the first maximum of the whole |
| FirstArgMax.PaddingLoses | overlay/vllm/models/deepseek_v4/nvidia/dspark.py:93-97 | masked padding never wins, ties with real entries included |
| FirstArgMax.PaddedChunksLose | overlay/vllm/models/deepseek_v4/nvidia/dspark_kernels.py:44-47 | chunks of padding only never win |
| GreedyDecode.FloatIndexExactIff | overlay/vllm/models/deepseek_v4/nvidia/dspark.py:112-120 | a token index survives the float gather if and only if it is a multiple of the spacing, in particular below 2^24 |
| GreedyDecode.FloatIndexCanChange | overlay/vllm/models/deepseek_v4/nvidia/dspark.py:112-120 | index 2^24 survives the float gather and the next one does not |
| GreedyDecode.GatherIsExactIff | overlay/vllm/models/deepseek_v4/nvidia/dspark.py:112-120 | every index of a vocabulary survives the gather if and only if it has at most 2^24 + 1 entries |
| GreedyDecode.FloatImage | overlay/vllm/models/deepseek_v4/nvidia/dspark.py:112-120 | the gathered index is a multiple, at most half a spacing away, of the smallest power of two that keeps the factor within 2^24 |
| InnerProduct.DotCommutes | overlay/vllm/models/deepseek_v4/nvidia/dspark_kernels.py:49-64 | the inner product is symmetric |
| InnerProduct.DotAdds | overlay/vllm/models/deepseek_v4/nvidia/dspark_kernels.py:49-64 | it is additive in an argument |
| InnerProduct.DotScales | overlay/vllm/models/deepseek_v4/nvidia/dspark_kernels.py:49-64 | it is homogeneous in an argument |
| InnerProduct.DotUnit | overlay/vllm/models/deepseek_v4/nvidia/dspark_kernels.py:49-64 | against a unit row it is the entry at that place |
| GreedyDecode.UnitEmbeddingScores | overlay/vllm/models/deepseek_v4/nvidia/dspark_kernels.py:49-64 | for a unit embedding at k the score of a token is its base score plus entry k of its Markov row |
| GreedyDecode.BiasIsLinear | overlay/vllm/models/deepseek_v4/nvidia/dspark_kernels.py:49-64 | the bias, score minus base, is additive in the embedding and scales with it |
| GreedyDecode.AccumulateRank | overlay/vllm/models/deepseek_v4/nvidia/dspark_kernels.py:49-64 | accumulating the rank block by block is the inner product; against a unit embedding it is the column entry |
| GreedyDecode.MarkovBlockArgMax | overlay/vllm/models/deepseek_v4/nvidia/dspark_kernels.py:41-85 | a program returns the best lane of its vocabulary block, padding masked |
| GreedyDecode.BlockwiseIsArgMax | overlay/vllm/models/deepseek_v4/nvidia/dspark_kernels.py:563-601 | best lane of the best block is the first best valid score |
| GreedyDecode.MarkovArgMax | overlay/vllm/models/deepseek_v4/nvidia/dspark_kernels.py:547-601 | kernel path and fallback return the same local winner and value |
| GreedyDecode.RankReduction | overlay/vllm/models/deepseek_v4/nvidia/dspark.py:116-120 | the first best rank's winner shifted by its start is the first maximum of the unpadded vocabulary |
| GreedyDecode.LocalStep | overlay/vllm/models/deepseek_v4/nvidia/dspark.py:987-1014 | each vocabulary-parallel branch reports the greedy token of the whole vocabulary, over several ranks as a float, and exactly if the vocabulary fits |
| GreedyDecode.Draft | overlay/vllm/models/deepseek_v4/nvidia/dspark.py:978-1046 | every combination of flags returns t0 followed by tokens each decoded from the one before it: the first best score over the unpadded vocabulary, over several ranks as the float gather reports it; so the block is the greedy block on the full path and, if there is one rank or the vocabulary fits, on the local paths |
| GreedyDecode.BlockFollows | overlay/vllm/models/deepseek_v4/nvidia/dspark.py:978-1046 | token j + 1 of the block is the first best for the scores of position j and token j |
| GreedyDecode.ReportedBlockIsGreedy | overlay/vllm/models/deepseek_v4/nvidia/dspark.py:978-1046 | reporting through the reduction does not change the block, for any length |
| AcceptanceSchedule.ScheduleIsValid | overlay/vllm/config/speculative.py:313-321 | for every length in range: n rates in [0, 1], never rising, with exactly that mean acceptance length |
| AcceptanceSchedule.ExplicitRatesAcceptedIff | overlay/vllm/config/speculative.py:336-350 | explicit rates are accepted if and only if they are a valid list, and then unchanged |
| AcceptanceSchedule.ResolvedRatesPass | overlay/vllm/config/speculative.py:351-355 | a length is accepted if and only if it is in range, and its rates pass the explicit-rates check |
| AcceptanceSchedule.ResolveErrors | overlay/vllm/config/speculative.py:336-355 | which error is raised: exactly one of rates and length; then number, range and order of the rates, or range of the length |
| AcceptanceSchedule.Moments | overlay/vllm/config/speculative.py:313-316 | mean and variance of the accepted length, defined over outcomes, as sums over the rates |
| AcceptanceSchedule.ScheduleHasMinimumVariance | overlay/vllm/config/speculative.py:314-316 | no valid list with the same mean has smaller variance, and only this one attains it |
| AcceptanceSchedule.ScheduleVariance | overlay/vllm/config/speculative.py:314-321 | the variance attained is x (1 - x) for the fractional part x of the length |
| BlockScaledEinsum.AccumulatedIsDequantised | overlay/vllm/models/deepseek_v4/nvidia/ops/fp8_einsum.py:55-92 | scaling each block's partial sum equals dequantising first, for every hidden size |
| BlockScaledEinsum.DequantisedAt | overlay/vllm/models/deepseek_v4/nvidia/ops/fp8_einsum.py:55-92 | entry h is dequantised with scale h / 128 |
| BlockScaledEinsum.UnitRowProduct | overlay/vllm/models/deepseek_v4/nvidia/ops/fp8_einsum.py:55-92 | for an input row with a single 1 at h the product is the weight entry at h with both scales |
| BlockScaledEinsum.Program | overlay/vllm/models/deepseek_v4/nvidia/ops/fp8_einsum.py:46-101 | a program fills its tile with dequantised products and writes nothing outside it |
| BlockScaledEinsum.Launch | overlay/vllm/models/deepseek_v4/nvidia/ops/fp8_einsum.py:137-175 | the grid fills every output with dequantise-then-multiply |
| BlockScaledEinsum.NarrowSucceedsIff | overlay/vllm/models/deepseek_v4/nvidia/ops/fp8_einsum.py:215-264 | succeeds if and only if the weight rows are those of some number of ranks, the scale rows those of one or of all of them, and the columns match |
| BlockScaledEinsum.NarrowedRows | overlay/vllm/models/deepseek_v4/nvidia/ops/fp8_einsum.py:234-264 | local group g is global group start + g, and so are its scales when all groups have scales |
| BlockScaledEinsum.NarrowedGroups | overlay/vllm/models/deepseek_v4/nvidia/ops/fp8_einsum.py:265-267 | three-dimensional scales of all groups are narrowed like the weights, others pass unchanged |
| BlockScaledEinsum.GroupsPartition | overlay/vllm/models/deepseek_v4/nvidia/ops/fp8_einsum.py:220-233 | a weight group is used by exactly the ranks congruent to its block of groups |
| BlockScaledEinsum.NarrowedOwner | overlay/vllm/models/deepseek_v4/nvidia/ops/fp8_einsum.py:230-236 | whenever the narrowing succeeds, row o of local group g is row ((tp_rank % parts) * groups + g) * rank + o of the weights |
| BlockScaledEinsum.NarrowedPair | overlay/vllm/models/deepseek_v4/nvidia/ops/fp8_einsum.py:234-264 | each weight row meets the scale row of its own 128-row block of the unsharded matrix |
| BlockScaledEinsum.ShardIsUnsharded | overlay/vllm/models/deepseek_v4/nvidia/ops/fp8_einsum.py:211-270 | a shard's value is the unsharded einsum's value for the global group it owns |
| BlockScaledEinsum.Einsum | overlay/vllm/models/deepseek_v4/nvidia/ops/fp8_einsum.py:202-271 | returns an error, with the output untouched, exactly when a shape condition fails; otherwise every entry is dequantise-then-multiply of the input row with weight row q * rank + o and its scale row, where q == (tp_rank % parts) * groups + g, and the unsharded entry of that group when all groups have scales |
| Diagnostics.Conservation | overlay/vllm/v1/spec_decode/dspark.py:265-287 | tables of one log: the histogram counts each request once, weighs to the scheduled total, is the step of the scheduled counts, and scheduled never exceeds offered |
| Diagnostics.SchedulerDiagnostics.Tally | overlay/vllm/v1/spec_decode/dspark.py:265-287 | each request adds its length to the histogram, and at position p its confidence, the product of its confidences up to p, one offered and, below its length, one scheduled; on success all requests, on an error exactly what precedes the offending one |
| Diagnostics.SchedulerDiagnostics.Observe | overlay/vllm/v1/spec_decode/dspark.py:246-287 | a count mismatch changes nothing; otherwise the totals agree afterwards if and only if the whole batch is well formed, and what a failing call misses is never made up |
| Diagnostics.TotalsAgree | overlay/vllm/v1/spec_decode/dspark.py:211-231 | after any successful calls the totals agree: histogram, scheduled counts, offered counts, requests and tokens |
| Diagnostics.FailedCallUndercounts | overlay/vllm/v1/spec_decode/dspark.py:256-287 | a failing call misses requests in the histogram or, if only the last row's confidences were bad, that row's tokens in the confidence counts |

## Left out

- WindowRun.DraftContext.Propose: promises a step of the run only under the hypotheses of a step (contiguous positions, at most len - 1 rejected, len <= W when some are rejected, and no batch that the even division cuts across requests, for which ContextPreparation.UnmaskedIsOwnIff says what happens).
- WindowRun.RunKeepsWindows: calls with a missing or mismatched id list are not steps of the run, because the code then falls back to row positions.
- WindowRun.DraftReadsOwnWindow: a request that leaves the batch and returns, or enters with a prefix-cache hit, starts a new history at its first stored position; WindowRun.CountedSlotsAreOwnIff says what the attention then counts.
- WindowRun.AttendedKeysAreOwn: states only which keys are valid and whose they are; scores, softmax and rotary embedding of the attention are not modelled.
- MainKvCache.Cache.StoreMainKv: one layer; the program repeats the same store for every layer. Duplicate ring slots within one scatter do not occur for contiguous positions; for others the model writes in column order.
- InputIds.Buffers.PrepareInputIds: when the copy is skipped and no draft tokens exist, draft rows keep the old buffer content, as in the code; prompt embeddings are not modelled.
- GreedyDecode.Draft: one request (the code runs the same loop over the batch dimension), and scores not below the masking floor, which stands for minus infinity; ties go to the first index in every argmax. Logits and confidences returned beside the tokens are not modelled.
- DraftLengths.ScheduleFromConfidence: requires a sorted table of non-negative rates and a threshold in [0, 1], which reading the settings enforces.
- CurveConditions.EarlyStopLosesNothingIff: for curves that are positive over the shape's capacity; where a rate is zero or negative the planner's errors are those of PrefixScheduler.HardwareAwarePrefixSchedule.
- BlockScaledEinsum.Einsum: flat weights and scales on the route to this kernel, exact arithmetic; stored FP8 numbers and scales are reals, and scale shapes the wrapper does not check are a precondition. The other kernel is a call into code that is not part of this model.
- BlockScaledEinsum.Program: programs of the grid are taken one after the other; each writes only its own tile.
- SpecDecodeMetadata.Runner.CalcSpecDecodeMetadata: 32-bit wrap-around of the index arrays is not modelled.
- Compaction.Proposer.PrepareInputs: device copies and pass-through metadata fields are not modelled.
- PromptLogprobs.Request.Step: one request; the batch loop repeats it per request.
- Floating-point rounding, FP8 quantisation, CUDA streams, graph capture, compilation, workspace planning and launch parameters.
- The planner's stable sort is an insertion sort over a total order; cost is not modelled.
- Position-0 diagnostics, snapshots and averages: quotients of the totals modelled here. Environment parsing, logging and timing do not affect the results.
- Data-parallel padding, pipeline broadcast, LoRA, multimodal inputs, Mamba state and KV connectors of the runner.
- Input batch condensation, rejection sampling and the vocabulary-parallel embedding are not part of this model; their results are arbitrary inputs.
- Benchmarks, setup scripts and compose files.
