# Verified models of the Sumo Logic OpenTelemetry collector's processors and exporter

This project models the stateful and transforming parts of the collector in Dafny and proves what they promise,
for all inputs, all runs and all patterns of failure. `dafny verify dfyconfig.toml` checks everything.

| file | what it holds |
|---|---|
| `RateLimiter.dfy`, `PolicyFilter.dfy` | the global limiter, the trace rules and the per-policy budgets |
| `PolicyMeaning.dfy` | the documented meaning of the rules, and when the evaluator computes it |
| `PolicyOrder.dfy` | spans without a start time: what a verdict misses, and when it depends on the order of the batches |
| `IdBatcher.dfy` | the pipeline of id batches, as a step machine and as an object |
| `Sampler.dfy` | the cascading filter as a state machine over values: arrivals, ticks, the filler, a forgetful history |
| `SamplerInvariants.dfy`, `SamplerLimits.dfy`, `SamplerHistory.dfy`, `SamplerSchedule.dfy` | what every run of that machine keeps |
| `SamplerArrivals.dfy`, `SamplerDecisions.dfy` | what an arrival and a tick do, told without the steps and loops they are made of |
| `SamplerExactRates.dfy` | runs that show the clock conditions of the rates to be exact |
| `Processor.dfy` | the processor object, whose in-place methods carry out exactly the steps of the machine |
| `Sender.dfy`, `SenderProperties.dfy`, `SenderSources.dfy`, `SenderFullness.dfy` | batching of logs and metrics into requests |
| `Prometheus.dfy`, `PrometheusReading.dfy` | rendering of metrics, a parser for what is rendered, and what the lines of every metric say |
| `Nesting.dfy`, `Squashing.dfy` | attribute nesting and squashing |
| `Owners.dfy`, `PodTable.dfy` | the Kubernetes owner search and the pod table |

How the sampler is modelled. `processTraces` for the spans of one trace, one tick, one turn of the batcher's filler
goroutine and the loss of one history entry are the atomic events of a run, in any order. Clock readings are part of the
events: the batch second of a tick, and one reading for every policy evaluation. `Sampler.State` carries a log that says
of every span that left the buffer whether it was forwarded, rejected by a decision or evicted; balances of spans are kept
per trace id, together with the attributes of the resource they came from. Go's `int32` is modelled with its wrap-around
(`Base.Wrap32`), so counters are proved exact as wrapped numbers and limits are proved under the stated bounds.

Where code and documentation disagree the model follows the code:

- The processor's README says a trace is selected if one span matches all criteria; the evaluator lets different spans
  meet different criteria, and only the attribute filters have to hold of one span. `PolicyMeaning.DocumentedIff` says for
  which rules the two agree on all traces: exactly those where one of the named criteria implies all the others, so in
  particular those that name at most one. `PolicyMeaning.TwoSpansExample` is a trace on which they disagree.
- On the minimum duration the documentation contradicts itself. The comment of the setting
  (pkg/processor/cascadingfilterprocessor/config/config.go:43) and the example in the processor's README
  (pkg/processor/cascadingfilterprocessor/README.md:124) speak of the duration of the trace, as the code measures it;
  this is the reading of `PolicyMeaning.DocumentedIff`. Line 72 of that README says that it selects the span;
  `PolicyMeaning.DocumentedBySpanIff` says that the code then agrees only with rules without a minimum duration, or with
  rules that never select anything, and `PolicyMeaning.ShortSpansExample` shows the difference.
- A start time of zero microseconds is taken for "no span seen yet", so the duration then misses earlier spans.
  `Sampling.WindowIsAll` says exactly when spans are missed, `PolicyOrder.MatchesIff` exactly when that can change a verdict.
  The verdict can then depend on the order in which the batches arrived (`Sampling.OrderMattersExample`);
  `PolicyOrder.OrderFreeIff` says, given only the start times, that it cannot if and only if no span is without a start or
  at most one batch has spans.
- The README says the spans of a second never exceed `spans_per_second`. Two things can break this. A tested sum may
  leave `int32`: with a clock that never goes back the limit holds if and only if none does
  (`RateLimiting.RateBoundIffNoWrap`, `RateLimiting.OvershootExample`). And a second may come again after the limiter has
  moved on: for given clock readings the limit holds for all amounts if and only if none does
  (`RateLimiting.RateBoundIffSamePeak`, `RateLimiting.ClockBackExample`). For whole runs `SamplerExactRates.GlobalRateIff`
  and `SamplerExactRates.LateRateIff` say the same of the seconds of ticks and of arrivals.
- A stale id in the eviction queue can evict the trace that has just been stored under the same id. Its spans count as
  evicted. `SamplerSchedule.SelfEvictionIff` says exactly when, and `SamplerSchedule.StaleIdEvicts` is a run in which
  it happens to the only trace there is.
- A data point's own label `le` hides the bound of a histogram bucket (`Prometheus.BucketLineReadsBack`).
- Squashing calls `Map()` on a scalar when there is exactly one attribute; the model returns `None` there, and
  `Squashing.ProcessAttributes` proves that this is the only case.
- Log records whose text is empty can vanish without being sent or dropped. `SenderProperties.LogsAccounted` counts them as
  lost, `SenderProperties.LostCount` says exactly how many there are and `SenderProperties.SomethingLostIff` when there are any.
- A metrics resource without any text has nothing to send; it is listed with the next request, whatever its source
  (`SenderProperties.EmptyTextExample`). All resources from the first with text on share the source of their request;
  `SenderSources.OneSourceIff` says exactly when all do, whatever the limit and the failures.
- The comment of `sanitizeValue` speaks of slashes; the code escapes backslashes.

## Model

| member | source | states |
|---|---|---|
| RateLimiting.RateLimiter.UpdateRate | pkg/processor/cascadingfilterprocessor/rate_limitter.go:33-51 | the limiter after a request and its verdict, with int32 wrap-around |
| RateLimiting.RateBound | pkg/processor/cascadingfilterprocessor/rate_limitter.go:31-51 | over every sequence of requests that never wraps int32 and in which no second comes again after the limiter has moved on, no second is granted more than the limit |
| RateLimiting.RateBoundIffSamePeak | pkg/processor/cascadingfilterprocessor/rate_limitter.go:39-48 | for given clock readings and a budget not used up, the limit holds for all amounts iff no second comes again after the limiter has moved on |
| RateLimiting.RateBoundIffNoWrap | pkg/processor/cascadingfilterprocessor/rate_limitter.go:44-48 | with a clock that never goes back, a fresh limiter keeps its limit over the whole sequence iff no tested sum leaves int32 |
| RateLimiting.RateBoundInOrder | pkg/processor/cascadingfilterprocessor/rate_limitter.go:31-51 | the limit holds for a clock that never goes back and requests that fit int32 beside a full budget |
| RateLimiting.OvershootIffWraps | pkg/processor/cascadingfilterprocessor/rate_limitter.go:44-48 | a grant exceeds the limit if and only if the tested sum does not fit int32 |
| RateLimiting.OvershootExample | pkg/processor/cascadingfilterprocessor/rate_limitter.go:44-48 | a concrete overshoot by wrap-around |
| RateLimiting.ClockBackExample | pkg/processor/cascadingfilterprocessor/rate_limitter.go:39-42 | a second that comes again is granted more than the limit in total |
| RateLimiting.RefusalPersists | pkg/processor/cascadingfilterprocessor/rate_limitter.go:44-50 | a refused request stays refused after any other request while the limiter stands at that second or later |
| Sampling.AttrsMatchedMeaning | pkg/processor/cascadingfilterprocessor/sampling/policy_filter.go:28-92 | the short-circuiting attribute check holds iff every filter accepts the value in effect, span before resource: a pattern, a listed string or a range including its bounds, or no condition at all |
| Sampling.NumericCheckMeans | pkg/processor/cascadingfilterprocessor/sampling/policy_filter.go:94-101 | the key is there with an integer within both bounds, anything else counting as 0 |
| Sampling.StringCheckMeans | pkg/processor/cascadingfilterprocessor/sampling/policy_filter.go:104-124 | the key is there with a string some pattern matches, or without patterns a non-empty one among the values |
| Sampling.ErrorCountMeaning | pkg/processor/cascadingfilterprocessor/sampling/policy_filter.go:198-200 | the error count is the number of erroneous spans |
| Sampling.ExtentMeansLasts | pkg/processor/cascadingfilterprocessor/sampling/policy_filter.go:181-222 | a trace lasts d iff its latest end is after its earliest start by at least d |
| PolicyMeaning.LocateMeaning | pkg/processor/cascadingfilterprocessor/sampling/policy_filter.go:142-162 | the spans looked at are exactly those in the scopes of the resources of the batches |
| PolicyMeaning.ResourcesMeaning | pkg/processor/cascadingfilterprocessor/sampling/policy_filter.go:142-158 | the resources looked at are exactly those of the batches |
| PolicyMeaning.SpansCounted | pkg/processor/cascadingfilterprocessor/sampling/policy_filter.go:142-162 | each span is looked at once |
| Sampling.EvaluateRules | pkg/processor/cascadingfilterprocessor/sampling/policy_filter.go:127-257 | the single pass computes the declarative meaning of the rules, spelled out over attribute values, the duration over the window of spans, and the inversion |
| PolicyMeaning.PolicySelects | pkg/processor/cascadingfilterprocessor/sampling/policy_filter.go:206-257 | a policy selects a trace iff its criteria and bounds are met, or are not if it is inverted |
| Sampling.ScanSpan | pkg/processor/cascadingfilterprocessor/sampling/policy_filter.go:160-201 | one span makes flags stick, counts errors and widens the extreme times, or restarts them after a zero start |
| Sampling.WindowIsAll | pkg/processor/cascadingfilterprocessor/sampling/policy_filter.go:181-196 | the duration covers all spans iff no span but the last has a zero start time |
| Sampling.MatchesMeaning | pkg/processor/cascadingfilterprocessor/sampling/policy_filter.go:127-257 | with start times present the evaluator tests the trace as a whole: each criterion on some span or resource, the bounds on all spans |
| PolicyMeaning.MatchesByCriteria | pkg/processor/cascadingfilterprocessor/sampling/policy_filter.go:142-257 | a trace is selected iff each named criterion is met by some span with its resource, and the bounds hold |
| PolicyMeaning.OneSpanIsEnough | pkg/processor/cascadingfilterprocessor/sampling/policy_filter.go:142-257 | a span that meets all criteria always selects the trace |
| PolicyMeaning.DocumentedIff | pkg/processor/cascadingfilterprocessor/sampling/policy_filter.go:206-257 | on all timed traces the evaluator selects what the documentation says, one span matching all criteria and the trace its bounds, iff one named criterion implies all the others |
| PolicyMeaning.DocumentedBySpanIff | pkg/processor/cascadingfilterprocessor/sampling/policy_filter.go:206-257 | if the minimum duration is read as one of the matching span itself, they agree iff there is none and the same holds, or some criterion can never be met |
| PolicyMeaning.ShortSpansExample | pkg/processor/cascadingfilterprocessor/sampling/policy_filter.go:181-222 | two momentary spans far apart are selected by a minimum duration that neither of them has |
| PolicyMeaning.SingleIsDominated | pkg/processor/cascadingfilterprocessor/sampling/policy_filter.go:206-257 | rules that name at most one criterion are of that kind |
| PolicyMeaning.TwoSpansExample | pkg/processor/cascadingfilterprocessor/sampling/policy_filter.go:160-179 | two spans that meet one of two criteria each select a trace no span of which meets both |
| Sampling.OrderIndependent | pkg/processor/cascadingfilterprocessor/sampling/policy_filter.go:142-204 | the verdict is the same for every order in which the batches of a trace arrived |
| Sampling.OrderMattersExample | pkg/processor/cascadingfilterprocessor/sampling/policy_filter.go:185-195 | with a zero start time the verdict depends on the order |
| PolicyOrder.OrderFreeIff | pkg/processor/cascadingfilterprocessor/sampling/policy_filter.go:142-204 | for given start times no order of the batches changes any verdict iff no span is without a start or at most one batch has spans |
| PolicyOrder.MatchesIff | pkg/processor/cascadingfilterprocessor/sampling/policy_filter.go:181-222 | the evaluator tests the trace as a whole for all rules iff only the last span may lack a start, or no span has an end, or the last lacks a start and the latest end is not missed |
| PolicyOrder.WindowRestarts | pkg/processor/cascadingfilterprocessor/sampling/policy_filter.go:185-195 | everything up to a span without a start that is not the last is missed |
| Sampling.PolicyEvaluator.UpdateRate | pkg/processor/cascadingfilterprocessor/sampling/policy_filter.go:279-292 | the policy budget after a charge and the verdict |
| Sampling.PolicyEvaluator.Evaluate | pkg/processor/cascadingfilterprocessor/sampling/policy_filter.go:294-313 | the decision and budget from the early check, the rules and the charge |
| Sampling.EarlyCheckExact | pkg/processor/cascadingfilterprocessor/sampling/policy_filter.go:259-313 | a trace is admitted iff its rules select it and it fits; otherwise the budget is untouched; the charge after a passed check never fails or wraps |
| Sampling.PolicyBudgetBound | pkg/processor/cascadingfilterprocessor/sampling/policy_filter.go:279-313 | whatever the clock does, the spans a policy admits in a stretch of calls within one second never exceed its limit |
| IdBatcher.Batcher.New | pkg/processor/cascadingfilterprocessor/idbatcher/id_batcher.go:77-114 | the two configuration errors, and a pipe of empty batches otherwise |
| IdBatcher.Batcher.constructor | pkg/processor/cascadingfilterprocessor/idbatcher/id_batcher.go:85-100 | a new batcher starts with numBatches empty batches and keeps the pipeline invariant |
| IdBatcher.Batcher.FillCurrent | pkg/processor/cascadingfilterprocessor/idbatcher/id_batcher.go:104-111 | one turn of the filler moves the oldest pending id to the current batch |
| IdBatcher.Batcher.AddToCurrentBatch | pkg/processor/cascadingfilterprocessor/idbatcher/id_batcher.go:116-118 | the id is queued, after the filler has made room if the channel is full |
| IdBatcher.Batcher.CloseCurrentAndTakeFirstBatch | pkg/processor/cascadingfilterprocessor/idbatcher/id_batcher.go:120-135 | the first batch out, the current one in, or the drain after Stop |
| IdBatcher.Batcher.Stop | pkg/processor/cascadingfilterprocessor/idbatcher/id_batcher.go:137-141 | all pending ids reach the current batch before the pipe closes |
| IdBatcher.NextInv | pkg/processor/cascadingfilterprocessor/idbatcher/id_batcher.go:102-141 | every step keeps the pipeline invariant |
| IdBatcher.ExactlyOnceInOrder | pkg/processor/cascadingfilterprocessor/idbatcher/id_batcher.go:36-57 | in every interleaving: delivered then inside equals added, in order; numBatches batches in the pipe until it closes; the batch closed by take k is delivered by take k + numBatches |
| IdBatcher.DrainDeliversAll | pkg/processor/cascadingfilterprocessor/idbatcher/id_batcher.go:48-56 | after Stop, draining the pipe and taking once more delivers every id ever added, the flag turning false with the last take |
| SamplerInvariants.ArriveBalance | pkg/processor/cascadingfilterprocessor/processor.go:336-433 | an arrival adds its spans once to the balance of their trace and to no other |
| SamplerInvariants.EnrollFrames | pkg/processor/cascadingfilterprocessor/processor.go:359-371 | queueing an id keeps the queue within NumTraces and every surviving trace queued, despite stale and repeated ids |
| SamplerInvariants.ArriveInv | pkg/processor/cascadingfilterprocessor/processor.go:336-433 | an arrival keeps the invariant |
| SamplerArrivals.ArrivalInRuns | pkg/processor/cascadingfilterprocessor/processor.go:336-433 | in every run: late spans are one outcome, under the remembered name and mark if sampled and within the prior limit; spans of a buffered trace join it at the end; a new trace is scheduled and queued last and pushes out exactly the oldest queued id if the queue is full |
| SamplerArrivals.LateArrivalCarries | pkg/processor/cascadingfilterprocessor/processor.go:399-421 | late spans carry the name and mark recorded when their trace was decided, however long ago, as long as it is not forgotten |
| SamplerInvariants.ProvisionalDecides | pkg/processor/cascadingfilterprocessor/cascade.go:204-256 | the policies never leave the provisional decision open |
| SamplerInvariants.DecideFrame | pkg/processor/cascadingfilterprocessor/cascade.go:50-106 | a batch settles exactly its buffered traces, remembers a final decision for each, and leaves the rest alone |
| SamplerInvariants.MergeKeeps | pkg/processor/cascadingfilterprocessor/cascade.go:167-173 | combining the batches of a trace keeps its spans, their resources and their order |
| SamplerInvariants.TickInv | pkg/processor/cascadingfilterprocessor/processor.go:293-297 | a tick keeps the invariant |
| SamplerInvariants.TickBalance | pkg/processor/cascadingfilterprocessor/cascade.go:62-106 | a tick changes no balance: spans move from buffered to forwarded or rejected |
| SamplerDecisions.DecideTold | pkg/processor/cascadingfilterprocessor/cascade.go:50-106 | deciding a batch: the limiter is asked for the spans of the provisionally sampled visits in batch order, then of the second chances in order; each trace is recorded as its last visit and the limiter's answer say; each has exactly one new log entry, all its spans forwarded iff recorded as sampled |
| SamplerDecisions.TickInRuns | pkg/processor/cascadingfilterprocessor/cascade.go:50-106 | the same for every tick of every run |
| SamplerDecisions.VisitJudged | pkg/processor/cascadingfilterprocessor/cascade.go:74-83 | a visit of a trace that is not rejected is judged by the policies on the budgets and marks left by the visits before |
| SamplerDecisions.TraceTreated | pkg/processor/cascadingfilterprocessor/cascade.go:86-106 | what a tick records, forwards and tags for one trace: the ratio of granted probabilistic to all spans not dropped, or the policy's name |
| SamplerDecisions.UnwantedIsDropped | pkg/processor/cascadingfilterprocessor/cascade.go:193-202 | a trace is to be dropped iff some reject rule has its operation, number, string and attribute criteria met |
| SamplerDecisions.RejectsInRuns | pkg/processor/cascadingfilterprocessor/cascade.go:73-84 | in every run a trace of the batch is remembered as dropped iff a reject rule matches it, and forwarded with all its spans iff remembered as sampled |
| SamplerDecisions.RejectsCostNothing | pkg/processor/cascadingfilterprocessor/cascade.go:73-84 | leaving the rejected traces out of the batch changes no budget, no limiter, no span total and no other trace's record |
| SamplerInvariants.RunInv | pkg/processor/cascadingfilterprocessor/processor.go:293-441 | the invariant holds after every run of arrivals, ticks, filler turns and forgotten decisions |
| SamplerInvariants.Conservation | pkg/processor/cascadingfilterprocessor/processor.go:336-433 | over every run the received spans of a trace are exactly those still buffered, forwarded, rejected by a decision and evicted, each counted once |
| SamplerInvariants.BoundedMemory | pkg/processor/cascadingfilterprocessor/processor.go:350-371 | in every reachable state at most NumTraces traces are buffered, the counter equals their number, each is queued for eviction and scheduled, counts its spans, and has no remembered decision; every remembered decision is final |
| SamplerLimits.FirstPassKeeps | pkg/processor/cascadingfilterprocessor/cascade.go:126-144 | spans charged and spans still owed stay within the budget of the second through the first pass |
| SamplerLimits.SettleRate | pkg/processor/cascadingfilterprocessor/cascade.go:146-191 | the same through the second pass and forwarding |
| SamplerLimits.SettleTags | pkg/processor/cascadingfilterprocessor/cascade.go:146-191 | a probability tag written while settling has 0 < selected <= total, even for a trace refused earlier in the batch, whatever the clock says |
| SamplerLimits.TickKeeps | pkg/processor/cascadingfilterprocessor/cascade.go:50-106 | a tick charges only its own second, keeps it within the budget if it was, and writes only well formed probability tags |
| SamplerLimits.GlobalRate | pkg/processor/cascadingfilterprocessor/cascade.go:126-191 | over every run in which, the first tick apart, no tick's second comes again after a later one, and traces fit int32 when a tick comes: no second's decisions forward more than the limit |
| SamplerExactRates.GlobalRateIff | pkg/processor/cascadingfilterprocessor/cascade.go:126-191 | for given tick seconds, a limit below half of int32 is kept in all runs with countable traces of all processors that have it iff no second but the first tick's comes again after a later one |
| SamplerExactRates.PlanRuns | pkg/processor/cascadingfilterprocessor/cascade.go:50-106 | for any tick seconds and amounts there is a run that asks the limiter for exactly these amounts, and forwards exactly what it grants |
| SamplerLimits.SamplingProbability | pkg/processor/cascadingfilterprocessor/cascade.go:126-191 | over every run, whatever the clock does, with traces that fit int32 when a tick comes: every sampling probability lies in (0, 1] |
| SamplerLimits.ArriveLate | pkg/processor/cascadingfilterprocessor/processor.go:401-421 | an arrival charges the late spans it forwards to the prior limiter, within its budget, and nothing else |
| SamplerLimits.LateRate | pkg/processor/cascadingfilterprocessor/processor.go:401-421 | over every run in which, the first arrival apart, no arrival's second comes again after a later one: the late spans forwarded in a second never exceed the limit for them |
| SamplerExactRates.LateRateIff | pkg/processor/cascadingfilterprocessor/processor.go:401-421 | for given arrival times, such a limit for late spans is kept in all runs of all processors that have it iff no second but the first arrival's comes again after a later one |
| SamplerLimits.SteadyRuns | pkg/processor/cascadingfilterprocessor/cascade.go:126-191 | with a clock that never goes back and traces small over the whole run: both rates and all sampling probabilities |
| SamplerHistory.RefusalHolds | pkg/processor/cascadingfilterprocessor/processor.go:399-432 | a trace remembered as NotSampled or Dropped stays so and forwards no span until it is forgotten |
| SamplerHistory.ProvisionalSpends | pkg/processor/cascadingfilterprocessor/cascade.go:204-256 | only a policy that samples the trace spends any budget |
| SamplerHistory.CountsExact | pkg/processor/cascadingfilterprocessor/processor.go:353-386 | where no trace holds more spans than an int32 can count, every SpanCount equals the spans held |
| SamplerHistory.ProvisionalMeaning | pkg/processor/cascadingfilterprocessor/cascade.go:204-256 | a trace is sampled iff some policy with a budget selects it and has room for it, the first such alone paying and giving its mark; it gets a second chance iff none does and a policy without a budget selects it, the last such giving its name; otherwise nothing changes |
| SamplerHistory.RunBudgets | pkg/processor/cascadingfilterprocessor/sampling/policy_filter.go:259-313 | over every run with exact counts when a tick comes, no policy budget is overdrawn |
| SamplerHistory.SecondChanceNeverDisplaces | pkg/processor/cascadingfilterprocessor/cascade.go:56-106 | leaving out all second chance traces of a batch changes no other trace's recorded decision, filter name or probability mark |
| SamplerHistory.SecondChanceInEveryRun | pkg/processor/cascadingfilterprocessor/cascade.go:56-106 | the same for every batch of distinct ids in every reachable state with exact counts |
| SamplerSchedule.DecidedWithin | pkg/processor/cascadingfilterprocessor/processor.go:293-297 | a buffered trace whose id has left the pending channel is decided or evicted within numBatches + 1 ticks, whatever else happens |
| SamplerSchedule.NotDecidedBefore | pkg/processor/cascadingfilterprocessor/processor.go:293-297 | a trace whose id has not reached a closed batch gets no decision in the next numBatches ticks |
| SamplerSchedule.SelfEvictionIff | pkg/processor/cascadingfilterprocessor/processor.go:350-371 | a new trace is evicted by its own arrival iff the eviction queue is full and its oldest entry is a stale one of the same id; exactly its spans are then evicted |
| SamplerSchedule.StaleIdEvicts | pkg/processor/cascadingfilterprocessor/processor.go:350-371 | a run in which the only trace there is evicts itself |
| Processor.GroupSpansByTraceKey | pkg/processor/cascadingfilterprocessor/processor.go:318-334 | each trace id gets exactly its spans, in order, and no group is empty |
| Processor.ArriveAllIsRun | pkg/processor/cascadingfilterprocessor/processor.go:393-433 | processing a resource is a run of arrivals |
| Processor.ReceivedOnce | pkg/processor/cascadingfilterprocessor/processor.go:393-433 | in that run each trace receives exactly the spans the resource holds for it, in any order of the groups |
| Processor.CascadingFilterSpanProcessor.constructor | pkg/processor/cascadingfilterprocessor/processor.go:259-279 | a new processor is in the initial state and valid |
| Processor.CascadingFilterSpanProcessor.DropTrace | pkg/processor/cascadingfilterprocessor/processor.go:457-469 | removes the trace and counts it off, if it is there |
| Processor.CascadingFilterSpanProcessor.EnrollForDeletion | pkg/processor/cascadingfilterprocessor/processor.go:359-371 | the eviction loop ends and does what the machine does |
| Processor.CascadingFilterSpanProcessor.BufferTraces | pkg/processor/cascadingfilterprocessor/processor.go:336-391 | buffers the spans as the machine does, including the trace that evicts itself; reports new ids |
| Processor.CascadingFilterSpanProcessor.ProcessGroup | pkg/processor/cascadingfilterprocessor/processor.go:399-433 | late spans follow the remembered decision and the prior limit, others are buffered |
| Processor.CascadingFilterSpanProcessor.ProcessTraces | pkg/processor/cascadingfilterprocessor/processor.go:393-433 | all groups are processed once, in some order, as the machine's arrivals |
| Processor.CascadingFilterSpanProcessor.ForgetDecision | pkg/processor/cascadingfilterprocessor/processor.go:246-249 | a history entry lost by the cache is the machine's forget event and keeps the processor valid |
| Processor.CascadingFilterSpanProcessor.ShouldBeDroppedNow | pkg/processor/cascadingfilterprocessor/cascade.go:193-202 | true iff some reject rule has each of its criteria met by the trace |
| Processor.CascadingFilterSpanProcessor.MakeProvisionalDecision | pkg/processor/cascadingfilterprocessor/cascade.go:204-256 | decision, marks and budgets after the policy loop |
| Processor.CascadingFilterSpanProcessor.TakeFirstPass | pkg/processor/cascadingfilterprocessor/cascade.go:126-144 | final decision, limiter and selected spans after the first pass |
| Processor.CascadingFilterSpanProcessor.DecideTrace | pkg/processor/cascadingfilterprocessor/cascade.go:62-84 | the body of the first loop |
| Processor.CascadingFilterSpanProcessor.SettleTrace | pkg/processor/cascadingfilterprocessor/cascade.go:86-106 | second pass, history entry, cleanup and removal |
| Processor.CascadingFilterSpanProcessor.Clean | pkg/processor/cascadingfilterprocessor/cascade.go:157-191 | a sampled trace is forwarded merged and tagged, any other is given up |
| Processor.CascadingFilterSpanProcessor.DecideOnBatch | pkg/processor/cascadingfilterprocessor/cascade.go:50-106 | both loops over the batch, as the machine decides it |
| Processor.CascadingFilterSpanProcessor.SamplingPolicyOnTick | pkg/processor/cascadingfilterprocessor/processor.go:293-297 | takes the oldest batch, decides it, and stays valid |
| Sender.BodyBuilder.AddLines | pkg/exporter/sumologicexporter/sender.go:95-109 | appends the newline join of the lines and counts them |
| Sender.AppendAndMaybeSend | pkg/exporter/sumologicexporter/sender.go:616-643 | when the body is sent first, with what headers, and what the body is afterwards |
| Sender.SourceHeadersMeaning | pkg/exporter/sumologicexporter/sender.go:694-714 | each source header is there iff its attribute is, with its value, and no other header is |
| Sender.SendNonOTLPLogs | pkg/exporter/sumologicexporter/sender.go:412-459 | requests and dropped records of the nested loops are those of the batching function |
| Sender.SendNonOTLPMetrics | pkg/exporter/sumologicexporter/sender.go:504-596 | requests and dropped resources of the loop are those of the batching function |
| SenderProperties.LogsAccounted | pkg/exporter/sumologicexporter/sender.go:412-459 | for all lines and failures: every record is delivered once, dropped once or lost; dropped are exactly those of failed requests and the unformatted |
| SenderProperties.LogsLosslessAndBounded | pkg/exporter/sumologicexporter/sender.go:409-459 | for all lines and failures: every record is delivered, dropped or lost once; each body is the newline join of its records' lines from the first non-empty one on, counts its records, and is below the limit unless only one is left from there on |
| SenderProperties.NonEmptyLines | pkg/exporter/sumologicexporter/sender.go:409-459 | with non-empty lines nothing is lost and each body is the join of all its records' lines |
| SenderFullness.LogsFull | pkg/exporter/sumologicexporter/sender.go:616-643 | each request of logs but the last is so long that the next line would have filled it up |
| SenderFullness.LogsInOrder | pkg/exporter/sumologicexporter/sender.go:412-459 | the formatted records stay in order through all requests |
| SenderFullness.FlattenAppend | pkg/exporter/sumologicexporter/sender.go:424-430 | the records are taken scope after scope, each in order |
| SenderProperties.LostCount | pkg/exporter/sumologicexporter/sender.go:451-456 | for every size limit, the number of records lost: of the formatted ones after the last with text, those that do not fit its body, or all if there is no text |
| SenderProperties.SomethingLostIff | pkg/exporter/sumologicexporter/sender.go:451-456 | for every size limit, something is lost iff there are empty lines after the last with text and there is none, or the body up to it with their newlines reaches the limit |
| SenderProperties.AppendGood | pkg/exporter/sumologicexporter/sender.go:629-640 | a size triggered send with the next item's headers still carries data of those headers only |
| SenderProperties.MetricsHomogeneousAndConserved | pkg/exporter/sumologicexporter/sender.go:504-596 | for all resources and failures: each is wholly in one request with its own lines and headers, delivered or dropped once, dropped exactly on failure; only text-less ones can be left over; from the first with text on the request's source headers are those of each, its body is the join of their texts, and its size is bounded |
| SenderProperties.OwnHeaders | pkg/exporter/sumologicexporter/sender.go:517-541 | every resource with text is in a request with its own source headers |
| SenderProperties.AllHaveText | pkg/exporter/sumologicexporter/sender.go:504-596 | when all have text none is left over, every request is of one source and its body is the join of all its lines |
| SenderFullness.MetricsFull | pkg/exporter/sumologicexporter/sender.go:517-541 | each request of metrics but the last ended because the source changed or the next resource would have filled it up |
| SenderFullness.MetricsInOrder | pkg/exporter/sumologicexporter/sender.go:504-596 | the resources stay in order through all requests |
| SenderFullness.FinishInOrder | pkg/exporter/sumologicexporter/sender.go:451-456 | the last request keeps the order as well |
| SenderProperties.EmptyTextExample | pkg/exporter/sumologicexporter/sender.go:523-541 | a resource without text is listed with a request of another source |
| SenderSources.OneSourceIff | pkg/exporter/sumologicexporter/sender.go:517-541 | whatever the limit and the failures, every resource listed with a request has its source headers iff every text-less resource has those of the next with text |
| Prometheus.SanitizeKey | pkg/exporter/sumologicexporter/prometheus_formatter.go:149-153 | only name characters remain, and those that were there stay |
| PrometheusReading.NameCharacters | pkg/exporter/sumologicexporter/prometheus_formatter.go:46-46 | the characters allowed in names, by their codes |
| Prometheus.PutLookup | pkg/exporter/sumologicexporter/prometheus_formatter.go:247-258 | putting an attribute sets its name, keeps all others and never repeats a name |
| Prometheus.LabelsOverride | pkg/exporter/sumologicexporter/prometheus_formatter.go:66-74 | the string value of the last label of a name hides the attribute of that name; other attributes stay; names stay distinct |
| Prometheus.ValueRoundTrip | pkg/exporter/sumologicexporter/prometheus_formatter.go:155-161 | an escaped value is read back whatever it holds, up to its closing quote |
| Prometheus.TagsRoundTrip | pkg/exporter/sumologicexporter/prometheus_formatter.go:59-147 | the label block parses back to exactly the sanitized names and original values |
| Prometheus.LineRoundTrip | pkg/exporter/sumologicexporter/prometheus_formatter.go:163-194 | a rendered line parses back to its name, labels, value and time |
| Prometheus.MetricOneLine | pkg/exporter/sumologicexporter/prometheus_formatter.go:260-397 | no rendered line contains a newline |
| Prometheus.LinesRoundTrip | pkg/exporter/sumologicexporter/prometheus_formatter.go:413-413 | splitting the joined lines on newlines recovers a non-empty list of lines |
| Prometheus.StringsJoinAndSurround | pkg/exporter/sumologicexporter/prometheus_formatter.go:115-147 | the three cases of the join give the braced, comma separated block |
| Prometheus.Tags2String | pkg/exporter/sumologicexporter/prometheus_formatter.go:60-89 | the label block of the attributes overridden by the labels |
| Prometheus.HistogramPoint2Strings | pkg/exporter/sumologicexporter/prometheus_formatter.go:344-394 | one line per bound with the running total, one for infinity, the sum and the count |
| Prometheus.Histogram2Strings | pkg/exporter/sumologicexporter/prometheus_formatter.go:340-397 | all points in order, those without bounds skipped |
| Prometheus.Summary2Strings | pkg/exporter/sumologicexporter/prometheus_formatter.go:298-336 | a line per quantile, the sum and the count of every point |
| Prometheus.Numbers2Strings | pkg/exporter/sumologicexporter/prometheus_formatter.go:261-294 | a line per data point |
| Prometheus.Metric2String | pkg/exporter/sumologicexporter/prometheus_formatter.go:400-414 | the joined lines, which splitting on newlines gives back |
| PrometheusReading.MetricReadsBack | pkg/exporter/sumologicexporter/prometheus_formatter.go:196-414 | splitting what is sent for a metric gives lines that are read back, for every point, to its name, labels and time, and to its integer, text, quantiles, running totals, sum and count |
| PrometheusReading.NumberReads | pkg/exporter/sumologicexporter/prometheus_formatter.go:217-236 | a gauge or sum point reads back to exactly its integer or its text |
| PrometheusReading.SummaryReads | pkg/exporter/sumologicexporter/prometheus_formatter.go:298-336 | a summary reads back to its quantiles with their values and labels, its sum and its count |
| PrometheusReading.HistogramReads | pkg/exporter/sumologicexporter/prometheus_formatter.go:340-397 | a histogram with bounds reads back to the 64 bit running total up to each bound, its sum and its count |
| PrometheusReading.IntRoundTrip | pkg/exporter/sumologicexporter/prometheus_formatter.go:174-183 | an integer is read back with its sign |
| PrometheusReading.TagsExample | pkg/exporter/sumologicexporter/prometheus_formatter.go:91-147 | the label block on an example |
| PrometheusReading.LineExample | pkg/exporter/sumologicexporter/prometheus_formatter.go:174-183 | a line on an example |
| Prometheus.DecimalRoundTrip | pkg/exporter/sumologicexporter/prometheus_formatter.go:171-180 | a number is read back from its digits |
| Prometheus.BucketLineReadsBack | pkg/exporter/sumologicexporter/prometheus_formatter.go:352-377 | a bucket line parses back to the exact number of observations up to its bound and to its time; its label le is the bound, unless the data point has a label le of its own |
| Nesting.SplitThenJoin | pkg/processor/sumologicschemaprocessor/nesting_processor.go:142-142 | joining the parts of a key without empty parts gives the key back |
| Nesting.InsertMeaning | pkg/processor/sumologicschemaprocessor/nesting_processor.go:151-192 | inserting an attribute adds exactly its key and value to what the tree denotes |
| Nesting.InsertEnds | pkg/processor/sumologicschemaprocessor/nesting_processor.go:151-192 | whatever the value, it is found at the end of its path, merged into a map that was there, or under "" if it is a scalar |
| Nesting.InsertElsewhere | pkg/processor/sumologicschemaprocessor/nesting_processor.go:151-192 | nothing changes on paths that part from it |
| Nesting.InsertCommutes | pkg/processor/sumologicschemaprocessor/nesting_processor.go:151-192 | two attributes give the same tree in either order |
| Nesting.NestOrderIndependent | pkg/processor/sumologicschemaprocessor/nesting_processor.go:132-194 | the nested tree is the same for every order of the attributes |
| Squashing.NestKeepsMeaning | pkg/processor/sumologicschemaprocessor/nesting_processor.go:132-194 | for every order the nested tree denotes exactly the attributes |
| Squashing.NoCollision | pkg/processor/sumologicschemaprocessor/nesting_processor.go:275-286 | squashed keys of siblings never collide, also with separators longer than one character |
| Squashing.ShouldTranslateKeyMeaning | pkg/processor/sumologicschemaprocessor/nesting_processor.go:205-231 | a key is translated iff it begins with an entry of the allow list, if there is one, and with none of the deny list |
| Squashing.CharactersArePart | pkg/processor/sumologicschemaprocessor/nesting_processor.go:142-149 | with an empty separator every character of a key is a part, and the empty key has none |
| Squashing.SquashAttribute | pkg/processor/sumologicschemaprocessor/nesting_processor.go:249-292 | keeps the meaning under the returned key, leaves no map with one entry, returns a scalar iff there is a single leaf, and does not depend on the order of visits |
| Squashing.Squash | pkg/processor/sumologicschemaprocessor/nesting_processor.go:233-247 | keeps the meaning, no map below the root has one entry, and fails iff the tree is a single leaf |
| Squashing.NestAttributes | pkg/processor/sumologicschemaprocessor/nesting_processor.go:132-194 | the loop builds the tree that every order of visits builds, and it denotes exactly the attributes; when every key is excluded it is the identity |
| Squashing.ProcessAttributes | pkg/processor/sumologicschemaprocessor/nesting_processor.go:132-203 | the result is the same for every order of visits and denotes exactly the attributes; squashing fails iff there is exactly one; if the lists exclude every key nothing changes |
| Owners.OwnerCache.CacheObject | pkg/processor/k8sprocessor/kube/owner.go:309-326 | stores the object under its own uid with all its owner references |
| Owners.OwnerCache.DeleteObject | pkg/processor/k8sprocessor/kube/owner.go:303-307 | removes the object and nothing else |
| Owners.Complete | pkg/processor/k8sprocessor/kube/owner.go:451-468 | when the queue is empty, every object on a path has been found at least as near as the path reaches |
| Owners.OwnerCache.GetOwners | pkg/processor/k8sprocessor/kube/owner.go:437-471 | ends on cyclic ownership too, and returns exactly the cached objects reachable through cached objects, each once, by exact non-decreasing distance |
| PodTable.LatestStartWins | pkg/processor/k8sprocessor/kube/client.go:535-548 | after any changes of pods with start times each identifier maps to the latest event among those with the greatest start time |
| PodTable.ChangePuts | pkg/processor/k8sprocessor/kube/client.go:507-549 | a change puts the pod under its uid, its address and its full name, except where a pod that started later is, and does no more |
| PodTable.DeletionAsks | pkg/processor/k8sprocessor/kube/client.go:560-586 | a deletion queues exactly one request, with its own time, for each identifier that leads to a pod of that name that is not ignored |
| PodTable.DeletionTakesEffect | pkg/processor/k8sprocessor/kube/client.go:207-248 | in every run whose clock does not go back, the first sweep at least the grace period after a deletion leaves these identifiers free or leading to a pod of another name |
| PodTable.SweepTakesExactlyDue | pkg/processor/k8sprocessor/kube/client.go:217-228 | a sweep takes exactly the requests at least the grace period old iff none of them stands behind a younger one |
| PodTable.SweepInRuns | pkg/processor/k8sprocessor/kube/client.go:217-240 | over every run whose clock does not go back each sweep takes exactly those, each takes effect, younger ones stay, and entries that stay are not changed |
| PodTable.QueueOrdered | pkg/processor/k8sprocessor/kube/client.go:560-586 | over every run whose clock does not go back the delete queue is ordered by time |
| PodTable.QueueAsked | pkg/processor/k8sprocessor/kube/client.go:560-586 | over every run the delete queue holds only what delete events asked for |
| PodTable.RemovalsWereAskedFor | pkg/processor/k8sprocessor/kube/client.go:207-248 | over every run, whatever the clock does, an entry is only removed by a sweep, and a delete event for that identifier and pod name asked for it at least the grace period before |
| PodTable.WatchClient.AddOrUpdatePod | pkg/processor/k8sprocessor/kube/client.go:507-549 | puts the pod under its identifiers unless a later started pod is there |
| PodTable.WatchClient.GetPod | pkg/processor/k8sprocessor/kube/client.go:250-263 | the pod under the identifier, unless it is ignored |
| PodTable.WatchClient.ForgetPod | pkg/processor/k8sprocessor/kube/client.go:560-586 | requests deletion under each identifier that still leads to a pod of that name |
| PodTable.WatchClient.SweepOnce | pkg/processor/k8sprocessor/kube/client.go:217-240 | one turn of the delete loop |

## Left out

- Sampler atomicity: spans that arrive between the two passes of a tick are not modelled; every arrival and every tick is one step.
- Sampler wiring: `ConsumeTraces` without any rule passes data through; configuration, the ticker, metrics and logging are not modelled.
- Sampler tags: tags are recorded as values; writing them into span attributes, and multiplying an existing sampling probability, is not modelled.
- Decision cache: the 2Q cache is a map that may forget any entry at any time; its replacement policy is not modelled.
- Span totals of a tick: the two int64 totals are unbounded integers, since a batch cannot hold enough int32 counts to exceed int64.
- Reject rules: the separate loop of `ShouldDrop` is the pass of `EvaluateRules` without duration, size and error bounds and is not repeated.
- Attribute ranges: `float64` values are real numbers, without NaN and rounding; regular expressions are arbitrary predicates on strings.
- Batcher: a call to `CloseCurrentAndTakeFirstBatch` is one step, since the filler only touches what the call reads last; calling it while `Stop` closes the pipe is not modelled.
- Sender: compression, HTTP, headers other than the source headers, OTLP formats, unknown formats and the list of error values are not modelled; the outcome of each request is an arbitrary input.
- Prometheus numbers: `%g` text is an input without blanks and newlines; keys are sequences of characters, not of bytes.
- Nesting in place: the walk that rewrites the tree through pointers is a recursive function on values, so aliasing inside the attribute map is not captured.
- Nesting: attribute values that are lists are not modelled; maps as values, lists that let only some of the keys through and an empty separator are modelled, but no meaning is claimed for them, since the documentation leaves overlapping keys undefined.
- Owner search: the table does not change during a call; namespaces and services, with the removal loop of `deleteEndpointFromPod`, are not modelled.
- Pod table: attribute extraction, ignore rules, informers and locking are not modelled; `ignore` is part of the pod.
- Other components (metric frequency, source templates, translations, syslog, telegraf, registration, OpAMP, installers) would only add easier members or I/O.
