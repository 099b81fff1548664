# EdgeSched: a verified model

EdgeSched puts object detectors behind an admission-controlled scheduler. A request names an
engine or is routed to one, is offered without blocking to that engine's bounded worker pool,
and is raced against a deadline, while background loops update the health and thermal state
that routing reads. A C++ engine letterboxes each image and maps the boxes back. A load
generator drives the whole, and a plotting script fits its results.

This project models that behaviour in Dafny and proves what it promises over every input, every
interleaving and every reachable state.

| file | what it models |
|---|---|
| `WorkerPool.dfy`, `PoolGuarantees.dfy` | one engine's pool: a step system over Submit, receive, Predict, send, read and Close; then the pool as an object whose methods are tied to those steps |
| `Routing.dfy`, `Fairness.dfy` | the tie breaker, both filters and both policies against a specification that counts engines and mentions no order; fairness of blocks of tickets |
| `Server.dfy`, `ServerGuarantees.dfy` | `HandlePredict`, the router, all pools and all health statuses as one step system; its invariant, its accounting and what its answers mean |
| `HealthRouting.dfy`, `ServerLiveness.dfy` | over whole runs of that system: what routing reads is true, and unhealthy engines get nothing; every accepted request's answer can be delivered |
| `ServerFairness.dfy`, `EmptyName.dfy` | round robin over whole runs; a run whose engine has the empty name |
| `HealthCheck.dfy` | the status map and each engine's poller over real time |
| `SysMonitor.dfy` | the parse of a line, the merge, and two unsynchronised writers of one pointer |
| `Letterbox.dfy` | letterbox geometry, the round trip, the tensor layout, postprocessing and rescaling |
| `LoadGen.dfy`, `Query.dfy` | the load generator's pipeline, summary and percentiles; the predict URL from the client through the request line to the handler |
| `EngineSpec.dfy`, `PlotSweep.dfy` | the `-engines` flag; time bins and the least-squares slope |
| `Common.dfy`, `Arithmetic.dfy`, `Text.dfy` | counting, filtering and string order; products and quotients; the string functions of Go's library |

Goroutines are modelled as steps on a value: one step is one action of one goroutine on shared
state (a channel operation, a counter update, a load, a store), and a theorem about runs holds
for every order of steps. Code that updates an object or loops over a buffer is a class or a
method, proved against a function or relation that the theorems are about. Floats are reals,
Go integers are `int` with 64-bit bounds or wrap-around where these matter.

## What the proofs found

These are places where the code does not do what a comment, a name or a first reading promises.
The model follows the code, and each item says which member states the exact condition.

- Predict calls start in acceptance order in every run exactly when there is one worker
  (`InOrderIffOneWorker`); with n workers the k-th call is one of the first k + n accepted
  (`OvertakingIsBounded`).
- Round robin is fair over every block of tickets exactly when the number of tied engines divides
  2^64; otherwise the block that crosses the counter's wrap is not (`FairForEveryBlockIff`).
- An explicit latency budget is clamped to the maximum exactly when it does not overflow, or
  overflows to at least the maximum; the first overflowing value becomes a deadline in the past
  (`ClampedIff`, `OverflowIsNotClamped`).
- `RequestsTotal` is described as counting every outcome. A finished request is counted exactly
  when its budget is good and it names an engine, or some engine was read as healthy and the one
  picked has a name that is not empty (`CountedIff`). For an engine with the empty name, which the
  `-engines` flag allows, the counts miss whatever its pool accepted (`AccountingBalances`), and a
  run shows it (`EmptyName.AcceptedAndNotCounted`).
- The "unknown engine" answer cannot occur: the health check refuses such a name first
  (`LookupNeverMisses`, `UnknownEngineIsUnhealthy`).
- `State.Valid` is documented as false until the first successful parse. A mode writer that loads
  before the first line is stored, and stores after it, makes it false again and undoes the line
  (`ValidStaysIff`, `ValidCanRevert`); a line that overtakes a mode's store undoes the mode likewise
  (`ModeCanBeUndone`). And a line in which nothing is recognised makes it true:
  after some lines it says whether one was recognised exactly when there are none, or one was
  (`ValidMeansRecognisedIff`, `UnrecognisedLineMakesValid`).
- `MaxTempC` is documented as the highest reading across all sensors. It is that exactly when some
  reading is not below -1000 (`MaxIsHighestIff`, `ColdLineHasNoHighest`), and it is among the
  temperatures that the snapshot lists exactly when a hottest such reading is also the last of its
  sensor (`MaxIsSomeSensorIff`, `CooledSensorHidesMax`).
- The letterbox has an empty resized image, which cv::resize refuses, exactly when the longer side
  exceeds 2 · target times the shorter one (`ResizedHasPixelsIff`).
- With a concurrency below one the load generator collects nothing (`CollectsEverythingIff`,
  `NoWorkerLosesPaths`).
- The load generator does not escape the engine name: it arrives exactly when it has none of
  `&`, `#`, `;`, `%` and `+`, no space and no control character, and the request line fits the
  room that the server's header limit leaves (`EngineArrivesIff`). With a space the server refuses
  the request line, although both command lines accept such a name (`SpaceIsRefused`); with a
  control character the client does not send it (`NewlineIsNotSent`). In percent escapes any name of
  bytes would be read back (`UnescapeEscaped`).

## Model

| member | source | states |
|---|---|---|
| WorkerPool.StepKeepsInv | scheduler/internal/workerpool/pool.go:45-94 | every action of any goroutine keeps the pool's invariant: bounds on queue and workers, each request in one place, nearly ordered starts, sound result channels |
| PoolGuarantees.RunKeepsInv | scheduler/internal/workerpool/pool.go:45-94 | in every run from New the invariant holds, with max(queueSize, 0) slots and max(concurrency, 1) workers |
| PoolGuarantees.ExactlyOnePlace | scheduler/internal/workerpool/pool.go:63-81 | an accepted request is in the queue once, with one worker, or answered once, and never two of these |
| PoolGuarantees.RejectedNeverServed | scheduler/internal/workerpool/pool.go:71-81 | a rejected request never reaches a worker, Predict or its result channel |
| PoolGuarantees.OwnReplyOnly | scheduler/internal/workerpool/pool.go:63-69 | Predict is called at most once per request, and the handler can only receive that call's reply |
| PoolGuarantees.AdmissionRule | scheduler/internal/workerpool/pool.go:74-81 | Submit accepts iff there is buffer space, or without a buffer iff a worker is blocked in its receive; a rejection changes nothing else |
| PoolGuarantees.RejectionMeansFull | scheduler/internal/workerpool/pool.go:71-81 | a rejection means a full queue and no idle worker |
| PoolGuarantees.OvertakingIsBounded | scheduler/internal/workerpool/pool.go:63-69 | the k-th Predict call serves one of the first k + concurrency accepted requests |
| PoolGuarantees.InOrderIffOneWorker | scheduler/internal/workerpool/pool.go:56-69 | in all runs Predict starts in acceptance order iff there is one worker |
| PoolGuarantees.SendNeverBlocks | scheduler/internal/workerpool/pool.go:67 | a worker with a result can always send it, whether or not its handler has left |
| PoolGuarantees.WorkerStepDecreases | scheduler/internal/workerpool/pool.go:65-68 | every worker step lowers the work left, for any answer of Predict |
| PoolGuarantees.WorkersRunDry | scheduler/internal/workerpool/pool.go:63-69 | without new requests workers make at most that many steps, however handlers read in between, and no accepted request is added or dropped |
| PoolGuarantees.QuietMeansDrained | scheduler/internal/workerpool/pool.go:63-69 | when no worker can move the queue is empty and every accepted request was answered once |
| PoolGuarantees.CloseDrains | scheduler/internal/workerpool/pool.go:89-94 | in any run after Close, handler reads included, the workers stop within a bound, and have stopped iff all have exited, with every accepted request answered |
| PoolGuarantees.Pool.New | scheduler/internal/workerpool/pool.go:45-61 | the new pool has the clamped sizes and idle workers |
| PoolGuarantees.Pool.Submit | scheduler/internal/workerpool/pool.go:74-81 | returns at once, true iff there was room; the new state is a Submit step of the machine |
| PoolGuarantees.Pool.QueueDepth | scheduler/internal/workerpool/pool.go:83-87 | the depth is the accepted requests that no worker has taken, at most the capacity |
| PoolGuarantees.Pool.WorkerAction | scheduler/internal/workerpool/pool.go:63-69 | a worker that is neither blocked nor gone always has a next action, and it is a step of the machine |
| PoolGuarantees.Pool.Close | scheduler/internal/workerpool/pool.go:89-94 | under any scheduling of workers and reading handlers and any answers, Close ends with all workers gone and every accepted request answered exactly once |
| PoolGuarantees.Pool.Read | scheduler/internal/api/handlers.go:236-237 | a handler's read takes its one result and leaves the workers alone |
| Routing.PickUnique | scheduler/internal/routing/policy.go:48-68 | the counting specification of pick allows one name |
| Routing.PickExists | scheduler/internal/routing/policy.go:48-68 | and, unless there is no engine, at least one |
| Routing.PickIsMinimal | scheduler/internal/routing/policy.go:54-59 | a picked engine has the least depth |
| Routing.PickIgnoresOrder | scheduler/internal/routing/policy.go:52-53 | any permutation of the engines, such as Go's map order, gives the same pick for the same ticket |
| Routing.PickIsTicketEntry | scheduler/internal/routing/policy.go:60-67 | the pick is entry (ticket mod n) of the n tied names in ascending order |
| Routing.TiedNamesAscend | scheduler/internal/routing/policy.go:52-65 | those tied names ascend, and are exactly the names of the least-depth engines |
| Routing.TieBreaker.Pick | scheduler/internal/routing/policy.go:48-68 | the sort, the two loops and the ticket compute the specified pick; the counter moves by one modulo 2^64, and not at all without engines |
| Routing.LeastDepth | scheduler/internal/routing/policy.go:54-59 | the first loop finds the least depth |
| Routing.KeepDepth | scheduler/internal/routing/policy.go:60-65 | the second loop keeps exactly the engines of that depth, in order |
| Routing.FilterHealthy | scheduler/internal/routing/policy.go:33-42 | exactly the healthy engines, in order |
| Routing.TierCount | scheduler/internal/routing/policy.go:111-118 | the tier slice is in range for every count and tier list |
| Routing.FilterToCheapTier | scheduler/internal/routing/policy.go:110-128 | keeps, in order, exactly the engines named tiers[i] for i = 0 or some i < count |
| Routing.LeastQueuePolicy.SelectEngine | scheduler/internal/routing/policy.go:77-83 | errs iff no engine is healthy, else picks among the healthy; a ticket is used iff it succeeds |
| Routing.ThermalAwarePolicy.SelectEngine | scheduler/internal/routing/policy.go:96-108 | in a valid state with maxTempC at or above the threshold, and a healthy engine named tiers[i] with i = 0 or i < count, a least-depth one of those; otherwise what least-queue answers; a ticket is used iff it succeeds |
| Routing.ThermalRefinesLeastQueue | scheduler/internal/routing/policy.go:85-108 | errs iff none is healthy; hot with a healthy cheap engine it picks a least-depth one of those; otherwise it answers as least-queue at the same ticket |
| Routing.CheapNamesLead | scheduler/internal/routing/policy.go:111-120 | a name is allowed iff it is tiers[i] for i = 0 or some i < count |
| Routing.HotPicksLeadingTier | scheduler/internal/routing/policy.go:96-128 | when hot with a healthy engine in the leading tiers, the candidates are exactly the healthy engines so named, and the answer is their pick at the ticket |
| Routing.OnlyHealthyChosen | scheduler/internal/routing/policy.go:33-108 | neither policy names an unhealthy engine |
| Fairness.BlockIsFair | scheduler/internal/routing/policy.go:66-67 | k consecutive tickets hit each of n entries floor(k/n) or ceil(k/n) times, off the wrap or if n divides 2^64 |
| Fairness.WrapIsUnfair | scheduler/internal/routing/policy.go:66-67 | otherwise a block across the wrap is not fair |
| Fairness.FairForEveryBlockIff | scheduler/internal/routing/policy.go:66-67 | all blocks are fair iff n divides 2^64 |
| Fairness.FairUnderConcurrency | scheduler/internal/routing/policy.go:44-68 | interleaved picks that hold a block of tickets and see the same tied names choose each floor(k/n) or ceil(k/n) times |
| ServerFairness.RunTakesTickets | scheduler/internal/routing/policy.go:66 | in any interleaved run the successful selections hold consecutive tickets, and each is the specified pick for its ticket |
| ServerFairness.RunIsFair | scheduler/internal/routing/policy.go:70-83 | in any run, while the same n engines are tied, k selections choose each floor(k/n) or ceil(k/n) times, off the wrap or if n divides 2^64 |
| Server.Configure | scheduler/cmd/scheduler/main.go:110-128 | the loops give every engine its client, pool and health status, over one key set and with one queue size |
| Server.StepKeepsInv | scheduler/internal/api/handlers.go:207-292 | every step of every handler, worker and poller keeps the invariant that ties each handler's place to the record of its request in the pools, and an auto-routed engine to a least-depth reading |
| ServerGuarantees.StepKeepsReads | scheduler/internal/api/handlers.go:140-152 | a step adds to a handler's readings only the depth it has just read of one engine and then, with that depth, the status the monitor has for it |
| Server.StepKeepsConfiguration | scheduler/cmd/scheduler/main.go:110-128 | engine names, queue size and policy never change |
| ServerGuarantees.RunKeepsInv | scheduler/internal/api/handlers.go:163-292 | invariant, key sets and books hold in every run |
| ServerGuarantees.RunKeepsSizes | scheduler/cmd/scheduler/main.go:110-118 | in every run each configured engine has max(queueSize, 0) queue slots and max(concurrency, 1) workers, and no other name has a pool |
| ServerGuarantees.StepKeepsBooksAt | scheduler/internal/api/handlers.go:167-171 | every step keeps, for each engine and status, metrics and pool histories equal to counts of handlers |
| ServerGuarantees.AccountingBalances | scheduler/internal/api/handlers.go:163-292 | with no handler in flight, accepted = success + error + timeout counts, iff the name is not empty or nothing was accepted |
| ServerGuarantees.RejectionsAndDurationsBalance | scheduler/internal/api/handlers.go:226-253 | with no handler in flight, AdmissionRejections = rejected count = the pool's rejections, and "total" observations = successes |
| ServerGuarantees.NeverCountedUnknown | scheduler/internal/api/handlers.go:165-171 | no request is ever counted as "unknown" or "routing_failed" |
| ServerGuarantees.CountedIff | scheduler/internal/api/handlers.go:166-193 | a finished request is counted iff its budget is good and it names an engine, or an engine was read healthy and the picked name is not empty |
| EmptyName.AcceptedAndNotCounted | scheduler/internal/api/handlers.go:166-171 | a reachable state with no handler in flight in which one accepted request is in no count |
| ServerGuarantees.SelectAnswersAsPolicy | scheduler/internal/api/handlers.go:182-193 | the routing step fails iff the policy errs and otherwise takes the engine the policy names |
| ServerGuarantees.LookupNeverMisses | scheduler/internal/api/handlers.go:207-212 | the pool lookup succeeds in every run on either routing path |
| ServerGuarantees.UnknownEngineIsUnhealthy | scheduler/internal/api/handlers.go:200-212 | an unconfigured name is answered engine_unhealthy |
| ServerGuarantees.RefusalWasReported | scheduler/internal/api/handlers.go:200-206 | a configured engine is refused as unhealthy only after one of its checks failed |
| ServerGuarantees.UnhealthyGetsNothing | scheduler/internal/api/handlers.go:200-206 | while an engine is reported unhealthy, new requests that name it reach no pool and end as unhealthy |
| HealthRouting.StatusIsLastReport | scheduler/internal/healthcheck/monitor.go:90-105 | in every run a configured engine's status is the one last reported for it, true before the first |
| HealthRouting.RefusedAfterBadReport | scheduler/internal/api/handlers.go:200-206 | a request that names a configured engine is refused by its routing step, and only if the last report on that engine before the step was bad |
| HealthRouting.ReadingsWereTrue | scheduler/internal/api/handlers.go:140-152 | in every run each reading of each request is the engine's queue depth at one time and its status at a later one |
| HealthRouting.UnhealthyIsNeverPicked | scheduler/internal/api/handlers.go:182-193 | while an engine is reported unhealthy no new auto-routed request has it among its candidates or is offered to its pool |
| HealthRouting.FailureMeansAllReported | scheduler/internal/api/handlers.go:186-192 | routing fails only after a failed check was reported for every configured engine |
| HealthRouting.HotRequestsGoToLeadingTiers | scheduler/internal/api/handlers.go:182-193 | in a valid hot state an auto-routed request goes to a least-depth healthy engine of the leading tiers, if it has read one as healthy |
| HealthRouting.EveryTurnWasTaken | scheduler/internal/api/handlers.go:213-291 | a request is offered to a pool only after its body was read, is a bad request with a good budget only after its body was not, has a result only after it took one, and times out only by its deadline |
| ServerGuarantees.OutcomesAreTrue | scheduler/internal/api/handlers.go:225-291 | a success or error carries what Predict returned for this request at the engine it was routed to; a rejected request never started anywhere; a timed-out one was accepted |
| ServerGuarantees.HandlerNeverStuck | scheduler/internal/api/handlers.go:163-292 | an unfinished handler always has a step of its own |
| ServerGuarantees.OwnStepsAreBounded | scheduler/internal/api/handlers.go:163-292 | in any run a handler's own steps and a measure of what is left never exceed the measure at the start |
| ServerGuarantees.EveryHandlerFinishes | scheduler/internal/api/handlers.go:140-292 | with n engines an arriving handler takes at most 9 + 2n steps of its own and has finished when it has taken that many |
| ServerLiveness.AnswerCanBeTaken | scheduler/internal/api/handlers.go:236-237 | from every reachable state some run of its engine's workers alone lets a waiting handler take its result |
| ServerGuarantees.RejectionMeansSaturation | scheduler/internal/api/handlers.go:142-235 | an auto-routed rejection with k other Submits since the first depth reading means every candidate was read within k of a full queue; with none, full |
| ServerGuarantees.CacheHoldsLastSuccess | scheduler/internal/api/handlers.go:271-282 | the cached result is empty until a request succeeds and then belongs to the one that published last; every later reply was a failure |
| HealthCheck.Monitor.New | scheduler/internal/healthcheck/monitor.go:47-60 | every configured engine starts healthy, and there is no other |
| HealthCheck.Monitor.Check | scheduler/internal/healthcheck/monitor.go:90-99 | only this engine's status changes, to whether it answered without error that it serves |
| HealthCheck.Monitor.Healthy | scheduler/internal/healthcheck/monitor.go:101-105 | an unknown name is not healthy |
| HealthCheck.StepKeepsInv | scheduler/internal/healthcheck/monitor.go:76-99 | every tick, check and passage of time keeps the timing invariant, and each poller touches its own status only |
| HealthCheck.DetectionBound | scheduler/internal/healthcheck/monitor.go:76-99 | an engine down (or back) since d is so reported at every time after d + max(interval, timeout) + timeout while it stays that way |
| HealthCheck.BoundIsAttained | scheduler/internal/healthcheck/monitor.go:76-99 | and not before: a run in which a down engine is still reported healthy at exactly that time, for any timeout up to the interval |
| HealthCheck.FirstCheckEndsByTimeout | scheduler/internal/healthcheck/monitor.go:79 | at every time after the timeout each engine has completed a check |
| HealthCheck.SteadyEngineIsKnown | scheduler/internal/healthcheck/monitor.go:79-99 | an engine that has not changed since the start is reported as it is at every time after the timeout |
| HealthCheck.StatusIsOwnLastCheck | scheduler/internal/healthcheck/monitor.go:76-105 | in every run a status is the answer of the engine's own last completed check, true before the first, whatever other pollers do |
| HealthCheck.ChecksKeepComing | scheduler/internal/healthcheck/monitor.go:76-88 | in every run the time is at most max(interval, timeout) after the engine's last Begin step, or after the start if there is none |
| HealthCheck.ChecksFollowTicks | scheduler/internal/healthcheck/monitor.go:77-86 | the ticker fires at the multiples of the interval, and each check but the first takes a tick of its own |
| HealthCheck.ClockNeverStuck | scheduler/internal/healthcheck/monitor.go:76-88 | in every reachable state a poller acts or time passes |
| SysMonitor.ParseTegrastatsLine | scheduler/internal/sysmonitor/monitor.go:110-127 | temperatures are present iff the line has a reading; the map has exactly its sensors, each with its last reading; the maximum is the highest reading, or -1000 if all are below that |
| SysMonitor.ParsedHoldsReadings | scheduler/internal/sysmonitor/monitor.go:110-127 | the same of the parse that the merge uses |
| SysMonitor.BySensorIsLatest | scheduler/internal/sysmonitor/monitor.go:110-117 | the map has exactly the sensors of the line, each with its last reading |
| SysMonitor.MaxCoversSensors | scheduler/internal/sysmonitor/monitor.go:110-126 | MaxTempC is at least every sensor's temperature |
| SysMonitor.MaxIsHighestIff | scheduler/internal/sysmonitor/monitor.go:22 | MaxTempC is the highest reading iff some reading is not below -1000 |
| SysMonitor.ColdLineHasNoHighest | scheduler/internal/sysmonitor/monitor.go:111-121 | a line below that, whose MaxTempC is no reading |
| SysMonitor.MaxIsSomeSensorIff | scheduler/internal/sysmonitor/monitor.go:110-126 | MaxTempC is among the temperatures stored with it iff a hottest reading not below -1000 is the last of its sensor |
| SysMonitor.CooledSensorHidesMax | scheduler/internal/sysmonitor/monitor.go:110-126 | a line with one sensor twice, whose MaxTempC is not stored |
| SysMonitor.Monitor.ApplyTegrastatsLine | scheduler/internal/sysmonitor/monitor.go:155-176 | the state is the merge of the line into the old one, its temperatures those of the line's readings or, without any, the old ones; the mode is untouched |
| SysMonitor.Monitor.PollNvpmodel | scheduler/internal/sysmonitor/monitor.go:202-218 | only the mode changes, and nothing if the query failed |
| SysMonitor.FoldIsLatest | scheduler/internal/sysmonitor/monitor.go:155-176 | after any lines each value is the last one reported, and the temperatures are those of the readings of the last line that has any |
| SysMonitor.StepKeepsInv | scheduler/internal/sysmonitor/monitor.go:155-218 | every load or store of either writer keeps the invariant on all published snapshots |
| SysMonitor.SnapshotsFoldSomeLines | scheduler/internal/sysmonitor/monitor.go:155-218 | under any interleaving every snapshot is the merge of a subsequence of the lines so far, and its mode is empty or polled |
| SysMonitor.SnapshotsAreConsistent | scheduler/internal/sysmonitor/monitor.go:155-176 | in every snapshot RAM used and total are of one line and MaxTempC covers all sensors |
| SysMonitor.RunWindows | scheduler/internal/sysmonitor/monitor.go:155-218 | a store undoes another writer's iff that one's store lies between its load and itself |
| SysMonitor.StoreUndoesOthers | scheduler/internal/sysmonitor/monitor.go:155-218 | in every run a store leaves the other writer's part as it was at its own load, whatever has been stored since |
| SysMonitor.ModeCanBeUndone | scheduler/internal/sysmonitor/monitor.go:157-175 | a run in which a polled mode is undone by a line |
| SysMonitor.NothingLostWithoutOverlap | scheduler/internal/sysmonitor/monitor.go:155-218 | if the schedule has no line store between a mode load and its store the snapshot merges all lines, and likewise for modes |
| SysMonitor.ApartLosesNothing | scheduler/internal/sysmonitor/monitor.go:155-218 | load and store windows that do not overlap lose nothing |
| SysMonitor.ValidStaysIff | scheduler/internal/sysmonitor/monitor.go:27 | a valid state stays valid in all continuations iff no mode store from before the first line is pending |
| SysMonitor.ValidCanRevert | scheduler/internal/sysmonitor/monitor.go:215-218 | a run in which it becomes invalid again and a line is undone |
| SysMonitor.ValidMeansRecognisedIff | scheduler/internal/sysmonitor/monitor.go:27 | Valid says whether some line was recognised iff there is no line or one was |
| SysMonitor.SnapshotValidIff | scheduler/internal/sysmonitor/monitor.go:155-218 | the same for every snapshot under any interleaving and the lines merged into it |
| SysMonitor.UnrecognisedLineMakesValid | scheduler/internal/sysmonitor/monitor.go:155-160 | a run in which an unrecognised line makes the state valid |
| Letterbox.Geometry | inference_engine/src/Preprocess.cpp:11-20 | the longer side fills the canvas, the pasted rectangle lies inside, opposite margins differ by at most one |
| Letterbox.ResizedHasPixelsIff | inference_engine/src/Preprocess.cpp:13-16 | the resized image is not empty iff the longer side is at most 2·target times the shorter |
| Letterbox.RoundTrip | inference_engine/src/Postprocess.cpp:21-31 | a point of the image, mapped to the canvas and back and clamped, is within 0.5/scale in x and in y |
| Letterbox.ClampNearer | inference_engine/src/Postprocess.cpp:27-31 | clamping never enlarges the error |
| Letterbox.BoxRoundTrip | inference_engine/src/Postprocess.cpp:16-32 | a whole box comes back within that bound, with its confidence and class |
| Letterbox.Postprocess | inference_engine/src/Postprocess.cpp:5-36 | the loop returns the restored confident rows, which `ResultsFromOutput` says of the numbers |
| Letterbox.RowsAreSixes | inference_engine/src/Postprocess.cpp:9-12 | number j of row i is number 6·i + j of the output |
| Letterbox.ResultsFromOutput | inference_engine/src/Postprocess.cpp:9-33 | the results are, in order and without omission, those n with output[6·n + 4] at or above the threshold, each with its coordinates, confidence and class from 6·n to 6·n + 5 |
| Letterbox.TruncateIs | inference_engine/src/Postprocess.cpp:20 | the class id is the number without what is after its point |
| Letterbox.ResultsAreConfidentRows | inference_engine/src/Postprocess.cpp:9-15 | as many results as confident rows, none below the threshold |
| Letterbox.BoxesStayInImage | inference_engine/src/Postprocess.cpp:23-31 | every box lies in the image, and ordered corners stay ordered |
| Letterbox.ChooseDecode | inference_engine/src/InferenceServiceImpl.cpp:24-29 | factor 2 goes with the half-size decode, used unless that is smaller than the input size; factor 1 with the full one |
| Letterbox.ReducedIsNeverEnlarged | inference_engine/src/InferenceServiceImpl.cpp:20-29 | a half-size decode that is kept is never scaled up by the letterbox |
| Letterbox.FillResponse | inference_engine/src/InferenceServiceImpl.cpp:53-65 | one reported box per detection in order, with only the box scaled and a name iff the class has one |
| Letterbox.ReportedInside | inference_engine/src/InferenceServiceImpl.cpp:53-60 | reported boxes lie within factor times the decoded image, in order if they were |
| Letterbox.Pad | inference_engine/src/Preprocess.cpp:17-20 | the canvas is the resized image at its offset, grey elsewhere |
| Letterbox.PaddedIs | inference_engine/src/Preprocess.cpp:17-20 | pixel (y, x) of the picture is at (padY + y, padX + x), and around it all is 114 |
| Letterbox.PlanarCopy | inference_engine/src/Preprocess.cpp:28-34 | the copy loop lays the three planes one after the other |
| Letterbox.TensorLayout | inference_engine/src/Preprocess.cpp:23-34 | element c·T²+y·T+x is red, green or blue (c = 0, 1, 2) of pixel (y, x) over 255, in [0, 1] |
| Letterbox.PreprocessLetterbox | inference_engine/src/Preprocess.cpp:7-41 | fails iff the resized image is empty; else the metadata and every tensor element are as specified |
| Letterbox.Predict | inference_engine/src/InferenceServiceImpl.cpp:24-65 | decode choice, letterbox, postprocess and response composed: answers iff there is an image, a resize and an output, then with one report per confident row, inside factor times the decoded image |
| Letterbox.FoundBoxesAreReported | inference_engine/src/InferenceServiceImpl.cpp:51-65 | boxes that the output holds six numbers each are reported exactly, in order, each side times the factor within factor · 0.5/scale, with confidence, class and the class's name |
| LoadGen.StepKeepsInv | scheduler/cmd/loadgen/main.go:214-252 | every step keeps each path in exactly one place: unsent, with one worker, or collected |
| LoadGen.NoSendOnClosed | scheduler/cmd/loadgen/main.go:214-252 | nobody sends on a closed channel |
| LoadGen.HandedOverInOrder | scheduler/cmd/loadgen/main.go:235-237 | in every run what is unsent is the rest of the paths, in order |
| LoadGen.ResultsAreAppended | scheduler/cmd/loadgen/main.go:246-247 | the collector's results only grow at the end |
| LoadGen.StepDecreases | scheduler/cmd/loadgen/main.go:214-252 | every step lowers a measure |
| LoadGen.RunsEnd | scheduler/cmd/loadgen/main.go:214-252 | so every run is finite, within a bound |
| LoadGen.NeverStuck | scheduler/cmd/loadgen/main.go:214-252 | with a worker there is no deadlock before the collector stops |
| LoadGen.CollectsEverythingIff | scheduler/cmd/loadgen/main.go:214-252 | the collector ends with exactly one result per path, as multisets, iff there is a worker or no path |
| LoadGen.NoWorkerLosesPaths | scheduler/cmd/loadgen/main.go:217-243 | without a worker a run ends with every path lost |
| LoadGen.Aggregate | scheduler/cmd/loadgen/main.go:255-269 | counts, wall times and both maps are those of the results |
| LoadGen.Summarize | scheduler/cmd/loadgen/main.go:255-311 | succeeded + failed = total; each engine's count is that of its successes and each code's that of its failures, adding up in any listing order; the wall times are the successes', in order |
| LoadGen.PercentileInRange | scheduler/cmd/loadgen/main.go:105 | the index is in range and the greatest at most p/100·(n-1), so first for 0 and last for 100 |
| LoadGen.PercentileIs | scheduler/cmd/loadgen/main.go:101-107 | the percentile is the element at that index, and 0 of no data |
| LoadGen.PercentilesAscend | scheduler/cmd/loadgen/main.go:278-288 | on sorted data percentiles ascend from the minimum to the maximum |
| Query.ClampedIff | scheduler/internal/api/handlers.go:133-136 | an explicit budget is clamped iff it does not overflow, or overflows to at least the maximum |
| Query.BudgetIs | scheduler/internal/api/handlers.go:129-137 | an explicit budget of ms gives the lesser of the maximum and the 64-bit int congruent to ms·10^6 modulo 2^64 |
| Query.AcceptedIff | scheduler/internal/api/handlers.go:124-132 | the texts not refused are none, and an optional plus with digits worth 1 to 2^63-1 |
| Query.OverflowIsNotClamped | scheduler/internal/api/handlers.go:133-137 | the first overflowing budget gives a negative duration |
| Query.EngineArrivesIff | scheduler/cmd/loadgen/main.go:86-116 | the engine named by the client is read by the handler iff it has none of the five characters, no space and no control character, and the line fits |
| Query.SpaceIsRefused | scheduler/cmd/loadgen/main.go:86-116 | a name with a space, which the -engines flag takes, never arrives |
| Query.NewlineIsNotSent | scheduler/cmd/loadgen/main.go:114-116 | a name with a line break is not sent |
| Query.QueryRoundTrip | scheduler/internal/api/handlers.go:123-138 | engine and budget written by the client are read by the server under that condition, the budget as min(b ms, maximum) |
| Query.DefaultsArrive | scheduler/cmd/loadgen/main.go:86-99 | without engine and budget the request reaches the handler with both parameters empty, and its budget is ten seconds |
| Query.UnescapeEscaped | scheduler/internal/api/handlers.go:180 | a name written in percent escapes is read back, whatever its bytes |
| Query.GetIsFirst | scheduler/internal/api/handlers.go:125 | of several values for a parameter the first is read |
| EngineSpec.ParseEngines | scheduler/cmd/scheduler/main.go:29-47 | the loop and its early error compute the parse of the flag, which `ParsedIs` describes |
| EngineSpec.ParsedIs | scheduler/cmd/scheduler/main.go:29-47 | a flag is accepted iff no piece is an error and one is a pair, and then holds exactly the names of the pairs, each with its last address |
| EngineSpec.ReadPieceKind | scheduler/cmd/scheduler/main.go:33-40 | a piece is skipped iff it is all space, and else an error iff it has no '=' |
| EngineSpec.ReadPairIs | scheduler/cmd/scheduler/main.go:33-41 | a pair is the piece without space around it, cut at the first '=' |
| EngineSpec.TrailingCommaIsSkipped | scheduler/cmd/scheduler/main.go:32-36 | a comma at the end, with or without space after it, changes nothing |
| EngineSpec.PrintParseIff | scheduler/cmd/scheduler/main.go:29-47 | printed engines with distinct names are parsed back iff there is one and no name or address has a character the flag cannot carry |
| PlotSweep.LeastSquares | benchmarks/plot_sweep.py:68-76 | when the xs are not all equal, slope and mean intercept fit strictly better than any other line |
| PlotSweep.DenominatorZeroIff | benchmarks/plot_sweep.py:75-76 | the denominator is zero iff all xs are equal |
| PlotSweep.CollinearGivesSlope | benchmarks/plot_sweep.py:68-76 | exactly collinear data gives back its line |
| PlotSweep.FlatOtherwise | benchmarks/plot_sweep.py:69-76 | fewer than two points, or all at one x, give 0 |
| PlotSweep.BinByTime | benchmarks/plot_sweep.py:56-65 | each bucket holds, in order, exactly the values of its time bin; every sample has a bucket, the last is not empty |
| PlotSweep.BinHolds | benchmarks/plot_sweep.py:63-64 | a sample's time lies between the edges of its bin |
| PlotSweep.BucketsLoseNothing | benchmarks/plot_sweep.py:61-63 | the buckets together hold as many values as there are samples |

## Left out

- gRPC, JSON, base64, logging and, but for the request line and the query, HTTP: Predict and HealthCheck are calls that return some answer, a body is readable or not.
- Proxies, https and server addresses with a path: the scheduler speaks plain HTTP and serves /predict at its root, so `Query.Origin` is an http host with no path. How many bytes the header limit leaves for the request line is a parameter.
- TensorRT, CUDA and OpenCV: decoding, interpolation and colour conversion are foreign; sizes, layout and the channel order are kept, and an empty resize is a failure.
- Float rounding, NaN and a class id outside the range of int: arithmetic is exact, so the half-pixel bound is that of the formulas.
- The regular expressions and subprocesses of the system monitor: the matched fields of a line, and the polled mode, are inputs.
- Prometheus itself: counters are maps of naturals. RoutingDecisions is never incremented, and the three stage observations other than "total" behave as that one.
- The default latency budget, which is not clamped; the clamp is stated for an explicit parameter.
- Submit after Close, and result channels shared or without capacity: outside the Request contract. The scheduler never calls Close, so it is a step of the pool but not of the server.
- Deadlines as times: a handler waiting for its result may time out at any moment, which its positive budget makes happen in the end, and a Predict call may outlive its handler.
- A success's duration observations and the cached last result are one step; nothing else reads them in between.
- The load generator's sustained mode, warm-up and CSV output, and the statistics scraper; `buildPolicy` and flag handling other than `-engines`.
- sort.Slice and sort.Float64s: any arrangement in order is allowed, and an insertion sort stands for it.
- Concurrency on Go objects: interleavings are proved on values; the classes show the sequential form of each method and, for the pool, its tie to the steps.
- `percentile` and `load_level_requests` of the plotting script: the first is the load generator's, the second reads files; its promise that times start at 0 is a precondition of the bins.
- HealthCheck.DetectionBound: at the bound itself the check may end at that very instant, so the status is fixed only strictly after it (`BoundIsAttained`).
