# Verified model of the platform's deterministic core

A Dafny model of five parts of the platform, with proofs. `dafny verify dfyconfig.toml` checks all of it.

1. **Discrete-event engine.** `Utf16`, `Canonical` and `StateHash` model canonical JSON and the chained state hash;
   `JsonText` reads the text back by the grammar of RFC 8259;
   `Events` is the event queue as a set of stored events and `EventQueue` the indexed heap proved against it;
   `KernelSpec` and `Kernel` are the kernel as functions and as an object, `Runs` the facts about step functions they
   share, `Checkpoint` the comparison of a kernel with its resumed copy. `Resources`, `RunnerSpec` and `Runner` model
   the simulated nodes and the request handlers, again as values and as objects; `Pending`, `RunnerInvariant`,
   `RunnerSteps`, `RunnerMoves`, `RunnerHandlers`, `RunnerLocal`, `Simulation`, `SimulationEnd`, `Latency` and `Calls` prove
   what every run of them keeps. `Simulator` puts the runner and kernel objects together and carries the results over.
2. **Topology.** `Topology` is the graph and the agreement of its maps, `CycleSearch` the depth-first search,
   `TopologyRules` classification and validation, `TopologicalOrder` Kahn's sort.
3. **Cascades.** `Cascade` is the reverse breadth-first search.
4. **Leases, outbox, inbox.** `LeaseSteps` takes lease operations one store access at a time with arbitrary
   interleaving; `Leases` takes them whole. `Outbox` is the relay with a crash possible anywhere, `Inbox` the consumer.
5. **Search and statistics.** `Bisection`, `KsTest`, `Histograms`, `Welford`.

`Common` holds optional values and a fact about finite sets.

Objects of the source are classes whose methods are proved to act as functions on values; the properties are lemmas
about those functions. Handlers, the evaluator of the capacity search and the reading of payloads as JSON are
deterministic functions given as parameters; so are the digest, the bucket function and the clock values.

Where the code and its own comments differ, the model follows the code:

- `packages/domain/src/graph/algorithms.ts:10` speaks of all elementary cycles; the search reports one cycle for each
  edge back into its stack. `CycleSearch.ClosedWalkIsCaught` is what remains true.
- `packages/domain/src/graph/algorithms.ts:164` says the sort throws on synchronous or non-permitted cycles; it throws
  on every cycle, permitted or not.
- `packages/comparison/src/metrics/ks-test.ts:9` defines D as max |F1 - F2|; with repeated values D can be larger.
  `KsTest.ComputeTwoSampleKsTest` states exactly what it is.
- `packages/execution-leases/src/inbox/inbox-consumer.ts:5` speaks of transactional deduplication; check, handler and
  insert are three steps, and two concurrent calls may both run their handler (`Inbox.ConcurrentCallsBothHandle`;
  `Inbox.HandledAgainIff` says exactly when).
- `docs/architecture/m12-signoff-report.md:46` calls epochs monotonic and transactional; across interleaved acquires the
  epoch in MySQL can fall (`LeaseSteps.EpochCanFall`), across whole operations it does not (`Leases.HandoffGrows`).

## Model

| member | source | states |
|---|---|---|
| Canonical.CanonicalIffEquivalent | packages/simulation-engine/src/hashing/canonical-hasher.ts:3-20 | two well-formed JSON values are rendered as the same text exactly when they are equal up to the order of object keys (with undefined read as null and a bigint as the integer of the same value, as the code does) |
| JsonText.CanonicalDenotes | packages/simulation-engine/src/hashing/canonical-hasher.ts:3-20 | for every well-formed value the canonical text is a JSON text in the grammar of RFC 8259; what it denotes is equivalent to the value, and the keys of all its objects strictly increase, unit by unit |
| JsonText.KeysPrecede | packages/simulation-engine/src/hashing/canonical-hasher.ts:17-19 | in the text of an object an earlier key is less than a later one at the first UTF-16 unit in which they differ, or ends there |
| JsonText.FieldOrigin | packages/simulation-engine/src/hashing/canonical-hasher.ts:17-18 | each field that stands there is the key and the rendered value of one member |
| JsonText.EveryMemberStands | packages/simulation-engine/src/hashing/canonical-hasher.ts:17-18 | and every member stands there, none twice |
| JsonText.ObjectParts | packages/simulation-engine/src/hashing/canonical-hasher.ts:18-19 | the text of an object is its fields between braces with commas, each a quoted key, a colon and the rendered value |
| JsonText.EscapeUnitMeans | packages/simulation-engine/src/hashing/canonical-hasher.ts:11-18 | which escape JSON.stringify chooses for each code unit, and that it reads back as this unit |
| JsonText.UnescapedEscape | packages/simulation-engine/src/hashing/canonical-hasher.ts:11-18 | an escaped string read by section 7 of RFC 8259 is the string |
| JsonText.DecimalDenotes | packages/simulation-engine/src/hashing/canonical-hasher.ts:8-11 | a printed integer is the decimal numeral of its value, without leading zeros |
| JsonText.KeyLessMeans | packages/simulation-engine/src/hashing/canonical-hasher.ts:17 | the order used for sorting is the one by the first differing code unit, a proper prefix first |
| Canonical.CanonicalSplit | packages/simulation-engine/src/hashing/canonical-hasher.ts:3-20 | renderings are self-delimiting: equal texts with any text behind them have equal rests and equivalent values, so nothing of a value can be mistaken for its surroundings |
| Canonical.EscapeSplit | packages/simulation-engine/src/hashing/canonical-hasher.ts:11-18 | the escaping of JSON.stringify (lone surrogates included) followed by a closing quote can be read back in one way only |
| Canonical.SortFieldsSorts | packages/simulation-engine/src/hashing/canonical-hasher.ts:17 | sorting by key yields the same fields, each once, in strictly increasing order of keys; JsonText.KeyLessMeans says which order this is |
| Utf16.DecimalSplit | packages/simulation-engine/src/hashing/canonical-hasher.ts:38 | decimal numbers followed by something that is no digit can be read back in one way only |
| StateHash.CanonicalStateHasher.Update | packages/simulation-engine/src/hashing/canonical-hasher.ts:36-40 | the new hash is the digest of old hash, time, type and payload, and it extends the chain of whatever seed and trace led to the old one |
| StateHash.SeedMeans | packages/simulation-engine/src/hashing/canonical-hasher.ts:25 | the initial hash is sixty-four zeros |
| StateHash.CanonicalStateHasher.Restore | packages/simulation-engine/src/hashing/canonical-hasher.ts:42-44 | the stored hash replaces the current one |
| StateHash.HashInputDetermines | packages/simulation-engine/src/hashing/canonical-hasher.ts:36-39 | with colon-free event types the hashed text determines the previous hash and the event, up to key order, and conversely |
| StateHash.TraceDetermined | packages/simulation-engine/src/hashing/canonical-hasher.ts:36-40 | with an injective digest, two chains over equally many events are equal exactly when seeds and traces are the same |
| Events.AutoIdInjective | packages/simulation-engine/src/events/event-queue.ts:36 | generated ids determine sequence number and time |
| Events.AutoIdFresh | packages/simulation-engine/src/events/event-queue.ts:34-36 | a generated id never collides with that of a stored event that has a generated id |
| Events.PopLive | packages/simulation-engine/src/events/event-queue.ts:64-79 | a pop takes exactly the front event out of the live events |
| Events.BeforeMeans | packages/simulation-engine/src/events/event-queue.ts:129-139 | the order of events, in terms of time, priority and sequence number |
| Events.FrontIsEarliest | packages/simulation-engine/src/events/event-queue.ts:56-79 | the front is the live event of the least time, among those of the lowest priority number, among those the oldest; a peek keeps exactly the front and the stored events after it, a pop only those after it |
| Events.CancelLive | packages/simulation-engine/src/events/event-queue.ts:84-94 | a cancel takes exactly the live event with the id out of the live events, and a second one finds nothing |
| Events.PruneKeepsLive | packages/simulation-engine/src/events/event-queue.ts:183-194 | dropping cancelled roots changes neither the live events nor what the next pop does |
| Events.DrainSorts | packages/simulation-engine/src/events/event-queue.ts:64-79 | popping until nothing is live yields each live event once, by rising time, then priority number, then age |
| EventQueues.EventQueue.Push | packages/simulation-engine/src/events/event-queue.ts:27-51 | adds the event with the next sequence number; heap order and the index map (id to position, exactly) are kept |
| EventQueues.EventQueue.Peek | packages/simulation-engine/src/events/event-queue.ts:56-59 | returns the live event of least time, then priority number, then sequence number, and drops the cancelled events before it, nothing else |
| EventQueues.EventQueue.Pop | packages/simulation-engine/src/events/event-queue.ts:64-79 | returns the live event of least time, then priority number, then sequence number; of the stored events exactly those after it remain |
| EventQueues.EventQueue.Cancel | packages/simulation-engine/src/events/event-queue.ts:84-94 | succeeds exactly when a live event has the id, and flags that event |
| EventQueues.EventQueue.Size | packages/simulation-engine/src/events/event-queue.ts:16-18 | counts stored events, the cancelled ones included |
| EventQueues.EventQueue.IsEmpty | packages/simulation-engine/src/events/event-queue.ts:20-22 | true exactly when nothing is stored, cancelled or not |
| EventQueues.EventQueue.SerializeState | packages/simulation-engine/src/events/event-queue.ts:99-104 | the snapshot holds exactly the live events, each once, and the sequence counter |
| EventQueues.EventQueue.RestoreState | packages/simulation-engine/src/events/event-queue.ts:109-127 | from any previous state, the queue then holds exactly the events of the snapshot in a valid heap with an exact index map |
| EventQueues.EventQueue.SiftUp | packages/simulation-engine/src/events/event-queue.ts:141-152 | one misplaced event rises until the heap order holds; contents and index map agree throughout |
| EventQueues.EventQueue.SiftDown | packages/simulation-engine/src/events/event-queue.ts:154-173 | one misplaced event sinks until the order holds at and below the start |
| EventQueues.EventQueue.Swap | packages/simulation-engine/src/events/event-queue.ts:175-181 | two positions are exchanged and the index map follows |
| EventQueues.EventQueue.PruneCancelled | packages/simulation-engine/src/events/event-queue.ts:183-194 | cancelled events at the root go, and the root is then the least live event if there is one |
| EventQueues.RootLeast | packages/simulation-engine/src/events/event-queue.ts:56-59 | in a heap with distinct events the root is the least of all |
| KernelSpec.StepSafe | packages/simulation-engine/src/kernel/simulation-kernel.ts:41-77 | the clock never goes back in a step; the time-monotonicity error is unreachable; a step throws exactly when its handler asks for a time in the past or a negative delay, and keeps a valid kernel in every case |
| KernelSpec.StepTakes | packages/simulation-engine/src/kernel/simulation-kernel.ts:57-77 | one event taken, in its own fields: the new hash is the digest of old hash, time, type and canonical payload, these three are what the trace shows, the handler of its type is called at its time, and the step counts unless it fails |
| KernelSpec.StepFindsNothing | packages/simulation-engine/src/kernel/simulation-kernel.ts:57-59 | with nothing live a step only drops what is cancelled |
| KernelSpec.ApplyMeans | packages/simulation-engine/src/kernel/simulation-kernel.ts:41-55 | what scheduling at a time, scheduling after a delay and cancelling do to the kernel, field by field, and when they are refused |
| KernelSpec.RunUntilMeans | packages/simulation-engine/src/kernel/simulation-kernel.ts:79-93 | runUntil is a plain run: nothing beyond the time limit is processed, at the time limit no live event is left within it, and it is finished only when nothing at all is stored |
| KernelSpec.EventLimitBounds | packages/simulation-engine/src/kernel/simulation-kernel.ts:79-93 | with an event limit the loop ends after as many steps as events are left to the limit |
| KernelSpec.HashIsChain | packages/simulation-engine/src/kernel/simulation-kernel.ts:57-77 | after any number of steps the state hash is the chain over exactly the processed events, in order |
| KernelSpec.EqualHashesEqualTraces | packages/simulation-engine/src/kernel/simulation-kernel.ts:57-77 | two runs from the initial hash, of whatever programs, that processed equally many events have equal hashes exactly when they processed the same events |
| Kernels.SimulationKernel.RegisterHandler | packages/simulation-engine/src/kernel/simulation-kernel.ts:37-39 | one handler per event type, the last one registered; the running state is untouched |
| Kernels.SimulationKernel.Schedule | packages/simulation-engine/src/kernel/simulation-kernel.ts:41-48 | refused exactly when the time is past, and then nothing changes; otherwise the event is pushed |
| Kernels.SimulationKernel.ScheduleIn | packages/simulation-engine/src/kernel/simulation-kernel.ts:50-55 | refused exactly when the delay is negative, and then nothing changes; otherwise the event for now + delay is pushed and returned |
| Kernels.SimulationKernel.Step | packages/simulation-engine/src/kernel/simulation-kernel.ts:57-77 | the object does what the specified step does; with an event its hash is the digest of old hash, time, type and canonical payload of that event, its clock is the time of the event, and the handler of its type, if any, gives the new handler state |
| Kernels.SimulationKernel.RunUntil | packages/simulation-engine/src/kernel/simulation-kernel.ts:79-93 | the loop over the object ends in the state, for the reason and after the number of steps that the specification gives |
| Kernels.SimulationKernel.CreateCheckpoint | packages/simulation-engine/src/kernel/simulation-kernel.ts:95-102 | captures clock, count, hash, counter and exactly the live events |
| Kernels.SimulationKernel.ResumeCheckpoint | packages/simulation-engine/src/kernel/simulation-kernel.ts:104-109 | whatever the kernel did before, it is afterwards the kernel of the checkpoint |
| Checkpoints.ResumeBisimilar | packages/simulation-engine/src/kernel/simulation-kernel.ts:95-109 | for any valid kernel and deterministic handlers, a kernel resumed from its checkpoint processes the same entries and has after every number of steps the same clock, count, hash, live events and counter |
| Checkpoints.ResumeRunUntil | packages/simulation-engine/src/kernel/simulation-kernel.ts:79-109 | runUntil takes as many steps on both and stops in related states; the answers can differ only between finished and time limit |
| Checkpoints.ResumeExact | packages/simulation-engine/src/kernel/simulation-kernel.ts:95-109 | the resumed kernel is the original one exactly when no cancelled event was stored |
| Checkpoints.FinishedFlagDiffers | packages/simulation-engine/src/kernel/simulation-kernel.ts:79-92 | a concrete kernel with one cancelled event for which the answer of runUntil does not survive the checkpoint |
| Checkpoints.AnswerSurvives | packages/simulation-engine/src/kernel/simulation-kernel.ts:79-109 | if no cancelled event is stored behind the last live one, runUntil answers the same after a resume for every program and every limit |
| Checkpoints.AnswerLost | packages/simulation-engine/src/kernel/simulation-kernel.ts:79-109 | and otherwise it does not: a program without handlers already gets the other answer |
| Resources.ConnectionPoolConserves | packages/simulation-engine/src/resources/connection-pool.ts:40-67 | a grant adds one to active plus waiting, refusal happens exactly at full capacity, a release gives back one unless nothing is held, and limits are kept |
| Resources.ConnectionPoolResource.TryAcquire | packages/simulation-engine/src/resources/connection-pool.ts:40-54 | the counters and the grant of the specified call |
| Resources.ConnectionPoolResource.Release | packages/simulation-engine/src/resources/connection-pool.ts:56-67 | a waiter is promoted before a connection is given back |
| Resources.ThreadPoolConserves | packages/simulation-engine/src/resources/threadpool.ts:43-70 | as for connections, for workers and queued tasks |
| Resources.ThreadPoolResource.TryAcquire | packages/simulation-engine/src/resources/threadpool.ts:43-57 | the counters and the grant of the specified call |
| Resources.ThreadPoolResource.Release | packages/simulation-engine/src/resources/threadpool.ts:59-70 | a queued task is promoted before a worker is given back |
| Resources.DurationBounds | packages/simulation-engine/src/resources/cpu.ts:29-33 | with at most n tasks active the duration is at least the base and at most round(base * n / cores) when n exceeds the cores, the base otherwise |
| Resources.DurationMeans | packages/simulation-engine/src/resources/cpu.ts:29-33 | with no more tasks than cores the duration is the base; with n > cores it is base * n / cores rounded to the nearest, halves up |
| Resources.WorstDurationMeans | packages/simulation-engine/src/resources/cpu.ts:29-33 | the bound in terms of the number of tasks: the base, or base * n / cores rounded |
| Resources.CpuResource.CalculateExecutionDurationUs | packages/simulation-engine/src/resources/cpu.ts:29-33 | the base while the active tasks do not outnumber the cores, and base * tasks / cores rounded, halves up, when they do; never below the base or above the worst case of any number of tasks that bounds the active ones |
| Resources.CpuResource.Acquire | packages/simulation-engine/src/resources/cpu.ts:35-40 | one more active task; the peak follows |
| Resources.CpuResource.Release | packages/simulation-engine/src/resources/cpu.ts:42-46 | one active task less, never below zero |
| Runners.SimulationRunner.constructor | packages/simulation-engine/src/runner/simulation-runner.ts:75-97 | builds separate resource objects per node in their initial states; later entries replace earlier ones of the same name |
| Runners.SimulationRunner.OnArrival | packages/simulation-engine/src/runner/simulation-runner.ts:101-141 | the object does to its counters, resources and requests what the specified handler does, and asks the kernel for the same |
| Runners.SimulationRunner.OnLocalOpComplete | packages/simulation-engine/src/runner/simulation-runner.ts:144-209 | the same for the end of local work: CPU back, asynchronous events, synchronous dependencies in call order, failure at the first that cannot start |
| Runners.SimulationRunner.OnDepComplete | packages/simulation-engine/src/runner/simulation-runner.ts:212-227 | the same for the end of a dependency |
| Runners.SimulationRunner.FinishRequest | packages/simulation-engine/src/runner/simulation-runner.ts:235-255 | the same for the end of a request: thread back, latency, success or failure |
| Simulations.StepKeeps | packages/simulation-engine/src/runner/simulation-runner.ts:99-255 | every kernel step of the running simulation keeps the invariant over requests, nodes, pending events and log |
| Simulations.Conservation | packages/simulation-engine/src/runner/simulation-runner.ts:99-255 | in every reachable state arrivals = successes + failures + running; per node, threads active + queued = running requests rooted there, CPU active = outstanding local completions, connections active + waiting = outstanding dependency completions |
| Simulations.FinishedOnce | packages/simulation-engine/src/runner/simulation-runner.ts:143-255 | finishRequest runs exactly once for each request that stops running, also when a dependency fails after earlier ones were scheduled, and never for one still running; successes are the entries that say so, and failures those that say so and the arrivals that never became a request |
| Latencies.RecordedLatency | packages/simulation-engine/src/runner/simulation-runner.ts:118-249 | for every success recorded in a run, the latency is exactly max(1, local duration + wait): one step of the run accepted the request, and with n tasks on the CPU of its node, the new one counted, the local duration is the base if n does not exceed the cores and base * n / cores rounded if it does; it lies between the base and the worst case of a full pool and queue |
| Simulations.WaitIsSlowest | packages/simulation-engine/src/runner/simulation-runner.ts:176-208 | the wait is the largest base latency + 1000 over the synchronous dependencies |
| Calls.CallsInOrder | packages/simulation-engine/src/runner/simulation-runner.ts:153 | dependencies are called by rising callOrder, those of the same callOrder as they are listed |
| Calls.SynchronousMeans | packages/simulation-engine/src/runner/simulation-runner.ts:160 | waited for are exactly the dependencies that are not ASYNC, in order |
| Calls.AsyncAsksMean | packages/simulation-engine/src/runner/simulation-runner.ts:161-169 | one ASYNC_INVOKE, 500 us ahead, for each asynchronous dependency whose operation exists, in order |
| Calls.StartsUntilRefused | packages/simulation-engine/src/runner/simulation-runner.ts:178-208 | dependencies are started in order up to the first whose operation or node is missing or whose node has no place left after the calls before it; each completes after the base latency of its target and 1000 us |
| Calls.RefusedIff | packages/simulation-engine/src/runner/simulation-runner.ts:75-92 | in every reachable state a call is refused exactly when connectionPoolSize + 100 calls to the node are outstanding, and an arrival exactly when threadPoolSize + threadPoolQueueCapacity requests run on it |
| Calls.NewIsConfigured | packages/simulation-engine/src/runner/simulation-runner.ts:75-92 | a new runner has idle nodes with the configured limits and a hundred places to wait for a connection |
| SimulationEnds.SimulationEnds | packages/simulation-engine/src/runner/simulation-runner.ts:260-275 | with non-negative latencies runUntil ends without error after at most arrivals * (2 + largest dependency count) steps, whatever its limits |
| SimulationEnds.FinishedIsDone | packages/simulation-engine/src/runner/simulation-runner.ts:260-275 | a run that stops with nothing left to process has turned every arrival into a success or a failure, with no request running and every pool and CPU idle |
| Simulators.Simulator.Step | packages/simulation-engine/src/runner/simulation-runner.ts:99-255 | runner and kernel objects together take the step of the machine that the theorems speak of |
| Simulators.Simulator.Run | packages/simulation-engine/src/runner/simulation-runner.ts:260-275 | scheduling the arrivals and running to the time limit ends, in the state and for the reason specified; the counters of the runner balance; if nothing is left, every arrival is a success or a failure and everything is idle |
| Topology.AddEdgeKeepsAgreementIff | packages/domain/src/graph/graph.ts:31-48 | adding an edge between existing nodes keeps edge map, outgoing and incoming lists in agreement exactly when its id is new |
| Topology.AddNodeKeepsAgreement | packages/domain/src/graph/graph.ts:9-17 | adding or replacing a node always keeps the agreement |
| Topology.TopologyGraph.AddNode | packages/domain/src/graph/graph.ts:9-17 | the object becomes the specified graph |
| Topology.TopologyGraph.AddEdge | packages/domain/src/graph/graph.ts:31-48 | missing source, then missing target, are refused without change; otherwise the object becomes the specified graph |
| CycleSearch.CycleDetector.Dfs | packages/domain/src/graph/algorithms.ts:22-51 | the recursive search over the shared collections is the specified search; it ends because unvisited nodes run out |
| CycleSearch.DetectCycles | packages/domain/src/graph/algorithms.ts:12-60 | the list returned is that of the specified search over all nodes in insertion order, on any graph built by addNode and addEdge |
| CycleSearch.AddNodeSearchable | packages/domain/src/graph/graph.ts:9-17 | adding a node keeps what the search relies on |
| CycleSearch.AddEdgeSearchable | packages/domain/src/graph/graph.ts:31-48 | and so does adding an edge, with a new id or a known one |
| CycleSearch.ReportIsSimple | packages/domain/src/graph/algorithms.ts:31-41 | the startIndex guard never fails: each edge back into the stack adds one report, a simple cycle that ends with this edge |
| CycleSearch.CyclesAreSimple | packages/domain/src/graph/algorithms.ts:12-60 | every entry is a closed path without repetition whose i-th edge joins path[i] to path[i + 1] |
| CycleSearch.CyclesAreBackEdges | packages/domain/src/graph/algorithms.ts:12-60 | there is an order of all nodes in which exactly the closing edges of the reports do not lead to an earlier node |
| CycleSearch.ClosedWalkIsCaught | packages/domain/src/graph/algorithms.ts:12-60 | every closed walk, listed or not, runs over the closing edge of some reported simple cycle |
| CycleSearch.NoCyclesIffAcyclic | packages/domain/src/graph/algorithms.ts:12-60 | the list is empty exactly when the graph is acyclic |
| TopologyRules.ClassifyMeans | packages/domain/src/graph/algorithms.ts:65-130 | a cycle is permitted exactly when it has a KAFKA_PUBLISH or KAFKA_CONSUME edge, a broker, and no edge of another kind unless a guard is in force; it is ALL_SYNCHRONOUS exactly when no edge is of these two kinds, and ASYNC_EVENT_DRIVEN exactly when there is a broker and every edge, of at least one, is |
| TopologyRules.ValidateTopology | packages/domain/src/graph/algorithms.ts:135-160 | valid exactly when every reported cycle has a broker, a KAFKA_PUBLISH or KAFKA_CONSUME edge, and no edge of another kind unless a guard is in force; results and errors in order, with node and edge counts |
| TopologyRules.RejectedInOrder | packages/domain/src/graph/algorithms.ts:141-150 | the errors are exactly the results that are not permitted, in the order of the results |
| TopologyRules.ValidUnguarded | packages/domain/src/graph/algorithms.ts:135-160 | valid without a guard means that every closed walk has a KAFKA_PUBLISH or KAFKA_CONSUME edge |
| TopologyRules.BoundsMeans | packages/domain/src/graph/algorithms.ts:110-112 | a guard is in force when one of its three bounds is given and not zero |
| TopologyRules.GuardHides | packages/domain/src/graph/algorithms.ts:105-120 | a concrete graph that is valid under every guard in force although two nodes call each other synchronously |
| TopologyRules.ValidMeansNoSynchronousCycleIff | packages/domain/src/graph/algorithms.ts:135-160 | valid excludes all-synchronous cycles from every graph exactly when no guard is in force |
| TopologyRules.ValidWithoutBroker | packages/domain/src/graph/algorithms.ts:135-160 | without a broker node a graph is valid exactly when it is acyclic, whatever the guard |
| TopologicalOrder.TopologicalSort | packages/domain/src/graph/algorithms.ts:166-205 | succeeds exactly on acyclic graphs, with every node once and every edge pointing forward; without broker nodes that is exactly when the graph validates, whatever the guard |
| TopologicalOrder.Release | packages/domain/src/graph/algorithms.ts:190-198 | the loop over a node's outgoing edges is the specified settling of counts and queue |
| TopologicalOrder.SettledReleases | packages/domain/src/graph/algorithms.ts:190-198 | settling a finished node's edges keeps every in-degree the number of edges from unfinished nodes, and exactly the nodes at zero are finished or queued, once each |
| TopologicalOrder.ReusedIdNeverEnds | packages/domain/src/graph/algorithms.ts:166-198 | where addEdge was given a known id the sort need not end: a concrete graph of two nodes whose queue is never empty |
| TopologicalOrder.Verdict | packages/domain/src/graph/algorithms.ts:200-204 | when the queue is empty, as many nodes are sorted as there are exactly if there is no cycle |
| Cascade.AnalyzeBlastRadius | packages/chaos-engine/src/propagation/cascade-analyzer.ts:16-52 | on any graph, cyclic or not: exactly the other nodes that can reach the target, each once and nearest first; depth is the largest distance, and isCascade means some distance is at least 2 |
| Cascade.FoundIsExact | packages/chaos-engine/src/propagation/cascade-analyzer.ts:26-42 | once the queue is empty the depths recorded are the shortest distances of exactly the nodes that reach the target |
| LeaseSteps.EpochHasOneHolder | packages/execution-leases/src/leases/lease-manager.ts:17-137 | with every await an interleaving point, expiry and crashes at any time, no two holders are ever returned leases with the same epoch |
| LeaseSteps.RowIsIssued | packages/execution-leases/src/leases/lease-manager.ts:30-75 | under the same interleavings the MySQL row always holds an epoch that was issued to the row's holder |
| LeaseSteps.EpochFallsIff | packages/execution-leases/src/leases/lease-manager.ts:45-63 | the epoch in MySQL falls in exactly one kind of step, an acquire that was overtaken and now updates the row |
| LeaseSteps.EpochCanFall | packages/execution-leases/src/leases/lease-manager.ts:17-87 | a concrete interleaving of two acquires in which both return leases and MySQL ends with the lower epoch |
| Leases.AloneIsARun | packages/execution-leases/src/leases/lease-manager.ts:17-154 | an operation as one step is a run of the interleaved system in which nobody else moves |
| Leases.EpochIsCounter | packages/execution-leases/src/leases/lease-manager.ts:30-75 | after any run of whole operations and expiries the MySQL epoch equals the Redis counter |
| Leases.HandoffGrows | packages/execution-leases/src/leases/lease-manager.ts:17-137 | in such runs a later lease never has a lower epoch, and one of another holder has a higher epoch |
| Leases.FenceAdmitsLatest | packages/execution-leases/src/leases/epoch-fence.ts:26-35 | in such runs the database fence lets a lease through exactly when it has the epoch of the latest one, so every handoff shuts out earlier holders |
| Leases.NewestPasses | packages/execution-leases/src/leases/epoch-fence.ts:26-35 | under any interleaving the database fence never rejects the newest epoch issued |
| Leases.RenewFindsRow | packages/execution-leases/src/leases/lease-manager.ts:89-137 | in such runs renew never misses its row, nor acquire meets a duplicate |
| Leases.AloneReacquires | packages/execution-leases/src/leases/lease-manager.ts:21-28 | acquire on a held resource fails for others, changing nothing, and renews for the holder |
| Leases.AloneReleases | packages/execution-leases/src/leases/lease-manager.ts:139-154 | release drops the lock only for its holder, but marks the row RELEASED for any caller |
| Leases.LeaseManager.Acquire | packages/execution-leases/src/leases/lease-manager.ts:17-87 | the stores and the answer are those of the process running alone; other resources are untouched |
| Leases.LeaseManager.Renew | packages/execution-leases/src/leases/lease-manager.ts:89-137 | the same for renew, with its three errors |
| Leases.LeaseManager.Release | packages/execution-leases/src/leases/lease-manager.ts:139-154 | the same for release |
| Leases.LeaseManager.GetCurrentEpoch | packages/execution-leases/src/leases/lease-manager.ts:156-171 | the row's epoch, or the counter where there is no row; in every consistent state that is the counter |
| Leases.LeaseManager.AssertValidEpochFromDb | packages/execution-leases/src/leases/epoch-fence.ts:26-35 | throws exactly when a row is there with a higher epoch |
| Outbox.LogFollowsOutbox | packages/execution-leases/src/outbox/outbox-relay.ts:69-108 | for one relay that may crash between any two store accesses: published rows are in the log, the log without repeats is a prefix of the outbox in order, and repeats never exceed crashes |
| Outbox.NextKeeps | packages/execution-leases/src/outbox/outbox-relay.ts:69-108 | each single step keeps the invariant behind that |
| Outbox.RelayDelivers | packages/execution-leases/src/outbox/outbox-relay.ts:69-108 | a call that meets no crash logs the oldest pending rows up to the limit, in order, and publishes exactly those |
| Outbox.OutboxRelay.RelayPendingEvents | packages/execution-leases/src/outbox/outbox-relay.ts:69-108 | the loop over the table and the log is that sequence of steps, cut off at the crash if there is one |
| Outbox.OutboxRelay.QueueEvent | packages/execution-leases/src/outbox/outbox-relay.ts:34-67 | inserts one unpublished row |
| Inbox.ProcessedOnce | packages/execution-leases/src/inbox/inbox-consumer.ts:9-49 | however calls interleave, throw or crash, at most one call per (event, consumer) reports processed: true, exactly for the rows present, and only after its handler ran |
| Inbox.HandledAgainIff | packages/execution-leases/src/inbox/inbox-consumer.ts:9-49 | a pair is handled more than once exactly when a call that passed its check while there was no row completes its handler after another call has completed its own |
| Inbox.ConcurrentCallsBothHandle | packages/execution-leases/src/inbox/inbox-consumer.ts:9-49 | a concrete interleaving of two calls in which the handler runs twice |
| Inbox.HandledOnce | packages/execution-leases/src/inbox/inbox-consumer.ts:9-49 | one message at a time, the handler runs exactly once per distinct event, in the order of first appearance |
| Inbox.OutboxToHandler | packages/execution-leases/src/inbox/inbox-consumer.ts:9-49 | whatever the relay went through, such a consumer handles a prefix of the outbox in order, each event once, and every published one |
| Inbox.InboxConsumer.ConsumeWithIdempotency | packages/execution-leases/src/inbox/inbox-consumer.ts:9-49 | with others inserting meanwhile, with a handler that throws or an insert that fails: what is handled, inserted, reported or thrown |
| KsTest.ComputeTwoSampleKsTest | packages/comparison/src/metrics/ks-test.ts:11-67 | refuses empty samples; otherwise D lies in [0, 1] and is the largest of the gaps \|F1(x) - F2(x)\| and of the gaps in mid-value where a shared value has run out in one sample, and rejectNull is D > c * sqrt((n1 + n2) / (n1 * n2)) |
| KsTest.StatisticIsSupremumIff | packages/comparison/src/metrics/ks-test.ts:22-55 | D is the supremum of \|F1 - F2\| exactly when no mid-value gap exceeds every gap |
| KsTest.EqualRepeatsGiveSupremum | packages/comparison/src/metrics/ks-test.ts:22-55 | so it is when every shared value occurs equally often in both samples |
| KsTest.NoRepeatsGiveSupremum | packages/comparison/src/metrics/ks-test.ts:22-55 | in particular when neither sample repeats a value |
| KsTest.RepeatsMislead | packages/comparison/src/metrics/ks-test.ts:26-50 | for [1, 1] against [1] the distribution functions agree everywhere and D is one half |
| KsTest.StatisticSymmetric | packages/comparison/src/metrics/ks-test.ts:11-55 | exchanging the samples gives the same D |
| Bisection.RunBisectionSearch | packages/capacity-search/src/algorithms/bisection-search.ts:13-143 | the result passes or is minRps; the sweep is chosen exactly when two neighbouring probes contradict each other, and otherwise the flag is raised exactly when two neighbouring steps do; a flag means the evaluator is not monotone; for a monotone one the result passes exactly if minRps does and every passing rate is at most result + max(tolerance, ceil((max - min) / 2^maxIterations)); steps tell what the evaluator said |
| Bisection.Bisect | packages/capacity-search/src/algorithms/bisection-search.ts:100-142 | every step tries the middle of the bracket of last pass and last failure, halves up; the result is its lower end, and it stops only within the tolerance or after maxIterations; the best rate and a rate above it that fails or is maxRps stay within the tolerance or the halved width; the flag is raised exactly when two neighbouring steps contradict each other |
| Bisection.BracketShrinks | packages/capacity-search/src/algorithms/bisection-search.ts:105-142 | k halvings leave a bracket inside the range no wider than (max - min) / 2^k, rounded up |
| Bisection.OddMeans | packages/capacity-search/src/algorithms/bisection-search.ts:51-60 | when a probe, and when a step, contradicts the one before it |
| Bisection.StepsFlagMeans | packages/capacity-search/src/algorithms/bisection-search.ts:113-118 | the check after each step, taken over a whole search, flags exactly if some step contradicts the one before it |
| Bisection.Sweep | packages/capacity-search/src/algorithms/bisection-search.ts:70-97 | candidates rise from minRps in steps of a tenth of the range, rounded, and at least 10; every one up to the result passed, and the next one fails or exceeds maxRps |
| Bisection.Probe | packages/capacity-search/src/algorithms/bisection-search.ts:35-68 | minRps, the rates 0.33 and 0.66 of the range above it within half a unit, and maxRps; flagged exactly when a pass stands above a failure or errors rise while latency falls between neighbours, which no monotone evaluator shows |
| Histograms.LogLinearHistogram.Record | packages/statistics/src/metrics/histogram.ts:56-70 | the state is that of the recorded values and this one; negative values are ignored |
| Histograms.LogLinearHistogram.GetQuantile | packages/statistics/src/metrics/histogram.ts:72-90 | for 0 < q < 1 the point halfway, within half a unit and upwards, between the boundaries of the bucket that holds the value of rank ceil(q * n), and of the first bucket whose running count reaches that rank even if counts have wrapped; minimum and maximum at and beyond the ends |
| Histograms.LogLinearHistogram.BucketOfRank | packages/statistics/src/metrics/histogram.ts:77-87 | the first bucket at which the running count reaches the rank; that of the value of this rank unless a count has wrapped, so that the fallback after the loop is not reached |
| Histograms.LogLinearHistogram.Merge | packages/statistics/src/metrics/histogram.ts:108-115 | merging equals recording one sequence after the other |
| Histograms.FirstReaching | packages/statistics/src/metrics/histogram.ts:77-87 | the first bucket whose running count reaches k is the bucket of the k-th smallest value |
| Histograms.QuantileMonotone | packages/statistics/src/metrics/histogram.ts:72-90 | a larger share never has the smaller quantile |
| Welford.WelfordStats.Update | packages/statistics/src/metrics/welford.ts:22-28 | the state stays exactly length, mean and sum of squared deviations of the values seen |
| Welford.WelfordStats.Merge | packages/statistics/src/metrics/welford.ts:30-44 | merging gives the state of one sequence after the other, also with itself |
| Welford.WelfordStats.Mean | packages/statistics/src/metrics/welford.ts:10-12 | the mean of all values seen |
| Welford.WelfordStats.Variance | packages/statistics/src/metrics/welford.ts:14-16 | the sum of squared deviations from the mean divided by one less than the number of values, and zero for fewer than two |
| Welford.UpdateExact | packages/statistics/src/metrics/welford.ts:22-28 | mean and sum of squared deviations after one more value |
| Welford.JoinExact | packages/statistics/src/metrics/welford.ts:36-43 | mean and sum of squared deviations of two samples joined |

## Left out

- Wall-clock work, network, disk, HTTP routes, Kafka, Redis and MySQL clients, telemetry, the dashboard and the load
  worker: only the store operations that the lease, outbox and inbox steps need are modelled.
- SHA-256 is a parameter. Injectivity and a colon-free output are assumed only where `Lossless` is required.
- Floating point: integers and reals instead. Rounding is written out where the source calls `Math.round`. The critical
  value of the KS test is known by its square, and the histogram's numeric boundaries are not modelled.
- JSON values: numbers are integers below 10^21 in magnitude, where JavaScript starts to print exponents, or not finite;
  event times are printed as plain integers too; other numbers, functions, symbols, dates and getters are not
  modelled. Ill-formed values (the two that render as `null` or an integer) are covered by their readings.
- Event types are required to have no colon where equal hashes are compared; with a colon the hashed text is ambiguous.
- EventQueues.EventQueue.Push: a custom id must not be that of a stored event, because a duplicate leaves the index map
  wrong. The kernel never passes one.
- EventQueues.EventQueue.RestoreState: the ids of the snapshot are distinct and its sequence numbers are below its
  counter, as in every snapshot that the queue makes.
- Kernels.SimulationKernel.ResumeCheckpoint: the same, and no event lies before the clock.
- Snapshots are values: the code hands out live event objects and copies them shallowly on restore, so a change to an
  event after the snapshot is outside the model. The next sequence number is kept as a number, not as its text.
- Handlers may schedule, schedule with a delay, and cancel; reading `size` or popping from inside a handler is not
  modelled. When a request of a handler throws, the handler's state is the one it returned.
- Kernels.SimulationKernel.RunUntil: takes a bound on its steps, since handlers may schedule events for ever;
  `Simulators.Simulator.RunUntil` needs none for the running simulation.
- `SimulationKernel.reset` and the `reset` of resources.
- Thread-pool `QUEUED` and connection `WAITING` are counted, as in the code; they delay nothing there either.
- The runner's histogram and Welford accumulator are represented by the log of finished requests; the workload generator
  by an arbitrary list of arrivals with non-negative times; negative latencies, for which the kernel throws, are excluded
  in `Runnable`. Little's Law check, throughput and percentiles of the result are not modelled.
- Error and reason texts: errors are named by what they are about.
- `findEdge`, `getIncomingEdges` and graph metadata.
- Rejection of all-synchronous cycles under a guard: the code does not provide it (`TopologyRules.GuardHides`).
- Enumeration of all cycles: the search does not provide it.
- TopologicalOrder.TopologicalSort: takes a graph whose maps agree, which is what adding edges with fresh ids gives;
  with a reused id the code need not end (`TopologicalOrder.ReusedIdNeverEnds`).
- Mutual exclusion and a monotone MySQL epoch under interleaved `acquire`: the code does not provide them. Redis losing
  its counter and a time to live that is not positive are not modelled.
- Handlers running once under concurrent consumers: the code does not provide it.
- Outbox.OutboxRelay.QueueEvent: rows are created at increasing times; rows of the same instant, whose order the
  database leaves open, are not modelled.
- Several relays at once, which can publish out of order. Ids never repeat and creation times increase.
- The evaluator of the capacity search gives the same answer for the same rate.
- The bound on the error of the capacity search needs minRps at most maxRps and a tolerance of at least 1.
- Histograms.LogLinearHistogram.GetQuantile: in terms of ranked values as long as no bucket holds 2^31 values; beyond
  that a 32-bit count has wrapped, and only the search over the counts is stated. Construction from raw counts is not
  modelled.
- Histograms.QuantileMonotone: for shares strictly between 0 and 1; at the ends the code answers with the recorded
  extremes instead of bucket midpoints.
- `PureCircuitBreaker`, `PureBulkhead`, fault injector, resilience score, bottleneck finder, knee point, comparator
  verdicts, label policy, random-number generation: they would add easy members only.
