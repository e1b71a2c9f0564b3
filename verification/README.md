# Verified model of the mesh coordination algorithms

The repository coordinates agents in memory: it schedules workflow steps, finds deadlocks, balances load,
breaks circuits, bounds queues, routes messages, settles votes and resolves topic subscriptions. This
project models those algorithms in Dafny, one module per component, and proves what each of them promises
over all inputs, all runs or all interleavings.

Objects that update fields in place are classes with those fields; loops are loops; concurrent protocols
are state machines whose steps are the critical sections. Each class method is tied to a function of its
old state, and the theorems are about those functions and the runs they form.

Reading order:

* `Sequences`, `Sums`, `Totals`, `Rotation`, `Quotients`, `Ordering`, `Digraph`: finite lists, sums over lists
  and maps, counting modulo a length, real quotients, the order of strings, closed walks and topological orders.
* `Workflow`, `WorkflowOutcome`, `WorkflowProgress`, `ParallelWorkflow`, `HierarchicalWorkflow`, `WorkflowAgreement`:
  the meaning of a dependency workflow, what comes out of it, what keeps an execution on course, the two executors,
  and their agreement.
* `CycleSearch`, `DeadlockDetector`: enumeration of all simple cycles, and the mutable wait-for graph.
* `SmoothWeights`, `LoadBalancer`: the fairness theorem of smooth weighted round robin, and the balancer.
* `CircuitBreaker`, `BreakerProtocol`, `RecoveryTester`: the breaker alone, under concurrent callers, and
  the tester that claims to mirror it.
* `TaskQueue`, `QueueProtocol`: the bounded queue alone and with its two-phase operations interleaved.
* `Completion`, `ConsensusWorkflow`, `CompetitiveWorkflow`: executors that stop early.
* `Routing`, `CompositeRouter`: rankings and their weighted combination.
* `Monitor`, `Throttle`: weighted pressure and the token bucket it slows down.
* `Voting`: majority, confidence-weighted and authority-first votes.
* `TopicManager`: the two-way subscription index and publishing under concurrent change.

`dafny verify dfyconfig.toml` checks everything.

## Conventions

* Agent, step and endpoint ids are strings; strings are compared lexicographically. Step ids within one
  workflow are unique, as `src/agent_mesh_router/workflows/base.py:60-62` documents.
* The step executor is a function from step to outcome: a raising, timed-out or cancelled call is a failed
  outcome. Waiting for concurrent tasks yields any non-empty batch of those pending, in any order.
* The clock reading is an argument of the operation that takes it and never runs backwards. Durations,
  weights, loads, costs, confidences, rates, tokens and watermarks are exact reals.
* A construction check that raises is a `Valid()` predicate of the configuration, a refused result, or a
  subset type. Fixed configurations are required to be valid; everything a caller may pass later is
  handled with its error path.

## Where the code and its documentation differ, or a promise has a condition

* `CircuitBreakerOpenError` is documented as always raised in state OPEN
  (`src/agent_mesh_router/resilience/circuit_breaker.py:79-80`). A full half-open quota raises it too: `HalfOpenRejects`
  is such a run, `RejectedMeans` says exactly when a call is rejected.
* The tester's threshold is documented as consecutive successes
  (`src/agent_mesh_router/resilience/recovery_tester.py:97-100`). A recommendation means that many in a row iff the tester
  stops at the first failure, or has no probe to spare, or asks for one success (`ConsecutiveIff`, failing input
  `BrokenStreak`).
* The tester's recommendation is to tell whether the breaker closes. It does so in every test, on every clock, iff the
  tester stops at the first failure or `max_requests` equals `success_threshold` (`AgreesIff`, failing input
  `LenientTesterDiffers`). A lenient test may also see a failure and yet leave the breaker closed, because the recovery
  timeout passes between two probes: `BreakerClosesIffClean` says on which clocks, `RecoversInTime` gives the run.
* Round robin routing is documented as following registration order (`src/agent_mesh_router/routing/strategy.py:205`);
  it sorts by agent id. The two agree iff the healthy agents are registered in the order of their ids
  (`RegistrationOrderIff`, failing input `RegistrationOrderFails`).
* The throttle validates neither threshold. All bounds are proved without them; `ReportedRateIsUsed` says
  exactly when the rate reported without a monitor is the rate used.
* A negative token request is not refused; `OverfullIff` says exactly when it lifts the bucket over its capacity.
* Votes are resolved independently of their order except that an authority voting for two options is
  decided by its last vote; `HierarchicalIgnoresOrderIff` is exact.
* `drain` writes down depth zero and no pressure, whatever the queue holds by then. A quiet moment of any run shows the
  right depth iff the last thing written down was not a drain that left tasks behind, and the right pressure iff no such
  drain has cleared a flag that nothing has raised since (`SettledIff`). `DrainCanMisreport` is a run with a wrong
  depth, `DrainCanLosePressure` one with the right depth and a lost flag.

## Model

| member | source | states |
|---|---|---|
| `WorkflowAgreement.ExecutionsAgree` | src/agent_mesh_router/workflows/parallel.py:119-187 | whatever the step list and the outcomes, two executions that meet the workflow meaning (which both executors do) give every step the same flag and output, in input order, the same status, the same multiset of executor calls and the same steps wave by wave |
| `WorkflowOutcome.SuccessIsUpstream` | src/agent_mesh_router/workflows/base.py:73-75 | a step succeeds exactly when its own call and the call of every step it rests on, through any chain of dependencies, returns |
| `WorkflowOutcome.RunOutcome` | src/agent_mesh_router/workflows/parallel.py:169-222 | in any run that meets the workflow meaning a step is called iff everything it rests on returns; a called step's result carries its output or its error, any other the reason alone; SUCCESS iff all steps succeed, FAILED iff there are steps and none does, PARTIAL in between |
| `WorkflowOutcome.SummaryIsRight` | src/agent_mesh_router/workflows/parallel.py:173-181 | the status of a list of results: SUCCESS iff none fails, FAILED iff there are some and none succeeds, PARTIAL iff both occur |
| `WorkflowAgreement.WaveCount` | src/agent_mesh_router/workflows/parallel.py:119-167 | the number of waves is the number of steps on the longest dependency path: no path is longer, and one is as long |
| `WorkflowAgreement.WavesRespectDependencies` | src/agent_mesh_router/workflows/hierarchical.py:117-149 | every step is settled in exactly one wave and each of its dependencies in an earlier one |
| `Workflow.VerdictMeaning` | src/agent_mesh_router/workflows/parallel.py:233-278 | a step list is accepted exactly when every reference names a step and the dependency graph has no closed walk; the error names the first dangling reference in list order if there is one, and a cycle only if there is none |
| `Workflow.SolutionUnique` | src/agent_mesh_router/workflows/base.py:73-75 | on a list with finite depths, at most one assignment of flags satisfies "a step succeeds iff its dependencies do and its own call returns" |
| `Workflow.DepthUnique` | src/agent_mesh_router/workflows/hierarchical.py:221-232 | the depth equation has at most one solution |
| `Workflow.DepthIsLongestPath` | src/agent_mesh_router/workflows/hierarchical.py:221-232 | the depth of a step is one less than the number of steps on the longest dependency path from it: a bound on all paths and a path that attains it |
| `WorkflowProgress.SomethingIsNext` | src/agent_mesh_router/workflows/parallel.py:138-143 | while a step of a validated list is open, some open step has all its dependencies settled, so the stalled branch is unreachable |
| `WorkflowProgress.AdvanceWave` | src/agent_mesh_router/workflows/parallel.py:119-167 | settling exactly the open steps whose dependencies are settled keeps everything the execution has established: each result is the one due, each call was due and made once, waves are depth levels |
| `WorkflowProgress.FinishRun` | src/agent_mesh_router/workflows/parallel.py:169-187 | once every step is settled, the collected list has one result per step in input order, equal to the unique solution, and the run meets the workflow meaning |
| `Workflow.CheckReferences` | src/agent_mesh_router/workflows/parallel.py:241-246 | reports the step and the name of the first reference that names no step, and nothing iff there is none |
| `Workflow.BuildDependents` | src/agent_mesh_router/workflows/parallel.py:261-265 | the reverse index holds each dependent once per reference, so repeated references keep their multiplicity |
| `Workflow.CollectAll` | src/agent_mesh_router/workflows/parallel.py:169-170 | collecting over the input list yields the result of step i at position i |
| `Workflow.CollectPositions` | src/agent_mesh_router/workflows/parallel.py:169-170 | when some steps have no result, the results of the others come in input order |
| `WorkflowProgress.EmptyWorkflow` | src/agent_mesh_router/workflows/parallel.py:102-107 | the empty list is valid and its immediate SUCCESS meets the same meaning |
| `ParallelWorkflow.ValidateDependencies` | src/agent_mesh_router/workflows/parallel.py:229-278 | Kahn's count check answers the shared verdict: first dangling reference, else whether there is a cycle |
| `ParallelWorkflow.KahnDecides` | src/agent_mesh_router/workflows/parallel.py:275-278 | when the queue is empty, the visited count equals the number of steps exactly when the dependency graph is acyclic |
| `ParallelWorkflow.Visit` | src/agent_mesh_router/workflows/parallel.py:267-273 | visiting the head of the queue pays off one open entry per reference and queues exactly the steps that become free |
| `ParallelWorkflow.CountInDegrees` | src/agent_mesh_router/workflows/parallel.py:249-254 | every in-degree is the number of references, repetitions included, before anything is visited |
| `ParallelWorkflow.InitialQueue` | src/agent_mesh_router/workflows/parallel.py:256-258 | the first queue lists exactly the steps without references, each once |
| `ParallelWorkflow.Settle` | src/agent_mesh_router/workflows/parallel.py:146-166 | a batch gets its results and leaves the open list, nothing else changes |
| `ParallelWorkflow.Classify` | src/agent_mesh_router/workflows/parallel.py:120-136 | splits the open steps whose dependencies all have results by whether one of them failed |
| `ParallelWorkflow.RunWave` | src/agent_mesh_router/workflows/parallel.py:119-167 | one pass settles exactly the next wave with the results due and shortens the open list |
| `ParallelWorkflow.Execute` | src/agent_mesh_router/workflows/parallel.py:81-187 | rejects with the verdict, else never stalls and returns a run that meets the workflow meaning, depth levels and call set included; results, outputs, errors and status are those the calls decide |
| `HierarchicalWorkflow.Validate` | src/agent_mesh_router/workflows/hierarchical.py:245-278 | the three-colour search answers the very same verdict as Kahn's count check |
| `HierarchicalWorkflow.ColorSearch.Visit` | src/agent_mesh_router/workflows/hierarchical.py:265-274 | a search from a white node either meets an edge back into its path, and then there is a cycle, or finishes the node and everything it reached |
| `HierarchicalWorkflow.ColorSearch.FindCycle` | src/agent_mesh_router/workflows/hierarchical.py:276-278 | searching from every white node reports a cycle exactly when there is one |
| `HierarchicalWorkflow.DepthMemo.GetDepth` | src/agent_mesh_router/workflows/hierarchical.py:221-232 | the memoised recursion terminates, returns the remembered depth, and only adds entries that satisfy the depth equation |
| `HierarchicalWorkflow.ComputeDepths` | src/agent_mesh_router/workflows/hierarchical.py:234-235 | after the loop the memo solves the depth equation for every step |
| `HierarchicalWorkflow.ComputeLevels` | src/agent_mesh_router/workflows/hierarchical.py:209-242 | level k holds exactly the steps of depth k, each once; there are max-depth + 1 levels |
| `HierarchicalWorkflow.SplitLevel` | src/agent_mesh_router/workflows/hierarchical.py:118-131 | splits a level by whether some dependency failed |
| `HierarchicalWorkflow.MaxDepth` | src/agent_mesh_router/workflows/hierarchical.py:237 | the largest depth, 0 when there is none |
| `HierarchicalWorkflow.Store` | src/agent_mesh_router/workflows/hierarchical.py:133-149 | a batch gets its results, nothing else changes |
| `HierarchicalWorkflow.RunLevel` | src/agent_mesh_router/workflows/hierarchical.py:117-149 | settles one level with the results due |
| `HierarchicalWorkflow.RunLevels` | src/agent_mesh_router/workflows/hierarchical.py:117-167 | the level loop produces a run that meets the workflow meaning |
| `HierarchicalWorkflow.Execute` | src/agent_mesh_router/workflows/hierarchical.py:83-167 | rejects with the verdict, else returns a run that meets the workflow meaning; results, outputs, errors and status are those the calls decide |
| `CycleSearch.FindAllCycles` | src/agent_mesh_router/deadlock/detector.py:317-351 | the generator yields exactly the simple cycles with at most cap nodes, written from their least node, each exactly once |
| `CycleSearch.ExploreMembers` | src/agent_mesh_router/deadlock/detector.py:334-351 | exploring a stacked path yields a cycle if and only if the cycle continues that path within the cap |
| `CycleSearch.ExploreDistinct` | src/agent_mesh_router/deadlock/detector.py:345-351 | no cycle is yielded twice from one start |
| `CycleSearch.CompletesIsReported` | src/agent_mesh_router/deadlock/detector.py:329-333 | the cycles that continue the bare start are the reportable cycles beginning there |
| `CycleSearch.PushKeepsPath` | src/agent_mesh_router/deadlock/detector.py:340-351 | every path pushed is simple, follows edges and stays above its start node |
| `CycleSearch.PopAndPush` | src/agent_mesh_router/deadlock/detector.py:334-351 | each pop strictly lowers the summed work measure although it may push many longer paths, and splits the remaining output correctly |
| `CycleSearch.PopOne` | src/agent_mesh_router/deadlock/detector.py:335-351 | the stack step with path, end and visited set kept together: output and remaining work as the paths alone predict |
| `CycleSearch.CyclesFrom` | src/agent_mesh_router/deadlock/detector.py:329-351 | the loop from one start terminates with exactly the output of exploring it |
| `CycleSearch.Deduplicate` | src/agent_mesh_router/deadlock/detector.py:373-384 | keeps one canonical form per rotation class and drops nothing from a duplicate-free list that is already canonical |
| `CycleSearch.CanonicalFixed` | src/agent_mesh_router/deadlock/detector.py:359-370 | a cycle written from its least node is its own canonical form |
| `CycleSearch.CanonicalOfSimple` | src/agent_mesh_router/deadlock/detector.py:359-370 | the canonical form of a simple cycle is a rotation of it, a simple cycle of the same graph, starting at the least node |
| `CycleSearch.OneRotationReported` | src/agent_mesh_router/deadlock/detector.py:345-348 | of all rotations of a simple cycle within the cap, exactly the canonical one is reported |
| `CycleSearch.SimpleCycleInside` | src/agent_mesh_router/deadlock/detector.py:262-265 | in a graph without self-loops every closed walk contains a simple cycle |
| `CycleSearch.DeadlockIffClosedWalk` | src/agent_mesh_router/deadlock/detector.py:89-92 | with a cap no smaller than the graph, something is reported iff the wait-for relation has a closed walk |
| `CycleSearch.DeadlockUnderCap` | src/agent_mesh_router/deadlock/detector.py:136-139 | with any cap, something is reported iff some simple cycle has at most that many nodes |
| `DeadlockDetector.DeadlockDetector.Create` | src/agent_mesh_router/deadlock/detector.py:153-158 | a cap below two is refused; otherwise the detector starts empty |
| `DeadlockDetector.DeadlockDetector.AddWait` | src/agent_mesh_router/deadlock/detector.py:168-201 | a self-wait is refused and changes nothing; otherwise both agents become nodes, the edge is set and logged |
| `DeadlockDetector.DeadlockDetector.RemoveWait` | src/agent_mesh_router/deadlock/detector.py:203-227 | answers whether the edge was there; removes it and every log entry for it, and leaves the rest of the log in order and number |
| `DeadlockDetector.DeadlockDetector.ClearAgent` | src/agent_mesh_router/deadlock/detector.py:229-247 | the agent and all edges at it are gone from map and log; the rest of the log stays in order and number |
| `DeadlockDetector.DeadlockDetector.Clear` | src/agent_mesh_router/deadlock/detector.py:249-253 | map and log become empty |
| `DeadlockDetector.DeadlockDetector.Snapshot` | src/agent_mesh_router/deadlock/detector.py:272-277 | the ascending adjacency lists describe exactly the current graph |
| `DeadlockDetector.DeadlockDetector.CountEdges` | src/agent_mesh_router/deadlock/detector.py:278-279 | the sum of list lengths is the number of edges |
| `DeadlockDetector.DeadlockDetector.Detect` | src/agent_mesh_router/deadlock/detector.py:259-291 | returns exactly the simple cycles within the cap, each once and from its least agent, and has_deadlock as the two theorems above say |
| `DeadlockDetector.EdgeHistory` | src/agent_mesh_router/deadlock/detector.py:168-253 | after any sequence of operations an edge is present iff it was added, is no self-wait, and nothing since cancelled it |
| `DeadlockDetector.NodeHistory` | src/agent_mesh_router/deadlock/detector.py:168-253 | after any sequence of operations an agent is a node iff an accepted wait named it and it was not cleared since |
| `DeadlockDetector.CyclesAfterClear` | src/agent_mesh_router/deadlock/detector.py:229-247 | the cycles found after clearing an agent are exactly the earlier ones that avoid it |
| `DeadlockDetector.CyclesAfterRemove` | src/agent_mesh_router/deadlock/detector.py:203-227 | the cycles found after removing an edge are exactly the earlier ones that do not use it |
| `SmoothWeights.WindowExact` | src/agent_mesh_router/resilience/load_balancer.py:325-330 | with a fixed healthy set whose weights are whole multiples of one unit, every window of W consecutive selections picks each endpoint exactly its share |
| `SmoothWeights.PrefixBound` | src/agent_mesh_router/resilience/load_balancer.py:335-345 | for any positive weights, in every prefix of t picks an endpoint is chosen fewer than t*weight/W + 1 times |
| `SmoothWeights.PrefixFloor` | src/agent_mesh_router/resilience/load_balancer.py:335-345 | and more often than t*weight/W - (n - 1) times among n > 1 endpoints |
| `SmoothWeights.Balanced` | src/agent_mesh_router/resilience/load_balancer.py:335-345 | current weights always sum to zero |
| `SmoothWeights.FullRound` | src/agent_mesh_router/resilience/load_balancer.py:335-345 | after one full round all current weights are back at zero |
| `SmoothWeights.Periodic` | src/agent_mesh_router/resilience/load_balancer.py:335-345 | the current weights repeat with period W |
| `SmoothWeights.Ledger` | src/agent_mesh_router/resilience/load_balancer.py:335-345 | over any stretch a current weight moves by the weights gained minus the totals paid |
| `SmoothWeights.FairSelections` | src/agent_mesh_router/resilience/load_balancer.py:322-345 | in any record of selections made from zero, every full window is exactly proportional and ends where it began |
| `LoadBalancer.LoadBalancer.GainAll` | src/agent_mesh_router/resilience/load_balancer.py:332-341 | the scan raises every healthy weight once and finds the first maximum; other endpoints keep theirs |
| `LoadBalancer.TotalWeight` | src/agent_mesh_router/resilience/load_balancer.py:331 | the sum the winner pays |
| `LoadBalancer.LoadBalancer.SelectWeighted` | src/agent_mesh_router/resilience/load_balancer.py:322-345 | one selection takes the current weights to the next state of the fairness theorem and returns its pick |
| `LoadBalancer.HealthyInOrder` | src/agent_mesh_router/resilience/load_balancer.py:309-315 | the list the strategies choose from holds exactly the registered endpoints that are healthy now, each once, in registration order |
| `LoadBalancer.LoadBalancer.Select` | src/agent_mesh_router/resilience/load_balancer.py:249-287 | no selection iff no registered endpoint is healthy, and then no change; otherwise a healthy endpoint: round robin the one the counter is at, weighted the pick of the smooth weights, least connections the earliest of the fewest |
| `LoadBalancer.LoadBalancer.PayTotal` | src/agent_mesh_router/resilience/load_balancer.py:343-344 | the chosen endpoint alone pays the total weight |
| `LoadBalancer.SelectRepeatedly` | src/agent_mesh_router/resilience/load_balancer.py:249-345 | any number of weighted selections in a row, from zero, are a record of the fairness theorem |
| `LoadBalancer.LoadBalancer.FewestConnections` | src/agent_mesh_router/resilience/load_balancer.py:347-350 | the first endpoint that none undercuts |
| `LoadBalancer.LoadBalancer.AddEndpoint` | src/agent_mesh_router/resilience/load_balancer.py:127-143 | replaces a known name in place, appends a new one at the end; zeroes the current weight, keeps a known connection count |
| `LoadBalancer.LoadBalancer.RemoveEndpoint` | src/agent_mesh_router/resilience/load_balancer.py:146-160 | removes the endpoint from all four tables and keeps the order of the rest |
| `LoadBalancer.LoadBalancer.SetHealth` | src/agent_mesh_router/resilience/load_balancer.py:163-199 | an unknown name is an error and changes nothing; otherwise only that flag changes |
| `LoadBalancer.LoadBalancer.RecordOpen` | src/agent_mesh_router/resilience/load_balancer.py:205-223 | counts one more connection, or reports the unknown name |
| `LoadBalancer.LoadBalancer.RecordClose` | src/agent_mesh_router/resilience/load_balancer.py:225-243 | counts one less, never below zero, or reports the unknown name |
| `Rotation.RoundRobinWindow` | src/agent_mesh_router/resilience/load_balancer.py:317-320 | among n consecutive counter values every index comes up exactly once |
| `BreakerProtocol.StepKeepsInv` | src/agent_mesh_router/resilience/circuit_breaker.py:230-295 | every critical section, in any state and at any later time, keeps the invariant of counters, episodes and calls in flight |
| `BreakerProtocol.RunKeepsInv` | src/agent_mesh_router/resilience/circuit_breaker.py:209-336 | the invariant holds throughout every interleaving of admissions, completions, manual records, looks and resets |
| `BreakerProtocol.ProbesAccountedFor` | src/agent_mesh_router/resilience/circuit_breaker.py:237-241 | in half-open the probe count is at most the successes plus the probes of this episode still in flight |
| `BreakerProtocol.NeverWedged` | src/agent_mesh_router/resilience/circuit_breaker.py:237-243 | in half-open with no probe of this episode in flight, the next call is admitted |
| `BreakerProtocol.RejectedMeans` | src/agent_mesh_router/resilience/circuit_breaker.py:230-241 | a call is rejected exactly when the circuit is open before its timeout or the episode's quota is used up |
| `BreakerProtocol.HalfOpenRejects` | src/agent_mesh_router/resilience/circuit_breaker.py:237-241 | a run of three steps in which a call is rejected although the circuit is half-open, not open |
| `BreakerProtocol.EpisodeQuota` | src/agent_mesh_router/resilience/circuit_breaker.py:102-104 | no half-open episode of any run admits more than half_open_max_calls calls |
| `BreakerProtocol.FailureCountMeaning` | src/agent_mesh_router/resilience/circuit_breaker.py:193-197 | while closed the failure count is the trailing run of failures of the current window and below the threshold |
| `BreakerProtocol.OpensOnThreshold` | src/agent_mesh_router/resilience/circuit_breaker.py:271-282 | a closed circuit leaves that state exactly on the recorded failure that completes the threshold run, and then it opens |
| `BreakerProtocol.OutcomesConserved` | src/agent_mesh_router/resilience/circuit_breaker.py:243-252 | successes plus failures plus calls in flight equal admitted calls plus manual records |
| `BreakerProtocol.CountersMean` | src/agent_mesh_router/resilience/circuit_breaker.py:230-286 | in every run total successes and failures count the outcomes recorded as such, calls and rejections together the calls begun, and calls less those in flight the calls ended |
| `BreakerProtocol.ResetCloses` | src/agent_mesh_router/resilience/circuit_breaker.py:288-295 | a reset closes the circuit from any state with all episode counters at zero and no opening time, and keeps lifetime counters and calls in flight |
| `BreakerProtocol.ResetAdmits` | src/agent_mesh_router/resilience/circuit_breaker.py:288-295 | after a reset the circuit is closed and every call admitted until failure_threshold failures are recorded in a row |
| `BreakerProtocol.StaysOpen` | src/agent_mesh_router/resilience/circuit_breaker.py:301-312 | without a reset an open circuit stays open, with its opening time, until the timeout |
| `BreakerProtocol.NoAdmissionBeforeTimeout` | src/agent_mesh_router/resilience/circuit_breaker.py:233-235 | a call admitted within the timeout of an opening is preceded by a reset |
| `CircuitBreaker.CircuitBreaker.BeginCall` | src/agent_mesh_router/resilience/circuit_breaker.py:230-243 | the admission section computes the admission step of the protocol |
| `CircuitBreaker.CircuitBreaker.OnSuccess` | src/agent_mesh_router/resilience/circuit_breaker.py:254-269 | computes the protocol's success record |
| `CircuitBreaker.CircuitBreaker.OnFailure` | src/agent_mesh_router/resilience/circuit_breaker.py:271-286 | computes the protocol's failure record |
| `CircuitBreaker.CircuitBreaker.ForceReset` | src/agent_mesh_router/resilience/circuit_breaker.py:288-295 | from any state: closed, no opening time, all episode counters zero, lifetime counters unchanged |
| `CircuitBreaker.CircuitBreaker.ReadState` | src/agent_mesh_router/resilience/circuit_breaker.py:181-186 | reading the state may itself move an open circuit to half-open |
| `CircuitBreaker.CircuitBreaker.Transition` | src/agent_mesh_router/resilience/circuit_breaker.py:314-336 | the counters each target state clears and the time opening records |
| `CircuitBreaker.CircuitBreaker.MaybeTransitionToHalfOpen` | src/agent_mesh_router/resilience/circuit_breaker.py:301-312 | an open circuit turns half-open exactly when its timeout has elapsed |
| `CircuitBreaker.CircuitBreaker.ExecuteAlone` | src/agent_mesh_router/resilience/circuit_breaker.py:209-252 | an uncontended call is admission followed by the matching record |
| `RecoveryTester.TestRecovery` | src/agent_mesh_router/resilience/recovery_tester.py:160-198 | makes the shortest run of probes that stops the test, counts them exactly, recommends closing iff the threshold is met |
| `RecoveryTester.TesterMatchesBreaker` | src/agent_mesh_router/resilience/recovery_tester.py:101-104 | stopping at the first failure, on any clock readings, the tester recommends closing iff a breaker entering half-open with the same thresholds and fed the same probes ends closed; the quota rejects none of them |
| `RecoveryTester.AgreesIff` | src/agent_mesh_router/resilience/recovery_tester.py:176-190 | recommendation and breaker agree in every test on every running clock iff the tester stops at the first failure or has no probe to spare |
| `RecoveryTester.BreakerClosesIffClean` | src/agent_mesh_router/resilience/recovery_tester.py:97-104 | on a given clock the breaker closes exactly in the tests without a failure iff the tester stops at the first failure or no probe that could start enough successes is admitted a recovery timeout after the first probe ended |
| `RecoveryTester.RecoversInTime` | src/agent_mesh_router/resilience/recovery_tester.py:185-190 | for every clock with such a late probe: a test that sees a failure and leaves the breaker closed |
| `RecoveryTester.ConsecutiveIff` | src/agent_mesh_router/resilience/recovery_tester.py:97-100 | a recommendation means success_threshold successes in a row in every test iff the tester stops at the first failure, has no probe to spare, or asks for one success |
| `RecoveryTester.BrokenStreak` | src/agent_mesh_router/resilience/recovery_tester.py:97-100 | for every other tester: a recommended test without that many successes in a row |
| `RecoveryTester.LenientTesterDiffers` | src/agent_mesh_router/resilience/recovery_tester.py:185-190 | for every lenient tester with a probe to spare: a test recommended although the breaker does not close |
| `RecoveryTester.CleanTestCloses` | src/agent_mesh_router/resilience/recovery_tester.py:174-176 | on any clock readings a test without failures stops on the probe on which the breaker closes |
| `RecoveryTester.FailedTestOpens` | src/agent_mesh_router/resilience/recovery_tester.py:185-186 | if no probe is admitted a recovery timeout after the first failure, the breaker ends open and rejects every probe after that failure |
| `TaskQueue.FillIsFraction` | src/agent_mesh_router/backpressure/task_queue.py:217-219 | the fill is the fraction of the capacity in use, 1 exactly when full |
| `TaskQueue.BackpressureQueue.BookkeepPut` | src/agent_mesh_router/backpressure/task_queue.py:215-226 | the bookkeeping section after a put, as one step of the protocol |
| `TaskQueue.BackpressureQueue.BookkeepGet` | src/agent_mesh_router/backpressure/task_queue.py:273-284 | the bookkeeping section after a get, as one step of the protocol |
| `TaskQueue.BackpressureQueue.EnqueueNowait` | src/agent_mesh_router/backpressure/task_queue.py:203-236 | alone, whatever state overlapping drains left: refuses and counts when full, else appends; the flag rises at the high mark and never falls; a settled queue stays settled |
| `TaskQueue.BackpressureQueue.DequeueNowait` | src/agent_mesh_router/backpressure/task_queue.py:266-296 | alone, whatever state overlapping drains left: takes the oldest task, or none; the flag falls below the low mark and never rises; a settled queue stays settled |
| `TaskQueue.BackpressureQueue.DrainAll` | src/agent_mesh_router/backpressure/task_queue.py:358-377 | alone: returns everything in order and leaves the queue empty with depth zero and without pressure; a settled queue stays settled |
| `QueueProtocol.StepConserves` | src/agent_mesh_router/backpressure/task_queue.py:206-226 | every step of every interleaving keeps order, capacity, and counters that lag exactly by what is pending |
| `QueueProtocol.EventsCounted` | src/agent_mesh_router/backpressure/task_queue.py:203-236 | in every run the tasks on record are those put, in order, and dropped plus refusals not yet counted is the number of puts refused |
| `QueueProtocol.StepTracks` | src/agent_mesh_router/backpressure/task_queue.py:215-226 | every step, drains included: a wrong depth or flag is covered by bookkeeping still to come, or is the stale depth or lost flag of a drain that left tasks behind |
| `QueueProtocol.TotalsAtQuiescence` | src/agent_mesh_router/backpressure/task_queue.py:216-274 | in every run, drains included, whenever nothing is pending enqueued minus dequeued is the size and tasks left in the order they came |
| `QueueProtocol.SettledIff` | src/agent_mesh_router/backpressure/task_queue.py:206-377 | in every run, a quiet moment shows the real depth iff no stale depth of a drain stands, and real pressure iff no flag lost to a drain is missing; together they decide whether the queue is settled |
| `QueueProtocol.SettledAtQuiescence` | src/agent_mesh_router/backpressure/task_queue.py:206-377 | in every run in which each drain finds the queue empty when it writes down, every quiet moment shows the real depth, pressure at or above the high mark and none below the low mark |
| `QueueProtocol.DrainCanMisreport` | src/agent_mesh_router/backpressure/task_queue.py:367-376 | for every configuration: a drain overlapping one enqueue leaves depth 0 reported for a queue holding one task, with nothing pending |
| `QueueProtocol.DrainCanLosePressure` | src/agent_mesh_router/backpressure/task_queue.py:367-376 | a drain overlapping two enqueues, then one dequeue: the depth is right, the queue is at its high mark and the flag is down, with nothing pending |
| `QueueProtocol.DrainSettlesIffEmpty` | src/agent_mesh_router/backpressure/task_queue.py:372-376 | when only one drain's bookkeeping is outstanding, it settles the queue iff the queue is empty at that moment |
| `ConsensusWorkflow.QuorumRange` | src/agent_mesh_router/workflows/consensus.py:116 | the quorum is the least whole number not below the fraction of the steps, and lies between 1 and n |
| `ConsensusWorkflow.Absorb` | src/agent_mesh_router/workflows/consensus.py:139-152 | absorbing a batch in any order counts exactly the steps of it that succeed and records the result of each step of it, and of no other |
| `ConsensusWorkflow.Remaining` | src/agent_mesh_router/workflows/consensus.py:154-157 | the final success count lies between what is counted and that plus everything pending |
| `ConsensusWorkflow.AwaitQuorum` | src/agent_mesh_router/workflows/consensus.py:135-192 | for every batching and order, the loop reports the quorum met iff the steps that would succeed reach it, early exits included; what is on record is one result per step when met, and the finished steps' results when missed |
| `ConsensusWorkflow.StopRest` | src/agent_mesh_router/workflows/consensus.py:160-176 | after cancelling there is one result per step in input order, each what its call came to or a cancellation, with at least a quorum of genuine successes |
| `ConsensusWorkflow.MergeOutputs` | src/agent_mesh_router/workflows/consensus.py:238-243 | every key any output has gets the value of the last output having it, and the quorum size is the number of results |
| `ConsensusWorkflow.MergedValue` | src/agent_mesh_router/workflows/consensus.py:238-243 | a merged value is what some call that returned gave that key |
| `ConsensusWorkflow.Execute` | src/agent_mesh_router/workflows/consensus.py:92-219 | SUCCESS iff the calls that would return reach the quorum, with one result per step and the merge of what a quorum of calls returned, in the order they came in; otherwise the results of the finished steps, too few to meet it, and PARTIAL iff one of them is a success |
| `CompetitiveWorkflow.FirstSuccess` | src/agent_mesh_router/workflows/competitive.py:142-182 | a batch in any order has a winner iff some step of it succeeds; the results of the steps gone through are on record |
| `CompetitiveWorkflow.StopLosers` | src/agent_mesh_router/workflows/competitive.py:161-181 | after cancelling, every result on record is what its step returns or a cancellation, and the winner's own is there |
| `CompetitiveWorkflow.Race` | src/agent_mesh_router/workflows/competitive.py:138-183 | the loop has a winner iff some step would succeed, whatever the schedule; without one every step's result is on record |
| `CompetitiveWorkflow.Execute` | src/agent_mesh_router/workflows/competitive.py:91-203 | on a non-empty list SUCCESS iff some call would return, whatever the schedule, with the winner's own output alone or the results on record in input order; otherwise the error of every call in input order |
| `Completion.Cancel` | src/agent_mesh_router/workflows/consensus.py:162-174 | cancelling records for every pending task what it returned after all or a cancellation, and disturbs no other result |
| `Completion.CollectStopped` | src/agent_mesh_router/workflows/consensus.py:196-197 | with every task finished or cancelled, collecting gives one result per step in input order, genuine for the finished ones |
| `Routing.BuiltInRanks` | src/agent_mesh_router/routing/strategy.py:126-265 | a built-in strategy ranks, each once, exactly the healthy agents that pass its filter |
| `Routing.RankOrder` | src/agent_mesh_router/routing/strategy.py:146-265 | filter-and-sort rankings go by the sort key, equal keys in table order |
| `Routing.CapableAgents` | src/agent_mesh_router/routing/strategy.py:126-149 | capability matching ranks exactly the healthy agents that have all, or some, of the capabilities asked for; all healthy ones when none is |
| `Routing.AffordableAgents` | src/agent_mesh_router/routing/strategy.py:173-197 | cost-aware routing ranks exactly the healthy agents whose cost for the estimated tokens is within the budget less the margin |
| `Routing.UnloadedAgents` | src/agent_mesh_router/routing/strategy.py:253-265 | least-loaded routing ranks exactly the healthy agents up to the ceiling |
| `Routing.BestFirst` | src/agent_mesh_router/routing/strategy.py:146-265 | cheaper agents come before dearer ones, less loaded before more loaded, ties and plain capability matching in table order |
| `Routing.SortIsStable` | src/agent_mesh_router/routing/strategy.py:147 | sorting keeps the order of agents whose keys do not force otherwise |
| `Routing.SortByIdEffect` | src/agent_mesh_router/routing/strategy.py:224-225 | sorting by id permutes and puts ids in order |
| `Routing.EachComesFirstOnce` | src/agent_mesh_router/routing/strategy.py:227-232 | over as many rankings of one table as it has healthy agents, each of them comes first exactly once |
| `Routing.RoundRobinOrder` | src/agent_mesh_router/routing/strategy.py:224-232 | the ranking runs through the healthy agents in id order, round and round, from the one the counter is at |
| `Routing.RegistrationOrderIff` | src/agent_mesh_router/routing/strategy.py:203-232 | at any counter value the ranking follows registration order iff the healthy agents are registered in the order of their ids |
| `Routing.RegistrationOrderFails` | src/agent_mesh_router/routing/strategy.py:203-232 | any two healthy agents registered against the order of their ids are never ranked in registration order |
| `Routing.RoundRobinRouter.RankCandidates` | src/agent_mesh_router/routing/strategy.py:215-232 | rotates the sorted agents by the counter, which advances unless there is no agent |
| `CompositeRouter.CheckStrategies` | src/agent_mesh_router/routing/strategy.py:293-301 | refuses an empty list, else names the first negative weight |
| `CompositeRouter.RankCandidates` | src/agent_mesh_router/routing/strategy.py:303-336 | the accumulation loops and the sort compute the combined ranking: falling score, ties in table order, zero scores left out |
| `CompositeRouter.AddRanking` | src/agent_mesh_router/routing/strategy.py:321-328 | one ranking adds to each healthy agent the points of its positions and ignores names outside the table |
| `CompositeRouter.EvenSteps` | src/agent_mesh_router/routing/strategy.py:316-318 | first place earns the whole weight, each lower place one N-th of it less, the last place one N-th |
| `CompositeRouter.PlacePoints` | src/agent_mesh_router/routing/strategy.py:316-328 | an agent earns from a strategy the position score of its place, scaled by the strategy's own weight |
| `CompositeRouter.PositionShare` | src/agent_mesh_router/routing/strategy.py:316-318 | place p of n is worth (n - p) / n of the weight |
| `CompositeRouter.ScoreAdds` | src/agent_mesh_router/routing/strategy.py:319-328 | scores add up over the strategies |
| `CompositeRouter.SplitWeight` | src/agent_mesh_router/routing/strategy.py:303-336 | a strategy listed twice counts as one with the two weights added |
| `CompositeRouter.CombinedOrder` | src/agent_mesh_router/routing/strategy.py:330-336 | the output goes by falling score, equal scores in table order |
| `CompositeRouter.ExactlyTheRanked` | src/agent_mesh_router/routing/strategy.py:335-336 | the output is exactly the healthy agents some strategy of positive weight ranks, each once |
| `CompositeRouter.RespectsUnanimity` | src/agent_mesh_router/routing/strategy.py:271-274 | if every strategy that ranks b ranks a earlier and a strategy of positive weight ranks a, then a is in the output and b, if present, comes later |
| `CompositeRouter.OneStrategyUnchanged` | src/agent_mesh_router/routing/strategy.py:316-333 | a composite with a single strategy of positive weight returns its ranking unchanged |
| `Monitor.QueueMetrics.Utilization` | src/agent_mesh_router/backpressure/monitor.py:72-76 | a fraction between 0 and 1; 1 exactly when a bounded queue is full, 0 exactly when empty or unbounded |
| `Monitor.UtilizationIsFraction` | src/agent_mesh_router/backpressure/monitor.py:72-76 | up to a full queue the utilization is the depth divided by the maximal depth |
| `Monitor.LoadIsShare` | src/agent_mesh_router/backpressure/monitor.py:227 | up to a full queue it contributes its depth over its maximal depth, times its weight |
| `Monitor.OneMoreQueue` | src/agent_mesh_router/backpressure/monitor.py:223-227 | another queue adds its weight to the total weight and its load to the total load |
| `Monitor.PressureTimesWeight` | src/agent_mesh_router/backpressure/monitor.py:223-228 | the score times the total weight is the total load |
| `Monitor.PressureRange` | src/agent_mesh_router/backpressure/monitor.py:207-228 | the score lies in [0, 1] and is 0 exactly when every queue that weighs anything is empty or unbounded |
| `Monitor.FullPressure` | src/agent_mesh_router/backpressure/monitor.py:212-215 | the score is 1 exactly when something weighs and everything that weighs is full |
| `Monitor.PressureRises` | src/agent_mesh_router/backpressure/monitor.py:207-228 | fuller queues never lower the score |
| `Monitor.SumUp` | src/agent_mesh_router/backpressure/monitor.py:223-227 | the loop computes both sums, whatever the order of visiting |
| `Monitor.BackpressureMonitor.PressureScore` | src/agent_mesh_router/backpressure/monitor.py:207-228 | returns the weighted mean, 0 without queues or without weight |
| `Monitor.BackpressureMonitor.IsCritical` | src/agent_mesh_router/backpressure/monitor.py:234-236 | critical at or above the critical threshold, and then also at or above the warning one |
| `Monitor.BackpressureMonitor.IsWarn` | src/agent_mesh_router/backpressure/monitor.py:230-232 | warns exactly at or above the warning threshold |
| `Monitor.BackpressureMonitor.DeregisterQueue` | src/agent_mesh_router/backpressure/monitor.py:152-158 | the entry is gone, an unknown name changes nothing |
| `Monitor.BackpressureMonitor.RegisterQueue` | src/agent_mesh_router/backpressure/monitor.py:114-149 | negative arguments are refused; otherwise the entry is fresh with depth zero |
| `Monitor.BackpressureMonitor.UpdateDepth` | src/agent_mesh_router/backpressure/monitor.py:164-187 | a negative depth is refused before an unknown name is; otherwise only that depth changes |
| `Monitor.BackpressureMonitor.UpdateDepths` | src/agent_mesh_router/backpressure/monitor.py:189-201 | unknown names are skipped, negative depths read as zero, every other queue untouched |
| `Throttle.RateRange` | src/agent_mesh_router/backpressure/throttle.py:284-306 | for every pressure and any thresholds the rate lies between base_rate * min_rate_fraction and base_rate |
| `Throttle.RateFalls` | src/agent_mesh_router/backpressure/throttle.py:284-306 | more pressure never means a higher rate, any thresholds |
| `Throttle.RateInterpolates` | src/agent_mesh_router/backpressure/throttle.py:10-14 | base rate up to the warning threshold, the floor from the critical one on, linear in between |
| `Throttle.RefillRange` | src/agent_mesh_router/backpressure/throttle.py:269-282 | a refill leaves the bucket in [0, capacity] and adds at most what the base rate earns |
| `Throttle.GrantedBound` | src/agent_mesh_router/backpressure/throttle.py:141-172 | over any run, the tokens granted between two calls are at most capacity + base_rate * elapsed, for every pressure history |
| `Throttle.ThrottledBound` | src/agent_mesh_router/backpressure/throttle.py:269-306 | while pressure stays at or above a level, grants between two calls are at most capacity plus what the rate at that level earns |
| `Throttle.CriticalBound` | src/agent_mesh_router/backpressure/throttle.py:284-290 | while pressure is critical, at most capacity + base_rate * min_rate_fraction * elapsed |
| `Throttle.TokensInRange` | src/agent_mesh_router/backpressure/throttle.py:226-238 | tokens stay at or above zero, and at or below capacity when no request is negative |
| `Throttle.OverfullIff` | src/agent_mesh_router/backpressure/throttle.py:158-172 | a call leaves more than capacity exactly when its request is more negative than the room left |
| `Throttle.NeverStarves` | src/agent_mesh_router/backpressure/throttle.py:281-282 | a request within capacity is granted once the slowest rate has had time to earn it, whatever the pressure |
| `Throttle.TooLargeIsRefused` | src/agent_mesh_router/backpressure/throttle.py:160-172 | a request beyond the capacity is never granted |
| `Throttle.ReportedRateIsUsed` | src/agent_mesh_router/backpressure/throttle.py:210-282 | without a monitor every refill adds at the reported base rate iff min_rate_fraction is 1 or the thresholds are critical > 0 and warn >= 0 |
| `Throttle.SlowRefill` | src/agent_mesh_router/backpressure/throttle.py:278-282 | otherwise there is a refill that adds less |
| `Throttle.AdaptiveThrottle.ReportRate` | src/agent_mesh_router/backpressure/throttle.py:210-224 | the base rate without a monitor, the rate at its pressure with one |
| `Throttle.AdaptiveThrottle.TryAcquire` | src/agent_mesh_router/backpressure/throttle.py:158-172 | grants exactly the requests within capacity that the tokens held and those earned at the current rate cover, and takes them; one step of the run model, counters kept |
| `Throttle.AdaptiveThrottle.RefillBucket` | src/agent_mesh_router/backpressure/throttle.py:269-282 | below capacity adds elapsed time times the rate at the monitor's pressure; a bucket it leaves full had no more room than that |
| `Throttle.AdaptiveThrottle.AvailableTokens` | src/agent_mesh_router/backpressure/throttle.py:226-238 | the reported tokens lie in [0, capacity] |
| `Voting.WinnerWins` | src/agent_mesh_router/consensus/protocol.py:251-253 | the winner is the lexicographically least option of maximal score |
| `Ordering.BelowIsLexicographic` | src/agent_mesh_router/consensus/protocol.py:202-204 | the order that decides ties is lexicographic: at the first difference the smaller character, or the end of the string, comes first |
| `Voting.MajorityDecides` | src/agent_mesh_router/consensus/protocol.py:222-225 | with require_majority, consensus is reached iff some option has more than half the votes, and that option wins |
| `Voting.PluralityDecides` | src/agent_mesh_router/consensus/protocol.py:262-265 | when a plurality is enough, any vote at all reaches consensus; no votes give the empty result |
| `Voting.CountsArePublished` | src/agent_mesh_router/consensus/protocol.py:248-262 | every protocol publishes, for each option cast and no other, how often it was cast |
| `Voting.WeightMeaning` | src/agent_mesh_router/consensus/protocol.py:322-328 | the weight of an option is the sum of the confidences of its votes, the total that of all |
| `Voting.MajorityMeaning` | src/agent_mesh_router/consensus/protocol.py:250-268 | the winner has the most votes and the ratio is its share |
| `Voting.MajorityIgnoresOrder` | src/agent_mesh_router/consensus/protocol.py:244-268 | the whole result is the same for every order of the votes |
| `Voting.ResolveWeighted` | src/agent_mesh_router/consensus/protocol.py:316-350 | the accumulation loop computes the weighted result: weights per option, or counts when all confidences are zero |
| `Voting.Accumulate` | src/agent_mesh_router/consensus/protocol.py:322-326 | after the loop the maps hold weight and count of every option named, keys in order of first mention |
| `Voting.SumValues` | src/agent_mesh_router/consensus/protocol.py:328 | the loop sums all values of the map |
| `Voting.SumByOption` | src/agent_mesh_router/consensus/protocol.py:328 | summing the weight map gives the sum over all votes |
| `Voting.WeightedMeaning` | src/agent_mesh_router/consensus/protocol.py:334-339 | the winner carries the most confidence, the ratio is its share, consensus iff the share reaches the minimum |
| `Voting.WeightedIgnoresOrder` | src/agent_mesh_router/consensus/protocol.py:316-350 | the whole result is the same for every order of the votes |
| `Voting.EqualConfidenceIsPlurality` | src/agent_mesh_router/consensus/protocol.py:328-332 | equal confidences, all zero included, give the plurality winner, counts and ratio |
| `Voting.NoAuthorityIsPlurality` | src/agent_mesh_router/consensus/protocol.py:425-437 | without a vote of the authority the result is the plurality result |
| `Voting.LastWordOfAuthority` | src/agent_mesh_router/consensus/protocol.py:409-423 | the last vote of the authority decides, whatever surrounds it |
| `Voting.HierarchicalIgnoresOrderIff` | src/agent_mesh_router/consensus/protocol.py:410-412 | the result is the same for every order of the votes iff the votes of the authority all name one option |
| `TopicManager.TopicManager.Subscribe` | src/agent_mesh_router/broker/pubsub.py:112-138 | a blank agent or pattern is refused; otherwise exactly that pair is added and the two tables stay inverse without empty entries |
| `TopicManager.TopicManager.Unsubscribe` | src/agent_mesh_router/broker/pubsub.py:142-161 | exactly that pair is removed, both tables stay inverse, emptied entries go |
| `TopicManager.TopicManager.UnsubscribeAll` | src/agent_mesh_router/broker/pubsub.py:165-189 | all pairs of the agent are removed and their number returned |
| `TopicManager.TopicManager.ResolveSubscribers` | src/agent_mesh_router/broker/pubsub.py:307-315 | exactly the agents holding a matching pattern |
| `TopicManager.Collect` | src/agent_mesh_router/broker/pubsub.py:310-313 | the loop collects exactly the agents holding a matching pattern |
| `TopicManager.TopicManager.Publish` | src/agent_mesh_router/broker/pubsub.py:195-238 | undisturbed: the same agents as resolve_subscribers, and the counters advance |
| `TopicManager.PublishDuring` | src/agent_mesh_router/broker/pubsub.py:217-226 | with the table changing arbitrarily between lock acquisitions: every agent holding one matching pattern throughout is returned, and only agents that held a matching pattern at some moment of the call |
| `TopicManager.UndisturbedPublish` | src/agent_mesh_router/broker/pubsub.py:217-238 | that guarantee pins the result down when nothing changes meanwhile |
| `TopicManager.HeldIffLastWord` | src/agent_mesh_router/broker/pubsub.py:112-189 | over every run the tables stay inverse, and an agent holds a pattern iff the last event to speak about the pair was an accepted subscription |
| `TopicManager.HoldingDecides` | src/agent_mesh_router/broker/pubsub.py:100-103 | the pairs held determine both tables, keys included |
| `TopicManager.UnsubscribeUndoes` | src/agent_mesh_router/broker/pubsub.py:142-161 | unsubscribing takes back a new subscription and restores both tables |

## Left out

- asyncio, threads and locks as such: a critical section is one step, a batch of completions is any non-empty set.
- Per-step timeouts, log output, durations, timestamps and generated identifiers.
- Python's recursion limit: the recursive cycle search and depth memo (`src/agent_mesh_router/workflows/hierarchical.py:221-232`, `265-274`) hit it on long dependency chains where Kahn's count does not; here recursion is unbounded.
- Floating-point rounding: sums, quotients and comparisons are exact.
- A duplicate step id within one workflow: documented as impossible, and the two executors' tables would merge such steps.
- The parallel executor's launched set: it is written and never read.
- Exceptions outside `Exception` (such as a cancelled caller) in a call wrapped by the breaker: the source records no outcome for them, so every admitted call here is assumed to end by returning or by raising an `Exception`.
- Blocking with a timeout in enqueue and dequeue: a refused put or get is a step of its own, taken when the queue is full or empty.
- ConsensusWorkflow.Execute: results and their tie to the status assume unique step ids; on an early exit the schedule decides which steps have finished.
- CompetitiveWorkflow.Execute: when all results are asked for, any loser may be missing, because the source leaves out whatever finished together with the winner and was not yet looked at, and the schedule may make that any of them.
- LoadBalancer.LoadBalancer.Select: the random strategy promises only a healthy endpoint.
- SmoothWeights.WindowExact: needs a fixed healthy set with weights that are whole multiples of one unit; changing health or membership mid-window has no such theorem.
- CompositeRouter.OneStrategyUnchanged: a custom strategy must return healthy agents of the table, none twice, as all built-in ones do.
- CompositeRouter.RespectsUnanimity: rankings name no agent twice, as all built-in ones do.
- Routing.RoundRobinRouter.RankCandidates: a round robin router inside a composite appears there with the counter value its ranking call sees.
- The pattern matcher, the case folding and the blank test of the topic manager are arbitrary functions; so is the blank test of vote fields, which is not part of this model.
- The polling loop of the throttle's asynchronous acquire, a repetition of the call that is modelled.
- Health checker, retry policy, quota enforcer, message broker, priority queue, dead-letter queue, fleet registry, routing table maintenance, serialisation, A2A task life cycle, transports, command line, operator and client: wrappers, field copying or shallow invariants.
