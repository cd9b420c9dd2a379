# BabelSuite, modelled and proved in Dafny

BabelSuite runs a dependency graph of steps on local or leased workers, records what happens as events, and serves
mocks whose answers are rendered from templates. This project models the parts of its backend where one function's
promise rests on the behaviour of another, and proves what they keep together. `dafny verify dfyconfig.toml` checks
all of it.

An operation that changes state is a method of a class with the source's fields. Its postcondition gives the new
state as a function of the old one, and the theorems are about those functions: about every input, every sequence of
operations, or every interleaving of the sections that the source puts under one lock. Time is an argument.

| file | what it is about |
|---|---|
| `Text`, `Json`, `Graph`, `Machines` | strings as Go's library treats them, decoded JSON, dependency graphs with their paths and cycles, runs of state machines |
| `Topology` | ordering a suite by levels, and finding a cycle otherwise |
| `FailurePath`, `Execution`, `Replays`, `Runs`, `RuntimeStore` | step statuses, the event log, the skip decision, whole runs, save and restore |
| `Coordinator`, `CoordinatorRuns`, `LeaseTiming` | leased jobs, what holds in every reachable state, and when a lease can lapse |
| `Templates`, `Schemas`, `SchemaTheorems` | template expressions, their compilation to schema rules, rendering and validation |
| `Preview`, `Body` | preview requests and the conditions they are built to meet; request bodies changed in place |
| `Hub`, `Jwt`, `Windows`, `Profiles` | replay-then-live streams, token revocation, rolling windows, profile inheritance |

## What the proofs say about the code

These are the places where the code does less, or something else, than its comments or a first reading suggest.

- A template token with a fallback whose value is null: the template prints `<nil>`, the compiled rule takes the
  fallback (`NullDisagrees`).
- A token such as `state.a||`: the rule drops the stray bars, the template looks up a key that ends in them
  (`TrailingBarsDisagreeExactlyWhen`). A fallback without quotes is text for the rule and a path for the template
  (`UnquotedFallbackDisagreesExactlyWhen`). `RuleAgreesExactlyWhen` gives the exact condition for every token that compiles to a reference.
- A lone generated id or time with text around it, such as `order-{{mockUUID()}}`, loses the text once compiled; the
  other kinds keep it, trimmed (`LoneGeneratedAgreesExactlyWhen`).
- A verification that is under way while a revocation entry runs out lets the revoked token through: for a token
  revoked once, exactly when it decides later than seven days after the revocation. The claims were valid when it
  began, so it takes a call that lasts longer than the time from issue to revocation (`RevokedIsAcceptedExactlyWhen`,
  `StraddlingVerificationAccepts`). And the deletion after the unlock gap can remove the entry of a revocation that
  came in between (`RenewedRevocationIsForgotten`).
- The comment at agent/worker.go:142-145 says that when the worker gives a step up, the lease has run out on the control
  plane too, which has failed the step already. The lease has run out exactly when the coordinator last heard of the
  worker a TTL before or earlier (`StopsAfterTheDeadlineExactlyWhen`). That is so unless a renewal reached the
  coordinator although it failed for the worker; then the worker may stop early, but need not (`LostAnswerMayStopEarly`,
  `LostAnswerMayStopInTime`). And the step need not have failed already: the expiry loop may be late
  (`ExpiryMayBeStillToCome`), and its next tick fails the step.
- A subscriber that asks for events after a point beyond the end of the stream gets the next events all the same
  (`SinceBeyondTheEnd`).
- A remote worker's report that the coordinator has accepted can be appended after its step has ended. The step then
  reads running, while `completed` still counts it (`LateReportMiscounts`, `LateReportHappens`): for good, unless its
  failure is a tolerated one that has yet to be announced as such, for that event makes it read failed again
  (`RunningStaysExactlyWhen`, `ReadsRunningForGood`). Runs include such reports here; what they break, nothing else
  does (`GoodKeptExactlyWhen`, `TerminalStaysExactlyWhen`).
- A step named `boot` is marked failed without being counted when booting fails (`BootStepIsMiscounted`).
- The empty agent id can complete a job that nobody has claimed, and no other id can (`PendingCompletesExactlyWhen`).
- `mergeServiceSpecs` is associative for all limits, negative ones included.

## Model

| member | source | states |
|---|---|---|
| Topology.ResolveTopology | backend/internal/execution/topology.go:71-134 | On any array of nodes: the duplicate error exactly when two ids are equal, for the first repeated id; otherwise the nodes are normalised in place, and the result is the missing-dependency error exactly when a dependency is missing (the first one), the cycle error, with a real cycle, exactly when the graph is cyclic, and else a permutation in which every node follows its dependencies, `level` is the length of the longest chain below it, and (level, order, name) never decreases |
| Topology.OrderNodes | backend/internal/execution/topology.go:83-134 | The same three-way outcome once the nodes are indexed, tying the level loop and the cycle search to each other: what the loop leaves over always has a cycle |
| Topology.FindTopologyCycle | backend/internal/execution/topology.go:170-221 | Empty exactly when the graph has no cycle of any kind; otherwise the path starts and ends with the same id and each entry depends on the next |
| Topology.CycleSearch.Visit | backend/internal/execution/topology.go:176-212 | Terminates by the unvisited ids; without a cycle it restores the path and has put the node after its dependencies in the order of completion |
| Topology.NormalizeTopologyDependencies | backend/internal/execution/topology.go:136-154 | Every dependency once |
| Graph.DedupKeepsOrder | backend/internal/execution/topology.go:136-154 | ... in the order in which they first appear |
| Text.LexLessMeans | backend/internal/execution/topology.go:166 | One name is less than another if and only if it comes first where they first differ, or is a beginning of it |
| Topology.SortTopologyIDs | backend/internal/execution/topology.go:156-168 | A permutation; when all ids are known the declaration order never decreases, and where it is equal no name comes before an earlier one at the first character in which they differ |
| Topology.CountDependencies | backend/internal/execution/topology.go:83-96 | Indegrees are the numbers of dependencies, dependants list exactly the reverse edges, or else the first missing dependency is named |
| Topology.PlaceLevel | backend/internal/execution/topology.go:98-127 | Placing one level keeps the partial order final, keeps each indegree equal to the number of unplaced dependencies, and collects exactly the nodes of the next level |
| Topology.OrderByLevels | backend/internal/execution/topology.go:98-127 | Every node left over still lacks a dependency that is left over |
| Topology.LeftoverIsStuck | backend/internal/execution/topology.go:129-131 | If some dependencies-first order of all nodes exists, the level loop leaves nothing over |
| Graph.OrderedIsAcyclic | backend/internal/execution/topology.go:170-221 | A dependencies-first order of all nodes rules out every cycle |
| Graph.LongestChainStep | backend/internal/execution/topology.go:98-127 | A node whose highest dependency has a longest chain of n edges has one of n + 1 |
| FailurePath.Search.IsFailurePathNode | backend/internal/execution/flow.go:180-210 | Terminates on every graph, cycles included, undoes its visiting set, and answers yes exactly when some dependency path clear of that set ends at a step one of whose on_failure triggers has failed |
| FailurePath.NodeBelongsToFailurePath | backend/internal/execution/flow.go:122-132 | Yes exactly when any dependency path, the empty one included, leads to such a step |
| FailurePath.RouteLeaves | backend/internal/execution/flow.go:199-207 | A failure route can always be cut so that it leaves its start for good: why the visiting set loses no answer |
| Execution.BuildStepStatus | backend/internal/execution/flow.go:30-58 | The statuses are the replay of the log over pending steps, the count is the number of terminal ones |
| Execution.ReplayIsTheLastWord | backend/internal/execution/flow.go:36-48 | A step has the status of the last event whose trimmed source it is and that has a known status, and is pending without one |
| Execution.ExecutionState.AppendEvent | backend/internal/execution/runtime.go:683-714 | The new state: the event is logged, and a known status of a known, trimmed source is applied |
| Execution.ExecutionState.MarkNodeTerminal | backend/internal/execution/flow.go:224-305 | The new state and the answer, for finished and unfinished steps: status, counter, event, run status, first error message, cancellation only on the first hard failure |
| Execution.ExecutionState.ShouldSkipNode | backend/internal/execution/flow.go:134-178 | Skips exactly when no trigger has failed, or some dependency is skipped or has failed without being tolerated, or the run has failed and the node is on no failure path |
| Execution.ExecutionState.FailBooted | backend/internal/execution/runtime.go:449-478 | The run is failed and the boot event logged, with its effect on a step of that name |
| Execution.ExecutionState.DestroyExecutionBackend | backend/internal/execution/telemetry.go:229-246 | The backend is destroyed on the first call only |
| Replays.LiveEqualsReplay | backend/internal/execution/flow.go:30-58 | After any sequence of appends, terminal marks, boot failures and releases the live map is what `buildStepStatus` computes from the log |
| Replays.EnsuredMeans | backend/internal/execution/flow.go:72-83 | Without statuses in memory, statuses and counter are taken from the log, and nothing else changes |
| Replays.AppendKeepsCount | backend/internal/execution/runtime.go:683-714 | An event keeps `completed` equal to the number of terminal steps if and only if it leaves its step as terminal or as unfinished as it was |
| Replays.CountIsExact | backend/internal/execution/flow.go:224-305 | Over every run of such events `completed` is the number of terminal steps |
| Replays.BootStepIsMiscounted | backend/internal/execution/runtime.go:449-478 | Why no step may be named boot |
| RuntimeStore.RestoreAfterRunExactlyWhen | backend/internal/execution/runtime_store.go:48-69 | At any point of any legal run, late reports included, restoring a saved execution gives back its topology, events, statuses, total and run status, and its counter too if and only if every ended step reads terminal or none does |
| RuntimeStore.RestoredCounter | backend/internal/execution/runtime_store.go:48-69 | The statuses always survive; the counter survives if and only if it was right or no step is terminal |
| RuntimeStore.RestoredNumbers | backend/internal/execution/runtime_store.go:56-64 | Whatever was saved: a total that is not zero is kept, and a positive counter is if no step reads terminal |
| RuntimeStore.ExecutionStore.Persist | backend/internal/execution/runtime_store.go:83-109 | One snapshot for each execution, in any order |
| RuntimeStore.ExecutionStore.Restore | backend/internal/execution/runtime_store.go:31-76 | For any load, the entries sorted by start, the later one counting where ids repeat; an empty load changes nothing |
| RuntimeStore.LoadedIsRestored | backend/internal/execution/runtime_store.go:31-76 | With distinct ids that is exactly the saved executions with an id, listed once each by start time |
| RuntimeStore.SaveAndRestore | backend/internal/execution/runtime_store.go:31-109 | A store saved and restored into a fresh one holds the same executions, up to what lives in memory only |
| Runs.RunVerdict | backend/internal/execution/flow.go:224-305 | In every interleaving of the steps' tasks, with mock resets and worker reports in time or late: the live map is the replayed log, `completed` is the number of ended steps and at most `total`, the run is healthy exactly when it has steps, all have ended and there was no hard or boot failure, failed exactly after one, group cancellation happens once after a hard failure, and backend destruction at most once |
| Runs.RunIsRecorded | backend/internal/execution/flow.go:224-305 | In every run: the log is what the actions said, in order; the error is the first non-blank message of a hard failure; the backend is destroyed exactly if there is one and somebody released it |
| Runs.SkipDecision | backend/internal/execution/flow.go:134-178 | In every run without late reports: a ready step whose dependencies are all healthy, or failed and tolerated, and whose trigger, if it lists any, has failed, passes the check in a run that has not failed, and in one that has if and only if a failure route leads on from it; any other ready step is skipped |
| Runs.CheckedExactlyWhen | backend/internal/execution/flow.go:134-178 | The decision in any state, late reports included, in terms of the statuses and the failure routes |
| Runs.PassedAreClosed | backend/internal/execution/flow.go:134-178 | As long as no report comes late: `completed` is the number of terminal steps, and in every later state a step that passed the skip check has dependencies that passed it too, each healthy, or failed with continue_on_failure, or failed and listed in on_failure; and a step with on_failure has a failed trigger |
| Runs.Absorbing | backend/internal/execution/flow.go:224-305 | In every run, Failed is absorbing, and a terminal status stays while no report of its step comes |
| Runs.TerminalStaysExactlyWhen | backend/internal/execution/runtime.go:683-714 | An action changes a terminal status if and only if it is a report of that step, which then comes late |
| Runs.CountedExactlyWhen | backend/internal/execution/flow.go:224-305 | In every run, `completed` is the number of terminal steps if and only if every ended step still reads terminal |
| Runs.GoodKeptExactlyWhen | backend/internal/execution/remote_workers.go:19-49 | A state in which all of this holds keeps it in one more action if and only if that is not a late report |
| Runs.LateReportMiscounts | backend/internal/execution/remote_workers.go:41-48 | What a late report does: one terminal step less, and the counter as it was |
| Runs.LateReportHappens | backend/internal/agent/coordinator.go:186-195 | A legal run after which one can come |
| Runs.RunningStaysExactlyWhen | backend/internal/execution/runtime.go:683-714 | A step that has ended and reads running is changed by its own continued event, which makes it failed, and by nothing else |
| Runs.ReadsRunningForGood | backend/internal/execution/runtime.go:683-714 | Over every legal continuation it reads running if it has no such event to come |
| Runs.StaysGood | backend/internal/execution/runtime.go:489-637 | The invariant over every legal continuation without late reports |
| Runs.StaysSound | backend/internal/execution/runtime.go:489-637 | What is left of it over every legal continuation |
| Coordinator.Coordinator.Submit | backend/internal/agent/coordinator.go:91-111 | The id and the lease chosen, the pending entry, and refusal of a known id |
| Coordinator.PreparedMeans | backend/internal/agent/coordinator.go:91-102 | A job without an id is filed under its execution and node, so a generated id is never needed; a lease that is not positive is eight seconds |
| Coordinator.Coordinator.Claim | backend/internal/agent/coordinator.go:141-161 | Takes one pending job of the agent and nothing else, or there is none |
| Coordinator.Coordinator.Extend | backend/internal/agent/coordinator.go:163-184 | The new deadline of a running job of the agent; the answer in every other case |
| Coordinator.Coordinator.Complete | backend/internal/agent/coordinator.go:208-239 | The outcome by cancellation, error or success, only for the claimant and only once |
| Coordinator.Coordinator.Cancel | backend/internal/agent/coordinator.go:241-262 | Ends a pending job, marks a running one, and answers whether the job was open |
| Coordinator.Coordinator.AssignmentRequest | backend/internal/agent/coordinator.go:271-285 | Reports are accepted exactly from the claimant of an open job |
| Coordinator.Coordinator.Expire | backend/internal/agent/coordinator.go:287-316 | One tick fails exactly the running jobs whose deadline has come |
| Coordinator.Coordinator.Persist | backend/internal/agent/runtime_cache.go:79-94 | The uncompleted jobs, each once |
| CoordinatorRuns.ReachableIsOk | backend/internal/agent/coordinator.go:91-316 | In every reachable state, for any agent ids: completed, terminal and done closed are one and the same, done is closed at most once, a claimant is the agent the request names, and the outcome is none for an open or succeeded job, the cancellation for a cancelled one, and for a failed one the error reported, which is not blank, or the lapse of its claimant's lease |
| CoordinatorRuns.CompletionDecides | backend/internal/agent/coordinator.go:113-262 | Over whole runs: a running job that its claimant reports as complete is cancelled if a cancellation came since the claim, failed with the error reported if there is one, and succeeded otherwise; and that is what `Wait` returns in every later state |
| CoordinatorRuns.CancelTakesEffect | backend/internal/agent/coordinator.go:241-262 | A cancellation ends a pending job, is noted on a running one, and changes nothing else |
| CoordinatorRuns.StrangersChangeNothing | backend/internal/agent/coordinator.go:163-239 | A renewal or a completion from anyone but the claimant changes nothing |
| CoordinatorRuns.OtherJobsStay | backend/internal/agent/coordinator.go:91-262 | An operation on one job leaves the others as they are |
| CoordinatorRuns.FirstOutcomeIsFinal | backend/internal/agent/coordinator.go:113-316 | Whatever comes later, from any agent, a terminal entry never changes, so `Wait` returns the first outcome; and a claimant never changes |
| CoordinatorRuns.ClaimedAtMostOnce | backend/internal/agent/coordinator.go:141-161 | A job is claimed at most once until it is cleaned up, and never after it has left Pending |
| CoordinatorRuns.ClaimantIsTheAgent | backend/internal/agent/coordinator.go:141-161 | The claimant is the agent the request's backend id names, up to outer white space, and stays the claimant in every later state |
| CoordinatorRuns.SnapshotRoundTrip | backend/internal/agent/runtime_cache.go:48-60 | Any snapshot of a reachable state, restored into an empty coordinator, gives exactly the uncompleted jobs, pending again |
| CoordinatorRuns.RestoredIsOk | backend/internal/agent/runtime_cache.go:48-60 | ... which is a state all of the above applies to |
| Coordinator.Coordinator.Cleanup | backend/internal/agent/coordinator.go:134-139 | The job is gone, the others are as they were |
| CoordinatorRuns.ReachableHaveClaimants | backend/internal/agent/coordinator.go:141-239 | With agent ids that are not empty, every reachable job that runs, or has succeeded or failed, has a claimant |
| CoordinatorRuns.HasClaimantExactlyWhen | backend/internal/agent/coordinator.go:141-239 | An operation breaks that if and only if it is the empty id that claims the job or completes it while pending |
| CoordinatorRuns.PendingCompletesExactlyWhen | backend/internal/agent/coordinator.go:208-239 | A pending job is completed by the empty id, and by no other |
| LeaseTiming.StopsAfterTheDeadlineExactlyWhen | backend/internal/agent/worker.go:134-172 | In every interleaving of renewals, late arrivals, expiry ticks, cancellations and completions: a worker that gives up a running job for a lapsed lease does so at or after the coordinator's deadline if and only if the coordinator last heard of it a TTL before or earlier; then the next expiry tick fails the job, and otherwise a tick fails it if and only if it comes a TTL after that |
| LeaseTiming.StopsOnlyAfterTheDeadline | backend/internal/agent/worker.go:134-172 | So it does if no renewal that failed for the worker has reached the coordinator since its last success |
| LeaseTiming.StopsOnlyIfCanceled | backend/internal/agent/worker.go:157-162 | In every run, a worker that stops without a lapsed lease has been told of a cancellation, and there was one |
| LeaseTiming.AnswerTellsOfTheCancellation | backend/internal/agent/worker.go:155-164 | A renewal that arrives after the cancellation stops the worker when it is answered; one before it renews the lease on both sides |
| LeaseTiming.ExpiryMayBeStillToCome | backend/internal/agent/worker.go:142-145 | A legal run in which the worker has given up, with no answer lost, and the job still runs on the control plane |
| LeaseTiming.LostAnswerMayStopEarly | backend/internal/agent/worker.go:157-170 | With a lost answer: a legal run that stops five units before the deadline |
| LeaseTiming.LostAnswerMayStopInTime | backend/internal/agent/worker.go:157-170 | ... and one that stops at the deadline |
| LeaseTiming.PromptWorkerKeepsItsLease | backend/internal/agent/coordinator.go:287-316 | If the delays around a tick sum to less than TTL - TTL/2 and renewals arrive, the expiry loop never fails the job and its deadline is always ahead |
| LeaseTiming.LeaseIsKeptExactlyWhen | backend/internal/agent/coordinator.go:287-316 | For given delays, no such run loses the lease if and only if they sum to less than TTL - TTL/2 (or, for a TTL of one unit, than that unit less three seconds) |
| Templates.SplitTemplateExpression | backend/internal/mocking/template.go:185-229 | The scanner's loop against the recursive definition that the laws below are about |
| Templates.PartResplitsToItself | backend/internal/mocking/template.go:185-240 | Every part of a split is trimmed, non-blank and splits to itself |
| Templates.SplitUndoesJoinExactlyWhen | backend/internal/mocking/template.go:185-240 | Joining parts, then splitting, returns them if and only if each is trimmed, non-blank and uncut, and all but the last are closed and do not end in the delimiter's first character |
| Templates.JoinOfCut | backend/internal/mocking/template.go:185-229 | Joining what the scan has cut gives the input back |
| Templates.BarIsTaken | backend/internal/mocking/template.go:185-240 | An instance: a part that ends in a bar loses it |
| Templates.SplitRespectsNesting | backend/internal/mocking/template.go:185-229 | For text with quoted pieces and nested parentheses: a split cuts at the delimiters outside of them and nowhere else |
| Templates.SplitOfTrimmed | backend/internal/examplegen/mock_schema.go:302-346 | Outer white space makes no difference to a split |
| Templates.OptionsAreShorter | backend/internal/mocking/template.go:63-89 | Options are shorter than their expression, so evaluation terminates |
| Templates.OptionsAreSimple | backend/internal/mocking/template.go:63-89 | Evaluation recurses at most one level: an option is evaluated as a literal or a path |
| Templates.FirstUsableOptionWins | backend/internal/mocking/template.go:63-89 | Of several options the first non-blank value is the result, and there is none if all are blank or missing |
| Templates.ExpressionMeans | backend/internal/mocking/template.go:74-126 | A quoted expression is its text, with valid escapes replaced; any other is the text of the value at its path |
| Templates.TemplatePathSegments | backend/internal/mocking/template.go:242-281 | The loop with its buffer against the recursive definition of path segments |
| Templates.PathIsItsNames | backend/internal/mocking/template.go:242-281 | However a path is written, with dots, slashes or brackets, quoted or not, its segments are its names |
| Templates.LookupContextValue | backend/internal/mocking/template.go:91-112 | The walk from map to map against the recursive look-up |
| Templates.LookupFollowsTheWay | backend/internal/mocking/template.go:91-112 | A value is found if and only if each segment is a key of the object found before, and it is the last one found |
| Schemas.TokensKeepTheText | backend/internal/mocking/template.go:45-61 | Cutting a string at its tokens loses nothing |
| SchemaTheorems.RenderAtTheFirstToken | backend/internal/mocking/template.go:45-61 | A template renders as the text before the first opening braces, what the text up to the first closing ones evaluates to without its outer white space, or nothing, and then the rendering of the rest |
| SchemaTheorems.RenderWithoutTokens | backend/internal/mocking/template.go:45-61 | A text in which no braces close after others have opened renders as itself |
| Schemas.InferComposedStringRule | backend/internal/examplegen/mock_schema.go:166-202 | The loop over the matches yields a part for every text and token in order, or nothing if one token cannot be compiled |
| SchemaTheorems.RuleExactlyWhen | backend/internal/examplegen/mock_schema.go:132-164 | Which rule a string gets, by its tokens: generator, reference, composition, template or none |
| SchemaTheorems.ReferenceStarts | backend/internal/examplegen/mock_schema.go:377-395 | A reference starts with one of six roots |
| SchemaTheorems.GeneratorIsCalled | backend/internal/examplegen/mock_schema.go:204-300 | A call of a generator, with its name in any case, becomes its rule with the arguments in the parentheses |
| Schemas.RenderComposed | backend/internal/mocking/schema_runtime.go:304-339 | The builder holds the concatenation of all parts, or there is no value if one part has none |
| SchemaTheorems.RuleAgreesExactlyWhen | backend/internal/examplegen/mock_schema.go:262-290 | For every token that compiles to a reference, the rule says what the template says if and only if: without a fallback, the value is there and prints what the whole token prints as a path (the same path unless there are stray bars); with one, a null value's fallback is `<nil>`, and a missing or blank value's fallback stands for itself (quoted: empty or non-blank, and unchanged by escapes; unquoted: a path that prints itself) |
| SchemaTheorems.LoneRuleAgreesExactlyWhen | backend/internal/mocking/schema_runtime.go:405-433 | A lone token with text around it: both engines agree if and only if the text has no outer white space and a value without text around it is not null |
| SchemaTheorems.ComposeMeansTheSame | backend/internal/mocking/schema_runtime.go:304-339 | A composed rule renders to the text of the template, for any number of tokens whose context suits them |
| SchemaTheorems.CompiledMeansTheSame | backend/internal/examplegen/mock_schema.go:132-202 | Every string whose tokens are references that the context suits: compiling and rendering gives what `renderTemplate` gives |
| SchemaTheorems.UncompiledKeepsItsTemplate | backend/internal/mocking/schema_runtime.go:264-266 | A string that does not compile renders as its template |
| SchemaTheorems.GeneratedAgreesExactlyWhen | backend/internal/mocking/schema_runtime.go:341-403 | The text around a generated value is kept if and only if there is none (ids and times) or it has no outer white space (the other kinds) |
| SchemaTheorems.LoneGeneratedAgreesExactlyWhen | backend/internal/examplegen/mock_schema.go:132-147 | The same for every string with one generator token, compiled and rendered |
| SchemaTheorems.NothingToPick | backend/internal/mocking/schema_runtime.go:383-389 | A pick without options renders as the empty string |
| SchemaTheorems.NullDisagrees | backend/internal/mocking/schema_runtime.go:416-422 | A null value with a fallback: the two engines differ |
| SchemaTheorems.TrailingBarsDisagreeExactlyWhen | backend/internal/examplegen/mock_schema.go:262-272 | A stray delimiter after a value: the two engines differ unless the value is empty |
| SchemaTheorems.UnquotedFallbackDisagreesExactlyWhen | backend/internal/examplegen/mock_schema.go:275-281 | A missing value with an unquoted fallback that has one: the two engines differ unless the value is the path itself |
| SchemaTheorems.AcceptsExactlyTheLike | backend/internal/mocking/schema_runtime.go:96-175 | The schema inferred from one value accepts another if and only if that has the same shape |
| SchemaTheorems.RequiredExactlyWhen | backend/internal/mocking/schema_runtime.go:110-121 | Required keys ask in addition that they are there, and neither null nor a blank string |
| SchemaTheorems.FitsItsOwnSchema | backend/internal/examplegen/mock_schema.go:89-130 | A value fits the schema inferred from it if and only if the elements of every array have the shape of its first one |
| SchemaTheorems.RenderedFits | backend/internal/mocking/schema_runtime.go:242-302 | Whatever a schema inferred from a value renders, for any templates and context, fits that schema |
| SchemaTheorems.RenderOfInfer | backend/internal/mocking/schema_runtime.go:242-302 | A template-free value comes back with every array cut to its first element |
| SchemaTheorems.RenderUndoesInferExactlyWhen | backend/internal/mocking/schema_runtime.go:242-302 | It comes back as it was if and only if no array has two elements |
| Preview.PreviewRequestSnapshot | backend/internal/mocking/preview.go:71-123 | The snapshot is the base request with the conditions applied one after the other |
| Preview.WithoutConditions | backend/internal/mocking/preview.go:71-105 | Without conditions: the query and path of the URL, the headers, and the body decoded, trimmed or missing |
| Preview.SentExactlyWhen | backend/internal/mocking/preview.go:90-95 | The headers with a name, in lower case, the last one of a name counting |
| Preview.WritesWhereItSays | backend/internal/mocking/preview.go:107-120 | Each kind of condition writes to its own part of the snapshot |
| Preview.ReadsWhereItSays | backend/internal/mocking/request.go:84-95 | ... and is read from there, missing values as the empty string |
| Preview.BodyLookup | backend/internal/mocking/schema_runtime.go:589-607 | The loop over the segments against the recursive walk, with the empty string for everything missing |
| Preview.BodyTextMeans | backend/internal/mocking/schema_runtime.go:589-607 | The text of the value looked up at the path, and nothing at a blank path or where it is missing or null |
| Preview.GetAfterSet | backend/internal/mocking/preview.go:132-161 | What was set at a path without empty segments is found there |
| Preview.SetFrame | backend/internal/mocking/preview.go:132-161 | Setting one path leaves every path alone that neither leads through it nor the other way round |
| Preview.SetHidesLongerPaths | backend/internal/mocking/preview.go:132-161 | A path that leads through a later one is lost |
| Preview.PreviewMatchesExactlyWhen | backend/internal/mocking/request.go:75-95 | A preview satisfies the conditions of its own example if and only if those on one location agree, for clean body paths of which none leads through another |
| Preview.LastRelatedDecides | backend/internal/mocking/preview.go:107-120 | In any list of conditions, the last one that has to do with a location decides what is read there: its value on the same path, nothing on a longer one, an object on a shorter one |
| Preview.LongerPathIsLost | backend/internal/mocking/request.go:75-95 | So a preview never matches if that last one leads to a shorter path than a condition with a value |
| Preview.EmptySegmentIsLost | backend/internal/mocking/preview.go:143-150 | With an empty segment anywhere in the path, what is set is not seen: the path reads as before |
| Preview.SameSegments | backend/internal/mocking/preview.go:137 | Two paths with the same segments are the same |
| Preview.SegmentsHaveNoDots | backend/internal/mocking/preview.go:137 | ... and no segment contains a dot |
| Body.BodyNode.SetValue | backend/internal/mocking/preview.go:132-161 | On nested maps changed in place: the tree stays a tree, new nodes are fresh, and its value is the one that the laws above are about |
| Hub.Hub.AppendLocked | backend/internal/eventstream/hub.go:43-55 | The lock section: one more record, and the present subscribers to send it to |
| Hub.Hub.TrySend | backend/internal/eventstream/hub.go:56-61 | One send: delivered if there is room, dropped otherwise |
| Hub.Hub.Subscribe | backend/internal/eventstream/hub.go:65-94 | The replay under the lock finds room for each record, so it never blocks, and holds exactly the records after since |
| Hub.Hub.Unsubscribe | backend/internal/eventstream/hub.go:97-106 | The subscriber leaves its own stream, and nothing else changes |
| Hub.LeftGetsNothingNew | backend/internal/eventstream/hub.go:97-106 | Over every later run, a subscriber that has left is sent nothing that was appended after it left |
| Hub.SnapshotThenSubscribe | backend/internal/logstream/hub.go:59-116 | A snapshot, and a subscription at any later time from its length on, together are the whole stream, without gap or repetition |
| Hub.ReplayLeavesRoom | backend/internal/execution/stream.go:19-75 | At least 16 slots are free after the replay, for every since: the capacity is 16 more than the replay, or 32 if that is more |
| Hub.ReachableIsOk | backend/internal/eventstream/hub.go:43-109 | Over all interleavings of appends, sends, reads, subscriptions and departures, every id above a subscriber's start is exactly one of delivered, dropped at a full channel, or on its way |
| Hub.DeliveredExactly | backend/internal/eventstream/hub.go:43-109 | No id twice, no foreign record; and once the sends are done, exactly the ids above since unless a send found the channel full |
| Hub.SinceBeyondTheEnd | backend/internal/eventstream/hub.go:73-90 | Why since must not exceed the length |
| Jwt.JWTService.Revoke | backend/internal/auth/jwt.go:155-163 | The token is blocked for seven days from the call, and of the other entries exactly those stay that have not run out |
| Jwt.JWTService.Verify | backend/internal/auth/jwt.go:92-180 | Undisturbed, with a clock reading for the claims and one for the list: accepts exactly a token of the kind asked for, issued and not expired by the first, without a current entry by the second; and removes the entry that has run out |
| Jwt.IssuedIsValidFor | backend/internal/auth/jwt.go:44-90 | A token is valid for its own kind only, from its issue until at least a second before 72 hours or seven days are over, and no longer than they last |
| Jwt.BlockOutlivesToken | backend/internal/auth/jwt.go:13-20 | A block entry outlives the token, whichever kind it is |
| Jwt.ReachableIsOk | backend/internal/auth/jwt.go:155-189 | However verifications, with the gap between their two lock sections, and revocations interleave, a revoked token has an entry that lasts from one of its revocations, or the time of its first one has run out, and with it the token |
| Jwt.AcceptedIsMeantForIt | backend/internal/auth/jwt.go:92-153 | In every run each call is about a token of the kind it asks for, not expired when it began, and is refused only if the token was revoked |
| Jwt.RevokedIsAcceptedExactlyWhen | backend/internal/auth/jwt.go:122-180 | A verification that reads the list after the revocation lets the token through only if it decides later than seven days after the first revocation, by when the token has expired, and always if later than seven days after the last one: for a token revoked once, if and only if |
| Jwt.StraddlingVerificationAccepts | backend/internal/auth/jwt.go:165-180 | ... and that can happen |
| Jwt.RenewedRevocationIsForgotten | backend/internal/auth/jwt.go:165-180 | The two bounds differ: a legal run in which a second revocation is deleted with the entry of the first |
| Windows.IpRateLimiter.Allow | backend/internal/auth/ratelimit.go:42-86 | Despite pruning and sweeping, a request is refused if and only if the window of the full history that ends with it is full; and in every state no window of any key holds more admitted requests than the limit |
| Windows.AtMostLimitPerWindow | backend/internal/auth/ratelimit.go:42-69 | At most limit requests are admitted in any window, wherever it ends, for every sequence of requests |
| Windows.RefusedExactlyWhenFull | backend/internal/auth/ratelimit.go:42-69 | A request is refused if and only if the window that ends with it holds limit admitted ones |
| Windows.Sweep | backend/internal/auth/ratelimit.go:71-86 | Every key keeps exactly its times after the cutoff |
| Windows.FreshTwice | backend/internal/auth/ratelimit.go:71-86 | Pruning at an earlier cutoff does not show at a later one |
| Windows.AccountLockout.Locked | backend/internal/auth/lockout.go:30-34 | Locked exactly when ten failures since the last reset lie in the ten minutes that end now |
| Windows.AccountLockout.Record | backend/internal/auth/lockout.go:37-53 | The full history grows by one failure; sweeps do not show |
| Windows.AccountLockout.Reset | backend/internal/auth/lockout.go:56-60 | The account's history is forgotten, the others' are not |
| Profiles.ResolveProfileChain | backend/internal/execution/profile_runtime.go:365-411 | Succeeds if and only if the walk along the parents ends at a root or at the built-in base, and then returns that walk, root first; otherwise the error names the missing or the revisited profile |
| Profiles.IndexOfIsLast | backend/internal/execution/profile_runtime.go:366-370 | A profile is found under its trimmed id, the last one of an id counting |
| Profiles.ChainResolver.Visit | backend/internal/execution/profile_runtime.go:376-405 | The recursive visit, for the last id of any trail |
| Profiles.RevisitingNeverEnds | backend/internal/execution/profile_runtime.go:376-405 | A walk that revisits an id never reaches an end |
| Profiles.OutcomesExclude | backend/internal/execution/profile_runtime.go:376-405 | Ending, missing and revisiting exclude one another, and the end is unique |
| Profiles.ChainIsDistinct | backend/internal/execution/profile_runtime.go:365-411 | A chain repeats no profile |
| Profiles.MergeServiceSpecs | backend/internal/execution/profile_runtime.go:441-474 | The in-place merge, service by service, against its definition on whole maps |
| Profiles.MergeIsAssociative | backend/internal/execution/profile_runtime.go:441-474 | Merging services is associative, for any limits |
| Profiles.MergeSecretRefs | backend/internal/execution/profile_runtime.go:513-546 | The loops with their index of keys against the fold over all references |
| Profiles.MergedKeys | backend/internal/execution/profile_runtime.go:513-546 | Every non-empty key once, in the order of first appearance |
| Profiles.MergedRefs | backend/internal/execution/profile_runtime.go:513-546 | ... each with its last reference |
| Profiles.MergeInStages | backend/internal/execution/profile_runtime.go:513-546 | Merging in stages is merging at once |
| Profiles.ResolveRuntime | backend/internal/execution/profile_runtime.go:209-230 | The loop over the chain against the fold that the laws below are about |
| Profiles.NearestProfileWins | backend/internal/execution/profile_runtime.go:209-230 | Each environment key, the network mode and the agent tags have the value of the nearest profile that states them |
| Profiles.NearestServiceWins | backend/internal/execution/profile_runtime.go:209-230 | So does each field of each service |
| Profiles.NearestServiceEnvWins | backend/internal/execution/profile_runtime.go:209-230 | ... and each key of its environment |
| Profiles.FoldedRefs | backend/internal/execution/profile_runtime.go:209-230 | The secret references are the merge of those of the whole chain |

## Left out

- SchemaTheorems.CompiledMeansTheSame: one direction for whole strings, because the differences of several tokens, or of a token and the trimmed text beside it, can cancel out by chance; the exact conditions are proved for one token and for a lone token with its text.
- SchemaTheorems.RuleAgreesExactlyWhen: what escape sequences in a quoted fallback stand for (`strconv.Unquote`) is a parameter, so for those the condition compares the two texts.
- Preview.PreviewRequestSnapshot: works on the value of the body; that the walk on the nested maps, changed in place, has that value is what Body.BodyNode.SetValue states. The walk is recursive there, with the source's loop as its tail call. Parsing of URLs and JSON bodies and lower-casing are parameters.
- LeaseTiming.StopsAfterTheDeadlineExactlyWhen: the worker's loop is a state machine with one action for each tick, request, arrival and answer, not a loop; the rest of `runAssignment` (running the step, reporting completion) appears as the cancel and complete actions only.
- Runs.RunVerdict: the queue is not part of this model; it is taken to hand a step over once, after the tasks of its dependencies have ended, and to drop only steps that it has not handed over. What a step does in between is one outcome.
- Hub.DeliveredExactly: the two hubs and `SubscribeEvents` share one model; the event stream's execution status and duration fields are left out.
- Jwt.RevokedIsAcceptedExactlyWhen: signing and hashing are left out; a token is its kind and times and stands for its hash. Sessions, OIDC, bcrypt and cookies are not modelled.
- Preview.PreviewMatchesExactlyWhen: for body paths that lead through each other, what the last related condition leaves is proved case by case (`LastRelatedDecides`); whether an object's text happens to equal a condition's value depends on `fmt.Sprint`, a parameter.
- Topology.SortTopologyIDs: `sort.Slice` is an insertion sort here; nothing is promised about ties beyond what the code promises.
- Coordinator.Coordinator.Persist: the debounce timer and its pending flag, the store and the cache behind it are left out; so are reports of state and log lines beyond who may send them.
- Strings are sequences of characters, not bytes; the scanners only look for ASCII characters, so they cut at the same places.
- Statuses are an enumeration; `Unset` stands for the empty string. Numbers in JSON are reals, so conversions to int64 do not overflow.
- Schemas have the keys that inference writes; coercion of rendered values to types other than string, which inferred rules never ask for, is left out, and so is everything between the two packages (the CUE text).
- The regular expression for tokens is a scanner for the first closing braces after each opening ones; `fmt.Sprint` of values other than strings and null is a parameter, and so is what the random generators yield.
- HTTP, RPC, logging, tracing, container and registry back ends, and the text of messages are left out.
