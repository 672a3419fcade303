# FlowForge verification

A Dafny 4.11 model of the backend of FlowForge, a workflow platform: flows are drawn as graphs, checked,
published as immutable versions and executed by a durable workflow that writes its progress to database rows.
`dafny verify dfyconfig.toml` checks the project.

## What is modelled

**The DAG engine.** `ValidatorRules`, `GraphSearch` and `Validator` are `validate_flow`: edge indexing, port and
degree rules, Kahn's algorithm with parallel edges, breadth-first search. The methods are proved to report an issue
exactly when a declarative predicate (`Raises`) says the flow deserves it. `Engine` gives the sweep executor as a
function of flow, input, handlers and visiting order; `EngineInvariants` shows what each sweep keeps;
`EngineMeaning` defines, by recursion over upstream nodes, what each node means without any execution order, and
proves that the executor computes it; `EngineTheorems` connects validator and executor in both directions.
`Digraphs` holds the graph theory (a cycle as a closed walk, as a set closed under predecessors, as the absence of
a topological numbering).

`Examples` shows that the assumptions of these theorems can be met.

**One node.** `NodeHandlers` has the deciding parts of Condition and HTTP Poll, `Polling` the interplay of poll
rounds with Temporal's retries, with a tight bound on the number of handler calls.

**The workflow and its rows.** `Workflow.Run` is `GenericFlowWorkflow.run` as a method over a class of database rows
whose methods are the activities. It computes the executor's outcome, keeps the rows equal to its dictionaries at every
sweep boundary and leaves the rows of run and nodes in agreement with the outcome. `Builtins` shows that the built-in nodes
meet the assumptions of the engine theorems. `Ordering` is `sorted()` on ids.

**The callback protocol.** `CallbackProtocol` follows one wait through every interleaving of posts, expiry, signal
sending, loss and delivery, and consumption by the workflow; `CallbackRuns` puts it into a run.

**The life of a flow.** `Lifecycle` follows editing, publishing, rolling back, pausing, running, rerunning, scheduling and
patching through whole histories; its last theorems compose with the engine: in no history does any run stall. `FlowRows` has the
endpoints over database rows, refining those operations. `DraftSaves` lets saves overlap. `SharedConfig` models
configuration dictionaries as objects, because a scheduled run shares its version's; `ConfigWriters` lets patches overlap.

**JSON algebra and variables.** `FlowConfig` (recursive merge), `Redaction`, `Paths` and `VariablePaths` (two
implementations of variable look-up), `RunVariables` (typed writes), `VariableWriters` (concurrent activities that write variables).

**Cron search.** `Calendar` and `Cron`: field parsing, the either-day rule and the bounded search. As in the `crontab`
utility of POSIX.1-2017, INPUT FILES, a day matches either day field when both are restricted; steps and weekday 7
are extensions, and months always restrict.

**Key rotation.** `Credentials` (symbolic authenticated encryption with the record's identity as associated data, which names its
record because generated ids, models.py:26-27, contain no colon) and `KeyRotation`.

## Where the code and its promises part

- The repository's README.md:94 says that paused and archived flows reject manual, scheduled and rerun triggers. A schedule fires whatever the
  status of its flow: the promise is kept exactly while no schedule is enabled (`Lifecycle.InactiveFlowRejectsTriggersIff`,
  with a history in `Lifecycle.PausedFlowRuns`).
- Its README.md:361 says that transport retries share one attempt budget with the polls. The code gives every poll round a
  fresh budget of retries: with limit M the handler may be called M*M - M + 1 times, and `Polling.OneBudgetIff` shows that the
  promise holds exactly for M = 1 or an expectation that nothing can fail.
- Its README.md:365 says that writes of run variables are serialized to prevent lost updates. The lock serializes them, but an
  activity has loaded the variable rows before it takes the lock (activities.py:33-41, 125), and its session keeps those rows when it selects them
  again under the lock (run_variables.py:116-123). Overlapping activities of a run, such as a try that timed out and its retry,
  can lose an update (`VariableWriters.LostUpdate`); writes are serial exactly if every commit had read the current row
  (`VariableWriters.WritesAreSerialIff`). Configuration patches have no lock at all (`ConfigWriters.LostPatch`).
- A save is meant to be refused when another editor changed the draft (group_api.py:511-512). The check takes no lock: of saves that
  expect the current row version, one goes through exactly if it is read before the first commit, where no open session read an
  older row version (`DraftSaves.FirstCommitDecides`, and `DraftSaves.SaveGoesThroughIff` from any state). A session left open from an older
  row version makes a stale expectation valid again (`DraftSaves.ExpectationIsUsedUpIff`).
- The two variable look-ups differ on a path that is unbound and is empty or a variable's name followed by a dot
  (`VariablePaths.ResolversAgreeIff`).
- `deep_merge` is not associative. It is exactly when nothing that the middle configuration replaced comes back
  (`FlowConfig.AssociativeIff`); the pattern object, non-object, object alone does not break it (`FlowConfig.ConflictCanBeHarmless`).
- A cron search can fail for a date that exists only in leap years (`Cron.ExpressionAlwaysOccursIff`, `Cron.LeapDayIsMissed`).
- Rotating to a key whose id is the empty string re-encrypts under the active key (`KeyRotation.AllOnTargetIff`,
  `KeyRotation.EmptyKeyIdMissesTarget`).
- One Start, no MISSING_INPUT and no CYCLE do not quite imply that every node is reachable: the validator skips the connection
  rules of unknown node types, and the implication holds exactly unless such a node has no incoming edge
  (`Validator.UnreachableIsImpliedIff`, `Validator.UnknownNodeCanBeUnreachable`).

## Model

| member | source | states |
|---|---|---|
| Flows.IndexedStep | backend/app/workflow/validator.py:67-68 | appending an edge to its two buckets keeps the indexes equal to the filtered edge list, order and parallel edges included |
| ValidatorRules.CheckEdge | backend/app/workflow/validator.py:51-95 | an edge is reported for a repeated id, a missing endpoint or a missing port, exactly when it has one |
| ValidatorRules.IndexEdges | backend/app/workflow/validator.py:50-95 | both indexes are complete and the reported issues are exactly those of all edges |
| ValidatorRules.CheckFacts | backend/app/workflow/validator.py:98-167 | the node rules that are reported are exactly the broken ones; an unknown type silences the rest |
| ValidatorRules.CheckNode | backend/app/workflow/validator.py:97-167 | read off the indexes, the node rules are those of the flow itself |
| ValidatorRules.CheckNodes | backend/app/workflow/validator.py:97-167 | every node's broken rules and nothing else |
| Validator.RepeatedIdShrinks | backend/app/workflow/validator.py:36-37 | comparing dictionary and list length finds a repeated id, and only that |
| Validator.CheckCounts | backend/app/workflow/validator.py:36-48 | duplicate ids, one Start, at least one End |
| GraphSearch.StartKahn | backend/app/workflow/validator.py:169-170 | counters count incoming edges with multiplicity and the queue holds the nodes without any, once each |
| GraphSearch.OpenIntoClose | backend/app/workflow/validator.py:175-176 | visiting a node closes exactly the edges from it, parallel ones counted separately |
| GraphSearch.Relax | backend/app/workflow/validator.py:175-178 | after a node is visited counters and queue are those of the larger visited set |
| GraphSearch.CycleNodeIsOpen | backend/app/workflow/validator.py:175-178 | a node on a cycle always keeps an open edge |
| GraphSearch.Kahn | backend/app/workflow/validator.py:169-180 | the visit leaves nodes out exactly when the graph has a directed cycle |
| GraphSearch.Expand | backend/app/workflow/validator.py:185-190 | a search step keeps the invariant of breadth-first search and makes progress |
| GraphSearch.ReachableFrom | backend/app/workflow/validator.py:182-190 | the collected set is exactly what walks from Start reach |
| Validator.UnreachableIssues | backend/app/workflow/validator.py:191-196 | one issue for each unreached node |
| Validator.ValidateFlow | backend/app/workflow/validator.py:30-198 | an issue is reported if and only if the flow raises it; no issues if and only if the flow is acceptable |
| Validator.AcceptedIsWellFormed | backend/app/workflow/validator.py:30-198 | no issues means one Start, an End, joined edges, connected nodes, complete conditions and no cycle |
| Validator.SourcePortIssueIff | backend/app/workflow/validator.py:76-85 | INVALID_SOURCE_PORT is raised for a known node if and only if an edge leaves it without a handle or through one that its definition does not offer |
| Validator.TargetPortIssueIff | backend/app/workflow/validator.py:86-95 | the same of INVALID_TARGET_PORT, edges into the node and its inputs |
| Validator.AcceptedIff | backend/app/workflow/validator.py:30-198 | no issues if and only if nodes are known, configured and distinct, edges distinct and joined from port to port, and the structure is right |
| Validator.ReachableIffConnected | backend/app/workflow/validator.py:124-196 | with one Start and no cycle, no UNREACHABLE issue if and only if every id but the Start's has an incoming edge |
| Validator.UnreachableIsImpliedIff | backend/app/workflow/validator.py:97-196 | UNREACHABLE is implied by START_COUNT, MISSING_INPUT and CYCLE exactly unless a node of unknown type other than the Start has no incoming edge |
| Validator.UnknownNodeCanBeUnreachable | backend/app/workflow/validator.py:97-196 | a flow about which those three are silent while UNREACHABLE is raised |
| Validator.EveryNodeReachesAnEndIff | backend/app/workflow/validator.py:141-180 | without a cycle, every node reaches an End if and only if every id but an End's has an outgoing edge |
| Validator.OnlyUnknownNodesAreStuck | backend/app/workflow/validator.py:97-180 | with MISSING_OUTPUT silent too, that fails only through a node of unknown type without an outgoing edge |
| Digraphs.AcyclicIffRanked | backend/app/workflow/validator.py:169-180 | no directed cycle if and only if there is a topological numbering |
| EngineInvariants.DecideFrame | backend/app/temporal/workflows.py:103-121 | what a sweep does with a node depends on its upstream nodes alone |
| EngineInvariants.FinishKeepsSound | backend/app/temporal/workflows.py:123-162 | finishing a node disturbs no earlier decision |
| EngineInvariants.IdleSweep | backend/app/temporal/workflows.py:99-111 | a sweep without progress leaves the state alone and every pending node waiting |
| EngineInvariants.ExecuteExplained | backend/app/temporal/workflows.py:98-195 | the final state is justified node by node, the trace lists finished nodes once, and the outcome has its reason |
| EngineInvariants.SweepsBounded | backend/app/temporal/workflows.py:98-181 | at most one sweep per node in a completed run |
| EngineMeaning.ExecuteRealisesMeaning | backend/app/temporal/workflows.py:98-195 | on an acyclic flow statuses, outputs, run output and failures are those of the recursive meaning, for every visiting order |
| EngineMeaning.OrderDoesNotMatter | backend/app/temporal/workflows.py:98-181 | two visiting orders both fail, or complete with equal statuses, outputs and run output |
| EngineTheorems.NoProgressIffCycle | backend/app/temporal/workflows.py:183-195 | unless a node fails, "made no progress" if and only if there is a directed cycle, if and only if the validator says CYCLE |
| EngineTheorems.NoProgressNeedsCycle | backend/app/temporal/workflows.py:183-195 | with failing nodes too, "made no progress" needs a cycle |
| EngineTheorems.AcceptedNeverStalls | backend/app/temporal/workflows.py:183-195 | no execution of an accepted flow ends in "made no progress" |
| EngineTheorems.AcceptedReachesAnEnd | backend/app/temporal/workflows.py:164-170 | a completed run of an accepted flow executed an End, so its output is never empty of Ends |
| EngineTheorems.AcceptedRunFinishes | backend/app/temporal/workflows.py:98-181 | an accepted flow without node failures completes within one sweep per node, each node exactly once |
| EngineTheorems.SuccessIffActivePath | backend/app/temporal/workflows.py:108-131 | a node succeeded if and only if a path of active edges leads to it from Start; all others were skipped |
| EngineTheorems.InputsBySource | backend/app/temporal/workflows.py:197-215 | one source is passed through, several are keyed under sources; a condition hands on its data |
| EngineTheorems.StartReceivesRunInput | backend/app/temporal/workflows.py:197-205 | a node without incoming edges is executed on the run's input |
| EngineTheorems.ConditionActivatesOneBranch | backend/app/temporal/workflows.py:32-37 | a condition activates exactly the edges of the branch it took |
| EngineTheorems.UnbranchedCondition | backend/app/temporal/workflows.py:32-37 | an output without a branch activates just the edges without a handle, an empty one none |
| Examples.ForkIsAccepted | backend/app/workflow/validator.py:30-198 | a start, a condition and its two ends, properly wired, are accepted by any registry that knows them |
| Examples.SomeAcceptedFlow | backend/app/workflow/validator.py:30-198 | there is an accepted flow |
| Examples.SomePausedFlowRuns | README.md:94 | there is a paused flow with a run, in a consistent state |
| Examples.AgreeingRunCompletes | backend/app/temporal/workflows.py:98-181 | every accepted flow has a run that completes, in any visiting order, so the theorems about finished runs are not vacuous |
| NodeHandlers.ConditionDecides | backend/app/nodes/catalog/condition/handler.py:18-44 | exact failure cases; otherwise the branch is true or false as the comparison says and data is the input |
| NodeHandlers.RedactKeepsBranch | backend/app/temporal/activities.py:276-286 | redacting an output does not touch its branch |
| NodeHandlers.MaxAttemptsMeans | backend/app/temporal/workflows.py:40-44 | the configured limit within its bounds, the bound beyond them, the default where none is given |
| NodeHandlers.PollDecides | backend/app/nodes/catalog/http_poll/handler.py:78-109 | a poll returns if and only if the observed value compares as expected, is put off if and only if it does not and the attempt is below the limit, and hands on the response with a true record |
| Polling.PollTerminates | backend/app/temporal/workflows.py:147-158 | at most M rounds and M*M - M + 1 handler calls |
| Polling.SettleTells | backend/app/temporal/workflows.py:261-267 | the output is the last call's, redacted; a failure takes a whole activity of M raising tries, and it is the last one's error that Temporal wraps |
| Polling.WorstCaseMeetsBound | backend/app/temporal/workflows.py:147-158 | some server behaviour makes M*M - M + 1 calls |
| Polling.OneBudgetIff | README.md:361 | the documented single budget holds if and only if M is one or no answer can fail the expectation |
| Polling.BudgetExceeded | README.md:361 | a poll of at most two attempts that exceeds it |
| Ordering.SortIds | backend/app/temporal/workflows.py:100 | the ids in strictly ascending order, all of them |
| Ordering.AtMostIsLexicographic | backend/app/temporal/workflows.py:100 | the order is that of prefixes and first differing characters |
| Workflow.RunRows.constructor | backend/app/group_api.py:200-233 | a pending row for the run and each node |
| Workflow.RunRows.MarkRun | backend/app/temporal/activities.py:152-169 | run status, output and error; node rows untouched |
| Workflow.RunRows.MarkNodeSkipped | backend/app/temporal/activities.py:172-179 | one node row becomes SKIPPED |
| Workflow.RunRows.MarkNodeFailed | backend/app/temporal/activities.py:182-194 | one node row and the run become FAILED |
| Workflow.RunRows.ExecuteNode | backend/app/temporal/activities.py:197-295 | the row after one try: SUCCESS, POLL_WAIT or FAILED, attempt number the larger of round and retry |
| Workflow.RunRows.CreateWait | backend/app/temporal/activities.py:298-410 | node and run wait for a person or a callback; a callback wait shows as a provisional output |
| Workflow.RunRows.CompleteManualWait | backend/app/temporal/activities.py:339-354 | the node succeeds with its output and the run is running again |
| Workflow.RunRows.CompleteCallbackWait | backend/app/temporal/activities.py:413-436 | as for a manual wait, and the error is cleared |
| Workflow.RunActivity | backend/app/temporal/workflows.py:261-267 | the result and number of calls of an activity with retries, with its row |
| Workflow.ExecuteToEnd | backend/app/temporal/workflows.py:136-162 | executing a node is its behaviour; its row ends SUCCESS with that output, or FAILED; the failure is the text of the wrapped error |
| Workflow.ManualOutputMeans | backend/app/temporal/activities.py:339-347 | inputs overlaid by the signal's data and then by decision, comment and time |
| Workflow.CallbackOutputMeans | backend/app/temporal/activities.py:413-425 | inputs overlaid by the redacted data of the signal and then by the callback's record |
| Workflow.HandlerOutcome | backend/app/temporal/workflows.py:261-267 | other nodes succeed with what some try returned, redacted, and fail with the wrapped text of some try's error |
| Workflow.CollectInputs | backend/app/temporal/workflows.py:197-215 | the loop computes the inputs of the executor |
| Workflow.VisitNode | backend/app/temporal/workflows.py:101-162 | one node of a sweep, with rows that follow |
| Workflow.SweepOnce | backend/app/temporal/workflows.py:99-162 | one sweep, ending early on failure, with rows that mirror the dictionaries |
| Workflow.Conclude | backend/app/temporal/workflows.py:164-195 | when the run is closed, and with which rows |
| Workflow.SweepToEnd | backend/app/temporal/workflows.py:98-195 | the whole loop computes the executor's outcome; rows mirror statuses at every boundary |
| Workflow.Run | backend/app/temporal/workflows.py:68-195 | the outcome over the sorted ids, the history of sweep boundaries, and final rows that agree with the outcome |
| Workflow.FinalRowsMeaning | backend/app/temporal/activities.py:152-194 | run SUCCESS if and only if completed, then all nodes SUCCESS or SKIPPED; on failure exactly the failed node's row is FAILED |
| Builtins.TableRespectsLimit | backend/app/nodes/catalog/http_poll/handler.py:87-109 | the built-in handlers ask for another poll only below the limit |
| Builtins.ConditionsBranchInRun | backend/app/temporal/activities.py:243-286 | after retries and redaction a condition still takes one of its branches |
| Builtins.PollSucceedsOnMatch | backend/app/nodes/catalog/http_poll/handler.py:87-109 | in a run, an HTTP Poll node succeeds only with a response that compared as expected, and hands it on redacted |
| Builtins.ConditionSucceedsAsCompared | backend/app/nodes/catalog/condition/handler.py:18-44 | in a run, a condition fails exactly as specified and otherwise takes the branch of its comparison |
| Builtins.BuiltinRunOfAcceptedFlow | backend/app/temporal/workflows.py:98-195 | the workflow on an accepted flow of built-in nodes fails at a node or completes through an End, within one sweep per node |
| CallbackProtocol.CallbackTable.ExpireWait | backend/app/callback_api.py:52-88 | wait expired; node and run failed if the node was waiting |
| CallbackProtocol.CallbackTable.ReceiveCallback | backend/app/callback_api.py:91-197 | every branch from size limit to acceptance, with response and signal |
| CallbackProtocol.CallbackTable.ReceiveAll | backend/app/callback_api.py:91-197 | posts one after the other, on the rows: the wait ends as the first decisive post says, and the responses are the protocol's |
| CallbackProtocol.FirstDecisivePostDecides | backend/app/callback_api.py:92-197 | over every interleaving the wait's fate is that of the first post that is late or passes every check in time: expired, or received with its key and redacted payload |
| CallbackProtocol.RepliesOnceReceived | backend/app/callback_api.py:114-120 | once received, however much later, a post is answered as a repetition if and only if it carries the accepted, non-empty key; none changes anything |
| CallbackProtocol.EveryPostIsAnswered | backend/app/callback_api.py:91-197 | over every interleaving, the response to each post, from the posts before it: new, repetition, or the status of the first check it fails |
| CallbackProtocol.NewIffReceived | backend/app/callback_api.py:137-197 | exactly one post is answered as new if the run is attached and the wait was received, and none otherwise |
| CallbackProtocol.StoredPayload | backend/app/callback_api.py:139-145 | the stored payload is the redacted body, under `data` unless an object |
| CallbackProtocol.PayloadStaysAfloat | backend/app/callback_api.py:190-196 | without a crash between commit and signal, a received payload is always on its way or consumed |
| CallbackProtocol.ReceivedCompletes | backend/app/temporal/workflows.py:247-259 | and sending, delivering and consuming it completes the node |
| CallbackProtocol.UnattachedNeverSignals | backend/app/callback_api.py:187-188 | without a Temporal workflow nothing is signalled |
| CallbackProtocol.LossIsFinal | backend/app/callback_api.py:186-196 | after a crash between commit and signal the node never completes, over every interleaving |
| CallbackProtocol.SettledWaitStays | backend/app/callback_api.py:117-125 | a settled wait never changes again |
| CallbackProtocol.StepKeepsInvariant | backend/app/callback_api.py:91-197 | every step keeps the protocol invariant |
| CallbackProtocol.AtMostOnce | backend/app/callback_api.py:117-197 | over every interleaving: one new acceptance, one signal, output equal to the stored payload over the input, no success after expiry |
| CallbackRuns.ConsumingCompletes | backend/app/temporal/workflows.py:247-259 | the workflow's output for a delivered signal is the protocol's last step |
| CallbackRuns.CallbackOutputsArePayloads | backend/app/temporal/activities.py:413-436 | in a run, a callback node succeeds only with a received wait, and its output is its input overlaid by the stored payload |
| Redaction.SensitiveIff | backend/app/security/redaction.py:4-21 | a key is sensitive if and only if it is one of the ten words, in any case |
| Redaction.RedactIdempotent | backend/app/security/redaction.py:18-26 | redacting twice is redacting once |
| Redaction.RedactedHasNoSecrets | backend/app/security/redaction.py:18-26 | no sensitive key keeps its value at any depth |
| Redaction.RedactFixesExactly | backend/app/security/redaction.py:18-26 | a value is unchanged if and only if it shows no secret |
| Redaction.RedactAlongPath | backend/app/security/redaction.py:18-26 | away from sensitive keys every path leads to the redacted original |
| Paths.SplitJoin | backend/app/template_resolver.py:31-36 | joining and splitting dotless parts is a round trip |
| Paths.JoinSplit | backend/app/template_resolver.py:31-36 | splitting and joining is a round trip |
| Paths.WalkPath | backend/app/template_resolver.py:15-24 | the loop follows the path or fails |
| VariablePaths.ResolvePath | backend/app/template_resolver.py:27-37 | the prefix search computes the resolver's specification |
| VariablePaths.GetVariablePath | backend/app/run_variables.py:54-69 | the prefix search computes the look-up's specification |
| VariablePaths.ResolversAgreeIff | backend/app/template_resolver.py:27-37 | the two look-ups agree if and only if the path is bound, or is not empty and no variable's name with a dot after it |
| VariablePaths.ResolversDiffer | backend/app/template_resolver.py:27-37 | a path on which they differ |
| VariablePaths.FallbackNeverFinds | backend/app/template_resolver.py:37 | the last fallback finds nothing for a non-empty path |
| VariablePaths.OwnNameWins | backend/app/run_variables.py:54-57 | a path that is a variable's own name is that variable |
| VariablePaths.LongestNameFinds | backend/app/run_variables.py:58-68 | otherwise the longest bound name and the rest of the path find what lies there |
| VariablePaths.NoBacktracking | backend/app/run_variables.py:59-68 | a path whose longest bound name lacks the rest is not found, whatever lies below a shorter name; but for a template path that ends in a dot |
| VariablePaths.NoBacktrackingInstance | backend/app/run_variables.py:59-68 | an instance in which the shorter name would have the rest |
| RunVariables.VariableTable.SetVariable | backend/app/run_variables.py:96-154 | the new rows and events of an accepted write; a rejected write changes nothing |
| RunVariables.VariableTable.SetAll | backend/app/run_variables.py:96-154 | writes one after the other, on the rows: every variable and its events show the fold of its own writes |
| RunVariables.ModeNames | backend/app/run_variables.py:108-111 | the four names, in any case, and no others |
| RunVariables.ModesCompose | backend/app/run_variables.py:72-93 | increments add up, appends concatenate, merges overlay, replacement forgets |
| RunVariables.ModesAtTheEdges | backend/app/run_variables.py:72-93 | first writes, and exactly what each mode refuses |
| RunVariables.StoreShowsHistory | backend/app/run_variables.py:96-154 | value, type, revision and events of each variable are those of the fold over its own accepted writes |
| VariableWriters.CommitIsSerialIff | backend/app/run_variables.py:112-154 | a write that its loaded row accepts has the effect it would have on the current row if and only if the revisions are equal |
| VariableWriters.WrittenColumns | backend/app/run_variables.py:140-146 | a commit writes the columns that differ from the row it read, and always the revision |
| VariableWriters.LoadKeepsRows | backend/app/temporal/activities.py:33-41 | loading again leaves the rows that the session has |
| VariableWriters.WritesAreSerialIff | backend/app/run_variables.py:112-154 | over every interleaving of loads, locks, commits and aborts, rows and events are those of the commit order if and only if every commit had read the current row or was refused either way |
| VariableWriters.RevisionTellsStaleness | backend/app/run_variables.py:116-146 | until then, a row in a session is current if and only if its revision is, which counts the accepted writes |
| VariableWriters.FreshReadsAreSerial | README.md:365 | if no session loaded rows before its write, any interleaving of locked writers equals the order of their commits |
| VariableWriters.LostUpdate | backend/app/temporal/activities.py:33-41 | two increments that overlap both succeed under one revision, and the first one's part is lost |
| VariableWriters.MistypedRow | backend/app/run_variables.py:141-146 | an overlapping increment leaves a number in a row whose type says string |
| VariableWriters.StaleRefusal | backend/app/run_variables.py:116-123 | an overlapping increment is refused on a text that is no longer there |
| FlowConfig.DeepMerge | backend/app/flow_config.py:20-27 | the loop computes the merge |
| FlowConfig.EmptyIsUnit | backend/app/flow_config.py:20-27 | the empty configuration is a two-sided unit |
| FlowConfig.OverridesIdempotent | backend/app/flow_config.py:20-27 | the same overrides twice change nothing more |
| FlowConfig.PathLaw | backend/app/flow_config.py:20-27 | what lies at every path after a merge |
| FlowConfig.OverrideLeafWins | backend/app/flow_config.py:20-27 | a leaf of the overrides wins |
| FlowConfig.AssociativeIff | backend/app/flow_config.py:20-27 | associative if and only if nothing the middle replaced comes back |
| FlowConfig.AbsorbedIff | backend/app/flow_config.py:20-27 | a merge is its override if and only if that covers every key of the base |
| FlowConfig.NoConflictAssociates | backend/app/flow_config.py:20-27 | no object, non-object, object along any path suffices for associativity |
| FlowConfig.AssociativityFails | backend/app/flow_config.py:20-27 | a concrete failure |
| FlowConfig.ConflictCanBeHarmless | backend/app/flow_config.py:20-27 | the type pattern alone does not break associativity |
| SharedConfig.RunRow.Merged | backend/app/flow_config.py:20-27 | the merge changes a fresh copy in place |
| SharedConfig.RunRow.ApplyPatch | backend/app/temporal/activities.py:136-149 | a valid patch gives the run a fresh dictionary; nothing else changes |
| SharedConfig.RunRow.Scheduled | backend/app/temporal/activities.py:64-79 | a scheduled run holds its version's dictionary itself |
| SharedConfig.RunRow.Manual | backend/app/group_api.py:200-211 | other runs hold a copy |
| SharedConfig.PatchRuns | backend/app/temporal/activities.py:136-149 | any runs of one version, sharing its dictionary or not, and any patches: each run ends with the fold of its own, in a dictionary of its own once patched, and the version keeps its default |
| FlowRows.AppendVersionRow | backend/app/group_api.py:559-570 | a version row under the next number keeps the numbers at exactly 1 to the current one, once each, and what every foreign key points to |
| FlowRows.FlowTable.FindVersion | backend/app/group_api.py:648-656 | scanning the rows for a number finds its version, or nothing exactly when there is none |
| FlowRows.FlowTable.UpdateDraft | backend/app/group_api.py:508-525 | on the flow's columns, a save under the expected row version; the version rows stay valid |
| FlowRows.FlowTable.Publish | backend/app/group_api.py:546-574 | a version row is added if and only if the validator and the schema checks are silent; the numbers stay 1 to current, once each |
| FlowRows.FlowTable.Rollback | backend/app/group_api.py:591-624 | the row found by its number is copied under the next number and into the draft columns |
| FlowRows.FlowTable.UpdateStatus | backend/app/group_api.py:628-638 | activation needs a version row |
| FlowRows.FlowTable.CreateRun | backend/app/group_api.py:642-672 | the run points to the version row of the requested number, or else of the current one |
| FlowRows.FlowTable.Rerun | backend/app/group_api.py:814-834 | the run points to the version row of the original |
| FlowRows.FlowTable.CreateSchedule | backend/app/group_api.py:982-1010 | the schedule points to the version row of the requested number |
| FlowRows.FlowTable.UpdateSchedule | backend/app/group_api.py:1014-1062 | the schedule is moved to another version row, checked against it |
| FlowRows.FlowTable.TriggerSchedule | backend/app/temporal/activities.py:51-119 | the run takes its configuration from the row its schedule points to |
| FlowRows.FlowTable.PatchConfig | backend/app/temporal/activities.py:136-149 | the merge loop's result is stored if and only if it fits the schema of the run's version row |
| FlowRows.FlowTable.ServeAll | backend/app/group_api.py:508-834 | any sequence of requests takes the rows where the history of operations goes, so that they have all properties below |
| Lifecycle.EveryHistoryIsConsistent | backend/app/group_api.py:546-672 | versions 1 to current, all acceptable; active means published; inputs and configurations of runs and inputs of schedules fit the schemas of their versions |
| Lifecycle.HistoryKeepsRecords | backend/app/group_api.py:546-638 | stored versions never change and runs keep version, input and trigger |
| Lifecycle.ConfigIsFoldOfPatches | backend/app/temporal/activities.py:136-149 | after any operations a run's configuration is the fold of its own conforming patches |
| ConfigWriters.StalePatchIsSerialIff | backend/app/temporal/activities.py:136-149 | when a patch merged into the configuration its session loaded has the effect it would have on the current one |
| ConfigWriters.LostPatch | backend/app/temporal/activities.py:136-149 | of two overlapping patches to different keys the first is lost |
| Lifecycle.StaleSaveIsRefused | backend/app/group_api.py:511-521 | of saves that do not overlap, only one with a given expectation succeeds |
| DraftSaves.SaveGoesThroughIff | backend/app/group_api.py:507-525 | over every interleaving, from any state, a save goes through if and only if nothing was committed and the row has its version, or the last session to commit had read the version before |
| DraftSaves.FirstCommitDecides | backend/app/group_api.py:507-525 | where no open session read an older row version, a save that expects the current one goes through if and only if it is read before the first commit |
| DraftSaves.OverlappingSaves | backend/app/group_api.py:507-525 | two overlapping saves both succeed as one row version, and where both changed a column the first one's work is lost |
| DraftSaves.ExpectationIsUsedUpIff | backend/app/group_api.py:507-525 | an expectation that was passed never succeeds again if and only if no open session read an older row version |
| Lifecycle.RollbackRestores | backend/app/group_api.py:591-624 | however much later, rolling back succeeds, makes the old definition the next version and the draft, and the draft can be published again |
| Lifecycle.PinnedRun | backend/app/group_api.py:642-672 | however much later, a run by hand of a version is checked against and configured by that version as first stored |
| Lifecycle.LatestRun | backend/app/group_api.py:649-672 | a run that names no version is one of the version last published or restored, checked against and configured by it |
| Lifecycle.SavedDraftIsPublished | backend/app/group_api.py:515-574 | what was saved last is what a publication adds, exactly if its credentials are there and it is publishable |
| Lifecycle.Refusals | backend/app/group_api.py:507-834 | exactly when each operation is accepted; a refusal changes nothing |
| Lifecycle.RefusalStatuses | backend/app/group_api.py:507-834 | the HTTP status of each refusal |
| Lifecycle.ScheduleStores | backend/app/group_api.py:995-1040 | a schedule keeps what is not given and takes what is |
| Lifecycle.CountersCount | backend/app/group_api.py:521-634 | row version and current version count the accepted edits and the accepted additions |
| Lifecycle.PinnedSchedule | README.md:94 | an enabled schedule, until updated, starts runs of its version with its input and that version's default configuration, whatever happens meanwhile |
| Lifecycle.RerunRepeats | backend/app/group_api.py:814-834 | however much later, a rerun repeats version and input, with the configuration the original's patches left |
| Lifecycle.InactiveFlowStartsRunIff | README.md:94 | while a flow is not active, an operation starts a run if and only if it is the firing of an enabled schedule |
| Lifecycle.InactiveFlowRejectsTriggersIff | README.md:94 | the promise that paused and archived flows reject all triggers is kept if and only if no schedule is enabled |
| Lifecycle.PausedFlowRuns | backend/app/temporal/activities.py:52-64 | publish, schedule, pause, and the schedule still starts a run |
| Lifecycle.NoRunEverStalls | backend/app/group_api.py:546-574 | in no history does any run end in "made no progress" |
| Lifecycle.EveryFlowIsConsistent | backend/app/group_api.py:477-574 | both hold from the creation of a flow on, whatever its first draft |
| Calendar.TickAddsOne | backend/app/scheduling.py:51-69 | the next minute is valid and one minute later |
| Calendar.MinutesInjective | backend/app/scheduling.py:51-69 | no two moments share a minute |
| Calendar.MonthLengths | backend/app/scheduling.py:51-69 | the months' lengths, with leap years |
| Cron.CronValues | backend/app/scheduling.py:9-29 | the union of the parts, non-empty and in range, or an error exactly when a part does not parse |
| Cron.SpanRoundTrip | backend/app/scheduling.py:12-28 | writing a span and reading it back gives the span |
| Cron.NumberParses | backend/app/scheduling.py:22-23 | a number alone allows itself |
| Cron.StarStepParses | backend/app/scheduling.py:14-18 | a star with a step is the whole range in steps |
| Cron.NumberStepParses | backend/app/scheduling.py:22-28 | a number with a step is that number alone |
| Cron.CommaUnites | backend/app/scheduling.py:11-28 | a comma unites what its sides allow |
| Cron.StarAllowsAll | backend/app/scheduling.py:17-18 | a star allows the whole range |
| Cron.ParseExpression | backend/app/scheduling.py:37-53 | five fields, Sunday as 0 and 7, wildcard flags; an error exactly for a malformed expression |
| Cron.WeekdaysFollow | backend/app/scheduling.py:55 | weekdays advance daily and a known date has its weekday |
| Cron.NextTime | backend/app/scheduling.py:50-70 | the least matching minute of the window, or none exactly when the window has none |
| Cron.MatchesMeansFires | backend/app/scheduling.py:54-67 | read off the fields: minute, hour and month allowed, and the day right, by the other field where one is a lone `*` and by either where neither is |
| Cron.NextCronTime | backend/app/scheduling.py:32-70 | the first minute of the window at which the expression, read so, fires, in UTC for a fixed offset, with both errors exactly |
| Cron.EitherDayWillDo | backend/app/scheduling.py:58-59 | with both day fields restricted, never later than the next chosen day of the month nor the next chosen weekday |
| Cron.ThirteenthOrFriday | backend/app/scheduling.py:58-59 | `0 0 13 * 5` in a week of August 2026 |
| Cron.SearchAlwaysSucceedsIff | backend/app/scheduling.py:52-70 | the search succeeds from every moment if and only if weekdays are restricted or some chosen day exists every year |
| Cron.ExpressionAlwaysOccursIff | backend/app/scheduling.py:32-70 | the same condition read off the fields' text |
| Cron.FindableIff | backend/app/scheduling.py:50-70 | the search from one moment succeeds if and only if a chosen date lies in its 732 days, to the minute at both ends |
| Cron.AnyWeekdayFindableIff | backend/app/scheduling.py:50-70 | with a lone `*` for the weekdays, by month and day of the month alone |
| Cron.LeapDayIsMissed | backend/app/scheduling.py:50-70 | `0 0 29 2 *` is well formed and fails from New Year 2025 |
| Credentials.AadNamesRecordIff | backend/app/security/crypto.py:26-27 | the associated data belongs to one record if and only if neither of its ids contains a colon |
| Credentials.AadText | backend/app/security/crypto.py:26-27 | the associated data of one record, letter by letter |
| Credentials.SecretOpensIff | backend/app/security/crypto.py:65-116 | a ring reads a secret for a record if and only if it still holds the same key under the payload's key id and the record is the owner |
| KeyRotation.CredentialTable.Rotate | backend/app/security/rotate_credential_keys.py:11-48 | success exactly when ring and rows allow it, the number of re-encrypted rows, and no change on failure |
| KeyRotation.RotationPreservesSecrets | backend/app/security/rotate_credential_keys.py:24-47 | every plaintext survives, under its new key alone |
| KeyRotation.AllOnTargetIff | backend/app/security/rotate_credential_keys.py:24-47 | all rows end on the target if and only if its id is not empty or nothing had to move |
| KeyRotation.EmptyKeyIdMissesTarget | backend/app/security/rotate_credential_keys.py:24-47 | a ring and a row for which rotation to the empty id misses |
| KeyRotation.SecondRotationIsIdle | backend/app/security/rotate_credential_keys.py:24-48 | a second rotation changes and reports nothing |

## Left out

- Workflow.Run: a node that waits for a signal that never comes is not modelled; the signal a waiting node consumes is a parameter.
- Workflow.RunRows.CreateWait: unknown approval groups and unusable credentials make the source raise and retry without limit; waits are taken to succeed, and approval tasks are not modelled.
- Workflow.RunRows.ExecuteNode: timestamps, the attempt log and events are not modelled; a configuration patch that fails is one of the raises a handler may answer with.
- EngineMeaning.ExecuteRealisesMeaning: handlers are functions of node and inputs; run variables and configuration patches, which make results depend on the order of execution, are outside this theorem.
- Polling.SettleTells: the text that Temporal's `ActivityError` makes of a handler's last error is a parameter, `World.wrapped`.
- CallbackRuns.CallbackOutputsArePayloads: that the signals a run consumes come out of histories of the protocol, and not from elsewhere, is an assumption on Temporal.
- DraftSaves.SaveGoesThroughIff: rollbacks and status changes write the row version in the same unlocked way and are not among the steps; of overlapping publications the unique constraint on version numbers (models.py:140) refuses all but one.
- VariableWriters.WritesAreSerialIff: assumes SQLAlchemy's identity map without `populate_existing`, and updates of changed columns only, as the repository configures it; each activity writes one variable; equality of column values is that of JSON values, while Python also takes `True` for `1`.
- Lifecycle.ConfigIsFoldOfPatches: a patch is one step from reading to writing; `ConfigWriters` has what overlapping patches do.
- SharedConfig.RunRow.Merged: dictionaries below the top level are values, so sharing there is not expressible; the source deep-copies them.
- Credentials.SecretOpensIff: the owner's ids contain no colon, as generated ids never do.
- NodeHandlers.ConditionDecides: Python's comparisons and `str()` are parameters, and template resolution of a node's configuration comes before.
- NodeHandlers.PollDecides: turning the expected text into a number or truth value is a parameter, as are the request and the rendering of errors.
- NodeHandlers.MaxAttemptsMeans: configuration numbers are the integers the node schemas admit; texts that `int()` would accept are not modelled.
- Polling.PollTerminates: a third-party handler that asks for another poll at or above its limit is outside the bound.
- CallbackProtocol.AtMostOnce: safety only; a crash between commit and signal loses the signal, and the payload stays stored.
- RunVariables.VariableTable.SetVariable: the run is taken to exist, mode names are folded in ASCII only, and numbers are reals instead of floats.
- Cron.NextTime: the zone has a fixed offset, so no daylight saving, and the year is at most 9996 because Python's calendar ends with 9999.
- Cron.CronValues: `int()` is modelled for ASCII digits.
- Redaction.RedactIdempotent: keys are folded in ASCII only.
- KeyRotation.CredentialTable.Rotate: AES-GCM is symbolic, base64 and JSON encoding are not modelled, and nonces are parameters.
- FlowRows.FlowTable.Publish: credential availability and JSON Schema validation are parameters; permissions are not modelled.
- Run cancellation, which overwrites any status and is overwritten by later activities.
- Monotonicity of a node's attempt counter, which can fall between poll rounds.
- Lexing of templates in text, resolution of the scopes other than variables, and inline substitution.
- HTTP routing, sessions, login throttling, registry loading, seeds, streaming, migrations and the frontend.
- HTTP fetching and redirects, HMAC and bearer comparison: the verdict of callback authentication is a parameter.
- Deleting schedules, schedule names and time zones, and the Temporal schedule objects behind them.
