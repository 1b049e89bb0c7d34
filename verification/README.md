# Noetrium tooling: a verified model of its algorithms and protocols

This project models the parts of the Noetrium repository whose correctness is not visible from a single function body, and
proves what those parts are for. Each modelled file under `scripts/` has one module or a few.

- `StronglyConnected`: the component search of the coupling audit. A class with the visitor's shared stack, index map, low-link
  map and result list; one recursive visit per node. The search returns exactly the mutual-reachability classes of everything
  reachable from the keys, and emits sinks first.
- `ShardGroups`, `ShardPlan`: the release planner. The greedy splitter uses the fewest groups any contiguous split can use, the
  capped balancer never pops an empty heap and leaves no group far above another, and the plan checker accepts exactly the
  partitions of the inventory.
- `RegressionRunner`: the crash-resumable release run as a transition system, with a crash possible between any two steps.
- `PytestOutcomes`: the report recorder and the clean-shard check that feed the runner.
- `IntervalSweep`: the overlap profile. The specification counts open intervals per instant; the code is the sorted sweep.
- `ControlRequest`: one request of the resident control worker: supervisor, child, client, cancel marker and terminal file, in
  every interleaving. `ChunkedBody`: the chunked transfer decoder of the same file.
- `RegistryConsolidation`: folding the system registry onto retained owners, as a graph quotient.
- `SymbolResolution`, `DeclaredAll`: the static resolvers over modules, the second against an execution of the same module.
- `LayerFacades`, `EntrypointReachability`, `ParentTopology`: facade demand, import reachability, and the two topology walks.
- `Ordering`, `Graphs`: sorting, string order and paths, shared by the others.

Code that updates state in place is written as methods or as a class, each proved against a function or predicate of its inputs;
protocols are transition systems over their steps. Nanoseconds are integers and time estimates are reals.

Some promises that one might read into the code are not kept on every input. The model keeps the code as it is, gives an input
on which each fails, and proves exactly when it is kept:

- Consolidating a consolidated registry need not leave it alone: loading rewrites `.` to `/` in parents, and a canonical
  authority may put a dotted key back. A second run also finds no component left to document. `RunAgainIff` gives the exact
  conditions, `DottedRunsDiffer` and `SecondRunForgets` a registry each.
- The request child runs inside the supervisor's own `try`. An exception outside its two guarded blocks escapes into the
  supervisor's clean-up, and the child then deletes its own result and releases the lock it shares with the supervisor.
  `LockDroppedEarly` and `PublicationLost` give runs; `LockCoversChild` and `OneHonestFrame` say exactly when lock and result
  survive.
- The chunk decoder accepts negative sizes, which move its cursor backwards, possibly for ever. `RewindingNeverEnds` gives a
  body; `OnlyMinusRunsOn` and `DecoderTerminates` tie it to a minus sign read as part of a size, and `EndsInTimeOrNever` gives
  the exact bound after which a body that has not ended never will.
- An unresolvable write to `__all__` followed by a resolvable extension restarts from the extension alone. `RestartIsUnsound`
  gives a module; `RestartStep` and `RestartExact` say exactly when no harm is done. A comprehension over `globals()` also sees
  names that the evaluator never records: `GlobalsAreMissed` and `SubmodulesAreMissed` give a module and a package,
  `ComprehensionExact` says exactly when one comprehension is right.
- The descendants walk has no guard against cycles. `MutualNeverEnds` gives a topology, `WalkEndsIff` says exactly when it ends.

## Model

| member | source | states |
|---|---|---|
| StronglyConnected.Scc | scripts/audit_cohesion_coupling.py:52-85 | on every finite graph, targets without an entry included, the search ends with an exact partition by mutual reachability of everything reachable from the keys; sizes never increase and equal sizes are in list order; it is a reordering of an emission in which no component reaches a later one |
| StronglyConnected.Tarjan.constructor | scripts/audit_cohesion_coupling.py:53-58 | the empty search satisfies the search invariant with no open visits |
| StronglyConnected.Tarjan.Push | scripts/audit_cohesion_coupling.py:61-65 | indexing and stacking a node keeps the invariant with the node open, and its own index is a justified low-link |
| StronglyConnected.Tarjan.LookAt | scripts/audit_cohesion_coupling.py:66-71 | after one successor the low-link still bounds every edge seen from the stacked part to below it, and is the index of a stacked node that the node reaches |
| StronglyConnected.Tarjan.LookAtAll | scripts/audit_cohesion_coupling.py:66-71 | the same for all successors, in any order; every successor is indexed afterwards |
| StronglyConnected.Tarjan.PopComponent | scripts/audit_cohesion_coupling.py:73-79 | pops exactly the stack from the node upwards and keeps the membership set in step |
| StronglyConnected.Tarjan.Finish | scripts/audit_cohesion_coupling.py:72-80 | closing a visit keeps the invariant: a root leaves with its component, any other node stays with a low-link strictly below its index |
| StronglyConnected.Tarjan.Visit | scripts/audit_cohesion_coupling.py:60-80 | one visit keeps the invariant, never disturbs the stack below, the earlier indices, low-links and components, and either emits the node or leaves it stacked with a reason |
| StronglyConnected.SuffixIsClass | scripts/audit_cohesion_coupling.py:72-80 | when low-link and index agree, the stack from the node upwards is exactly one mutual-reachability class |
| StronglyConnected.FinishRoot | scripts/audit_cohesion_coupling.py:72-80 | emitting that class keeps the search invariant, and so the order of emission |
| StronglyConnected.FinishBelow | scripts/audit_cohesion_coupling.py:72-72 | when the node reaches further down, every stacked node still reaches an open visit below it |
| StronglyConnected.SearchDone | scripts/audit_cohesion_coupling.py:82-85 | with every key indexed and no visit open, the emitted list is the exact partition, sinks first |
| StronglyConnected.SharedComponent | scripts/audit_cohesion_coupling.py:52-85 | two nodes share a returned component exactly when each reaches the other |
| IntervalSweep.CollectEvents | scripts/profile_research_execution_latency.py:159-168 | the events and the summed work are those of the rows whose both ends are known and strictly ordered |
| IntervalSweep.Sweep | scripts/profile_research_execution_latency.py:178-192 | neither error can occur; the occupied time is the number of covered instants and the maximum is the maximum cover |
| IntervalSweep.CompletedOverlap | scripts/profile_research_execution_latency.py:152-206 | for every row list: the empty report exactly when nothing counts, else work is the sum of covers, union the covered instants, span the tightest window, and union <= work <= union * maximum, union <= span |
| IntervalSweep.CloseKeepsNonNegative | scripts/profile_research_execution_latency.py:186-188 | the running count is never negative after a close, because closes sort before opens |
| IntervalSweep.CountIsCover | scripts/profile_research_execution_latency.py:183-186 | between two event times the running count is the number of intervals covering that instant |
| IntervalSweep.OpenBelowCover | scripts/profile_research_execution_latency.py:189-189 | the running count after an open never exceeds the cover at that instant |
| IntervalSweep.MaxPrefixIsMaxCover | scripts/profile_research_execution_latency.py:189-189 | the greatest running count is the greatest cover, also when intervals touch |
| IntervalSweep.LengthsAreCoverSum | scripts/profile_research_execution_latency.py:168-168 | the summed lengths are the sum over instants of the cover |
| ShardGroups.BoundedExclusiveGroups | scripts/release_regression.py:506-542 | order and coverage are kept, groups are within the size limit and, if longer than one file, within the time target; for non-negative estimates no contiguous split within these limits has fewer groups; both errors exactly in their cases |
| ShardGroups.GreedyStep | scripts/release_regression.py:530-539 | each file keeps the greedy split at least as far ahead as every other split of the files so far |
| ShardGroups.AheadCut | scripts/release_regression.py:532-537 | when the greedy splitter must cut, every other split has cut too, or is already one group behind |
| ShardGroups.BalancedParallelGroups | scripts/release_regression.py:469-503 | a partition of the files into exactly ceil(n/8) non-empty groups of at most an even share each, rounded up, each sorted; for non-negative estimates the load of any group without its shortest file is at most the load of any group below an even share |
| ShardGroups.CapFacts | scripts/release_regression.py:485-486 | the cap is at most 8, the buckets together hold all files, and one bucket fewer would not |
| ShardGroups.CapIsShare | scripts/release_regression.py:485-486 | a group may still grow exactly while it has less than an even share of the files |
| ShardGroups.PopLeast | scripts/release_regression.py:498-498 | removes one least (load, index) entry and nothing else |
| ShardGroups.HeapNotEmpty | scripts/release_regression.py:497-502 | while a file is left the heap, which holds exactly the non-full buckets with their true loads, is not empty |
| ShardGroups.PlacingStep | scripts/release_regression.py:498-502 | placing a file keeps heap, contents, cap and balance |
| ShardPlan.BuildShardPlan | scripts/release_regression.py:545-568 | indexes run from 1; the exclusive shards split the exclusive files, in inventory order, into as few admissible shards as any split needs; each of the other two classes has exactly ceil(n/8) balanced shards; on a duplicate-free inventory the plan passes the checker exactly when all classes are known |
| ShardPlan.FilesInOrder | scripts/release_regression.py:555-559 | the files of a class are all its inventory entries, in inventory order |
| ShardPlan.GroupsInOrder | scripts/release_regression.py:556-567 | the groups of a class are those of all its shards, in plan order |
| ShardPlan.ObservePlan | scripts/release_regression.py:600-610 | passes exactly the plans with distinct indexes and no repeated file, and reads off each file's class; otherwise names a shared index or a repeated file |
| ShardPlan.ValidatePlan | scripts/release_regression.py:594-622 | accepts exactly the plans with distinct indexes that partition the inventory with matching classes; each rejection names a true witness, the least one where the code sorts |
| ShardPlan.AssembledMatches | scripts/release_regression.py:553-568 | group lists of the three classes, numbered in sequence, match the inventory exactly when it has only those classes |
| RegressionRunner.PartitionPending | scripts/release_regression.py:655-680 | splits the plan into cached results and the two pending lists, in plan order |
| RegressionRunner.PartitionSplits | scripts/release_regression.py:655-680 | on a durable state with results only for planned shards, every planned shard is in exactly one of the three, and the cached results are the durable ones |
| RegressionRunner.PendingInOrder | scripts/release_regression.py:666-680 | each pending list holds, in plan order, exactly the shards of its kind without a recorded result for the same index and files |
| RegressionRunner.WithResultAdds | noetrium_platform/foundation/governance/release/runtime/regression_state.py:107-117 | adding a result for a new index keeps all earlier results, one per index |
| RegressionRunner.StepKeepsInv | scripts/release_regression.py:683-834 | every step of the run, crashes included, keeps the invariant: durable results only for planned shards, every shard waiting, running or done, and the history in order |
| RegressionRunner.Always | scripts/release_regression.py:865-959 | the invariant holds in every state of every run with any crashes and restarts on the same inputs |
| RegressionRunner.FrozenForever | scripts/release_regression.py:914-925 | once frozen the durable plan never changes, and no durable result is ever lost or changed |
| RegressionRunner.RunningIsBounded | scripts/release_regression.py:771-787 | at most the worker limit of shards is active, only planned shards without a durable result run, and an exclusive shard runs alone |
| RegressionRunner.WindowIsWide | scripts/release_regression.py:627-631 | the window is narrower than the limit only if everything that is left fits into it |
| RegressionRunner.NeverRunsAgain | scripts/release_regression.py:663-680 | a shard with a durable result is never executed again, before or after any crash |
| RegressionRunner.HistoryHolds | scripts/release_regression.py:683-703 | in the history of every run a result is made durable once, after its shard was started, and the shard is never started afterwards |
| RegressionRunner.ReturnIsComplete | scripts/release_regression.py:927-959 | on return there is exactly one result per planned shard, all durable, and the plan partitions the inventory |
| RegressionRunner.PlanToFreeze | scripts/release_regression.py:914-923 | what the builder returns is a plan the run may freeze: distinct indexes, and no repeated file on an inventory of known classes without duplicates |
| RegressionRunner.BuiltPlanIsKept | scripts/release_regression.py:917-927 | freezing keeps a built plan as it is, so on an inventory of known classes without duplicates it is never rejected |
| RegressionRunner.NeverStuck | scripts/release_regression.py:711-959 | until it has returned, a run with workers can always change by a step other than a crash |
| RegressionRunner.StepsTowardsReturn | scripts/release_regression.py:711-959 | every such step that raises nothing comes closer to the return, in a well-founded order |
| RegressionRunner.Summarize | scripts/release_regression.py:837-862 | the totals are the sums over the plan in any order; the mismatch error exactly in its case |
| RegressionRunner.TotalsAddUp | scripts/release_regression.py:845-848 | results that are clean per shard have totals that add up, with at least one test per shard |
| RegressionRunner.SummaryCannotFail | scripts/release_regression.py:848-852 | at the end of any run on a non-empty inventory the mismatch error cannot occur |
| PytestOutcomes.Recorder.Merge | scripts/release_pytest_plugin.py:36-41 | the node's new outcome is the least one that has all its earlier flags and all given ones; other nodes are untouched |
| PytestOutcomes.Recorder.LogReport | scripts/release_pytest_plugin.py:44-56 | the outcomes depend only on the set of reports seen; each file's duration is the sum of the non-negative parts of its reports |
| PytestOutcomes.AggregateStep | scripts/release_pytest_plugin.py:44-56 | absorbing a report into the aggregate of a set gives the aggregate of the larger set |
| PytestOutcomes.FinalCounts | scripts/release_pytest_plugin.py:69-89 | each counter is the number of nodes of its class, by precedence |
| PytestOutcomes.Session | scripts/release_pytest_plugin.py:44-89 | final counts are independent of the order and repetition of the reports; each reported file has the sum of the non-negative parts of its reports |
| PytestOutcomes.CountedOnce | scripts/release_pytest_plugin.py:69-89 | every reported node is counted exactly once |
| PytestOutcomes.CountsFromReports | scripts/release_pytest_plugin.py:69-89 | the five counts from the reports: nodes with a failure; with an unexpected pass and no failure; with an expected failure and neither; with a skip and nothing worse; with a pass and nothing else |
| PytestOutcomes.FileOfMeans | scripts/release_pytest_plugin.py:46-46 | the file of a node is what comes before its first double colon |
| PytestOutcomes.ZeroMeansNoneBad | scripts/release_pytest_plugin.py:69-89 | no failed, xfailed or xpassed count exactly when no report in any phase failed, xfailed or xpassed |
| PytestOutcomes.ValidateReleaseClean | scripts/release_regression.py:123-154 | passes exactly the clean evidence; each rejection tells a fault that is there |
| PytestOutcomes.CleanEvidence | scripts/release_regression.py:123-154 | evidence of a session passes exactly when it ended well, no report was bad, and the collected count is the positive number of nodes that passed or were skipped |
| ControlRequest.TerminalFromWaitStatus | scripts/control_worker.py:430-455 | a result made up from a wait status is never code 0 and never looks like the child's own |
| ControlRequest.StepKeepsInv | scripts/control_worker.py:508-675 | every step of supervisor, child, client and marker keeps the protocol invariant, exceptions at every point of the child included |
| ControlRequest.Always | scripts/control_worker.py:508-751 | the invariant holds in every state of every interleaving |
| ControlRequest.KillFollowsTerm | scripts/control_worker.py:716-735 | at most one SIGTERM and then at most one SIGKILL is sent |
| ControlRequest.KilledBeforeBlocking | scripts/control_worker.py:728-735 | the supervisor blocks on a living child only after it has sent both signals |
| ControlRequest.CancelIsObeyed | scripts/control_worker.py:715-717 | while a leased request has its marker the supervisor never goes on watching the client |
| ControlRequest.SignalNeedsMarker | scripts/control_worker.py:715-717 | nothing is signalled unless the request is leased and its marker existed before |
| ControlRequest.DisconnectNeverSignals | scripts/control_worker.py:736-745 | without a marker no disconnect leads to a signal or ends the wait for a living child |
| ControlRequest.ReapedExactlyOnce | scripts/control_worker.py:711-735 | the child is reaped at most once, and exactly once by the time the supervisor is gone |
| ControlRequest.LockCoversChild | scripts/control_worker.py:616-666 | while there is a child to reap, the shared use-lock is held exactly until the child itself releases it, which takes an exception outside its two guarded blocks; a child that ended by exiting released it exactly if one escaped; in the end it is free |
| ControlRequest.OneHonestFrame | scripts/control_worker.py:640-661 | at most one terminal frame, exactly one by the end; code 0 only if the child published code 0 after its command gave 0; a published result is what is sent exactly unless the child unlinked it, which takes such an escape |
| ControlRequest.FlagsAreHistory | scripts/control_worker.py:631-666 | the child has escaped, unlinked or unlocked exactly if a step of the run did so |
| ControlRequest.LockDroppedEarly | scripts/control_worker.py:519-532 | a concrete run: cancelled while setting up, the child releases the lock while it is alive |
| ControlRequest.PublicationLost | scripts/control_worker.py:555-562 | a concrete run: cancelled while leaving, a published success is deleted and a failure is sent |
| ControlRequest.MarkerNotConsumed | scripts/control_worker.py:746-751 | no step of the supervisor changes the marker |
| ControlRequest.NeverStuck | scripts/control_worker.py:597-751 | until it is gone the supervisor can change its state, or is in the blocking wait for a child it has killed |
| ChunkedBody.Decode | scripts/control_worker.py:121-141 | the loop computes the round-by-round specification, to any number of rounds |
| ChunkedBody.SizeLineParses | scripts/control_worker.py:128-130 | a size line of hexadecimal digits with any extension is read as its value |
| ChunkedBody.HexadecimalReads | scripts/control_worker.py:130-130 | every number in its usual hexadecimal form, in either letter case, is read as itself |
| ChunkedBody.StrangeSizesRejected | scripts/control_worker.py:129-132 | a size without a hexadecimal digit, or with a byte that is no digit, blank, sign, prefix or underscore, is rejected |
| ChunkedBody.ChunkRound | scripts/control_worker.py:125-141 | one round over an encoded chunk yields its data and a larger cursor, and rejects every body cut inside it |
| ChunkedBody.EncodedBodyDecodes | scripts/control_worker.py:121-141 | for every chunk list encoded as in section 7.1 of RFC 9112, with any extensions and trailer: the decoder returns the concatenation, and rejects every prefix cut before the end of the zero-size line |
| ChunkedBody.CursorAdvances | scripts/control_worker.py:125-141 | on every body, a round moves the cursor forward, to the start of a later line, unless the size it read has a minus sign |
| ChunkedBody.DecoderTerminates | scripts/control_worker.py:124-141 | if no line of the body has a minus sign where a size would be read, the loop ends within one round per byte, plus one |
| ChunkedBody.OnlyMinusRunsOn | scripts/control_worker.py:124-141 | a loop that never ends has read a size with a minus sign |
| ChunkedBody.RewindingNeverEnds | scripts/control_worker.py:130-141 | on a concrete body with a negative size the loop never ends |
| ChunkedBody.EndsInTimeOrNever | scripts/control_worker.py:124-141 | for every body: the loop ends exactly if it ends within two rounds per byte, plus two |
| RegistryConsolidation.FindOwner | scripts/consolidate_system_registry_components.py:24-44 | always terminates; returns the key itself, its retained canonical authority or its nearest retained ancestor, and fails only when no owner exists, telling why |
| RegistryConsolidation.CyclicUnowned | scripts/consolidate_system_registry_components.py:37-39 | an unretained chain that never ends has no owner |
| RegistryConsolidation.ForestOwned | scripts/consolidate_system_registry_components.py:24-44 | on an acyclic forest every row has an owner |
| RegistryConsolidation.ChainNeverRunsOut | scripts/consolidate_system_registry_components.py:44-44 | the last error is unreachable: a row without a parent is retained |
| RegistryConsolidation.CollectOwners | scripts/consolidate_system_registry_components.py:54-54 | every row gets its owner, or some row has none |
| RegistryConsolidation.AddTargets | scripts/consolidate_system_registry_components.py:86-90 | adds exactly the owners of the dependencies except the key itself, without duplicates; fails exactly on an unknown dependency |
| RegistryConsolidation.AddOffers | scripts/consolidate_system_registry_components.py:104-106 | adds each missing capability once and keeps the multiplicity of those present |
| RegistryConsolidation.ConsolidateRow | scripts/consolidate_system_registry_components.py:80-111 | the row of a retained key collects parent, dependencies, capabilities and components of all it owns |
| RegistryConsolidation.Consolidate | scripts/consolidate_system_registry_components.py:47-121 | succeeds exactly when every row has an owner and every reference a row; then every key lands in exactly one output |
| RegistryConsolidation.WhereRowsGo | scripts/consolidate_system_registry_components.py:49-61 | roots, authorities and providers stay in the registry, every other row becomes a documented component |
| RegistryConsolidation.QuotientEdge | scripts/consolidate_system_registry_components.py:86-108 | owner a requires owner b, a other than b, exactly when some key of a required some key of b |
| RegistryConsolidation.QuotientReach | scripts/consolidate_system_registry_components.py:86-108 | reachability in the result is exactly reachability in the original with each owner's keys merged |
| RegistryConsolidation.ReachSurvives | scripts/consolidate_system_registry_components.py:86-108 | every original dependency path survives between the owners |
| RegistryConsolidation.OffersConserved | scripts/consolidate_system_registry_components.py:92-109 | an owner provides exactly what its keys provided |
| RegistryConsolidation.KeepsAncestors | scripts/consolidate_system_registry_components.py:82-84 | if the rewritten parents are the nearest retained ancestors, the strict-ancestor relation between retained rows is kept in both directions |
| RegistryConsolidation.AncestorsKeptIff | scripts/consolidate_system_registry_components.py:82-84 | on a forest that relation is kept exactly when no unretained parent's canonical authority overrides a nearest retained ancestor |
| RegistryConsolidation.RunAgain | scripts/consolidate_system_registry_components.py:13-21 | a second run leaves the registry unchanged exactly when no parent in it holds a dot, and both files exactly when moreover no component was documented |
| RegistryConsolidation.RunAgainIff | scripts/consolidate_system_registry_components.py:47-121 | in terms of the input file: the registry exactly when no unretained parent of a retained row has a retained canonical authority with a dotted key, both files exactly when moreover every row is retained |
| RegistryConsolidation.DottedRunsDiffer | scripts/consolidate_system_registry_components.py:13-21 | a concrete registry that consolidates and is not left alone by a second run |
| RegistryConsolidation.SecondRunForgets | scripts/consolidate_system_registry_components.py:113-120 | a concrete registry that a second run leaves alone while it loses the documented component |
| SymbolResolution.Scan | scripts/generate_interface_schemas.py:162-179 | the statement loop computes definitions, re-exports and star modules, later bindings winning |
| SymbolResolution.ScannedDefinition | scripts/generate_interface_schemas.py:166-172 | a name is defined, with its kind, by the last statement that defines it |
| SymbolResolution.ScannedImport | scripts/generate_interface_schemas.py:173-179 | a name is re-exported from where the last import that binds it under its local name takes it |
| SymbolResolution.ScannedStars | scripts/generate_interface_schemas.py:175-177 | the star list is all star imports of the file, in order |
| SymbolResolution.Symbols | scripts/generate_interface_schemas.py:153-260 | terminates on every import graph, and every row is what the statements of the files say: the last definition; else the last import, followed exactly when there is an unfollowed file; else the first star import that knows the name; else unknown |
| SymbolResolution.ResolveDescribes | scripts/generate_interface_schemas.py:182-260 | the resolved row of every name, with any set of followed keys, is the one the statements describe |
| SymbolResolution.ChainEnds | scripts/generate_interface_schemas.py:198-219 | from a top-level call a chain of explicit re-exports that ends at a definition is followed to that definition and its kind |
| SymbolResolution.StarsKnown | scripts/generate_interface_schemas.py:220-259 | the star loop finds a name exactly when some star module not yet followed leads to it |
| SymbolResolution.KnownExactly | scripts/generate_interface_schemas.py:153-260 | with any set of followed keys, a name is known exactly when a star path avoiding them provides it |
| SymbolResolution.TopLevelExact | scripts/generate_interface_schemas.py:153-260 | from a top-level call a name is not "unknown" exactly when the module, or one reachable by star imports, defines or re-exports it |
| DeclaredAll.SafeIsEval | scripts/generate_downstream_contracts.py:118-148 | where the predicate evaluator gives a value, short-circuiting evaluation gives the same |
| DeclaredAll.ResolveSequence | scripts/generate_downstream_contracts.py:151-207 | the evaluator with its row loops computes the sequence specification, or gives up with it |
| DeclaredAll.SupportedResolves | scripts/generate_downstream_contracts.py:151-207 | every expression made of known names, string displays with starred parts, `+`, `tuple`, `list` and comprehensions over the globals with supported conditions resolves |
| DeclaredAll.ComprehensionAgrees | scripts/generate_downstream_contracts.py:182-203 | a resolved comprehension over the globals selects, in order, what execution selects, if it rejects the names on which the two scopes may differ |
| DeclaredAll.ComprehensionExact | scripts/generate_downstream_contracts.py:182-203 | where the static scope only misses names, a resolved comprehension is right exactly when its conditions reject every name that was missed |
| DeclaredAll.ExprAgrees | scripts/generate_downstream_contracts.py:151-207 | a resolved expression holds the strings of its executed value, up to later duplicates |
| DeclaredAll.DeclaredAllOf | scripts/generate_downstream_contracts.py:225-337 | the statement loop terminates on every file map, cyclic relative imports included, and returns the specified declaration |
| DeclaredAll.StepKeeps | scripts/generate_downstream_contracts.py:242-329 | every statement keeps what the evaluator believes true of the executed module, submodule names that imports set in a package included |
| DeclaredAll.DeclaredIsExecuted | scripts/generate_downstream_contracts.py:225-337 | if nothing went stale or restarted, the declared names are the executed `__all__` with later duplicates dropped |
| DeclaredAll.PlainIsExecuted | scripts/generate_downstream_contracts.py:225-337 | so it is for every module that executes, whose helper sequences are bound only by plain assignment, whose `__all__` writes all resolve, and whose comprehensions reject the names the static scope misses |
| DeclaredAll.SupportedIsResolved | scripts/generate_downstream_contracts.py:225-337 | if every write to `__all__` has a supported operand where it stands, the evaluator resolves them all and does not fail |
| DeclaredAll.OrdinaryIsExecuted | scripts/generate_downstream_contracts.py:225-337 | by syntax and execution alone: for every module that executes, with supported writes and plainly bound helpers, the evaluator succeeds with the executed `__all__`, later duplicates dropped |
| DeclaredAll.DeclaredWhen | scripts/generate_downstream_contracts.py:330-337 | no declaration exactly when there is no recognised write to `__all__`; the error only after an unresolvable one |
| DeclaredAll.RestartStep | scripts/generate_downstream_contracts.py:294-295 | extending from a missing entry is right exactly when the executed list so far begins the extension, both without later duplicates |
| DeclaredAll.RestartExact | scripts/generate_downstream_contracts.py:286-337 | for every module whose `__all__` is lost by an unresolvable write, whatever list or tuple of strings that write gave, and then only extended by resolvable operands: the operands are what is declared, and that is right exactly when they begin with the list that was lost, later duplicates dropped |
| DeclaredAll.RestartIsUnsound | scripts/generate_downstream_contracts.py:294-308 | a concrete module, a computed list and then `+=`, whose declared names are only the extension |
| DeclaredAll.RestartingRestarts | scripts/generate_downstream_contracts.py:294-308 | that module is one to which the exact condition applies |
| DeclaredAll.GlobalsAreMissed | scripts/generate_downstream_contracts.py:199-203 | a concrete module whose writes all resolve and whose executed list also holds the names every module has |
| DeclaredAll.SubmodulesAreMissed | scripts/generate_downstream_contracts.py:253-281 | a concrete package whose writes all resolve and whose executed tuple also holds the submodule it imports from |
| DeclaredAll.DottedImportsDiffer | scripts/generate_downstream_contracts.py:114-115 | a concrete module with a dotted import, of which the evaluator records the last part and Python binds the first |
| LayerFacades.ResolveContract | scripts/generate_layer_facades.py:117-170 | member APIs win, the first by name among those with the agreed or the previously exported identity; each error exactly in its case |
| LayerFacades.AssignLayer | scripts/generate_layer_facades.py:247-258 | every name wanted at the layer's turn gets the one source its members, its previous facade and the layer below determine, or the failure they determine; only the layer below is asked for more |
| LayerFacades.Generate | scripts/generate_layer_facades.py:224-258 | demand only grows and sources stay admissible; if lower layers come later, every demanded name of every layer has its source |
| LayerFacades.NothingDangles | scripts/generate_layer_facades.py:224-258 | every assigned source exports the name once the facades are written |
| LayerFacades.Grounded | scripts/generate_layer_facades.py:157-168 | following the sources downwards meets each layer at most once and ends at a module that is not generated and really exports the name |
| EntrypointReachability.PackageParentClosure | scripts/audit_entrypoint_reachability.py:145-154 | the least set that holds the modules and, with every member, its known packages |
| EntrypointReachability.Reachable | scripts/audit_entrypoint_reachability.py:157-166 | terminates despite duplicate queue entries with the least set that holds the reached modules and, with every member, its known packages |
| EntrypointReachability.ReachedIsLeast | scripts/audit_entrypoint_reachability.py:157-166 | that reachable set is the least edge-closed set holding the known roots |
| EntrypointReachability.PackagesAttached | scripts/audit_entrypoint_reachability.py:434-447 | a known package of an attached module is attached |
| EntrypointReachability.ClosureOfUnion | scripts/audit_entrypoint_reachability.py:434-447 | the closure distributes over the union of root sets |
| EntrypointReachability.AuditAttachment | scripts/audit_entrypoint_reachability.py:443-476 | the three attachment closures together are one closure from all attachment roots, and the classes are read off it |
| EntrypointReachability.AuditPartitions | scripts/audit_entrypoint_reachability.py:458-476 | external-only and orphan modules split the unattached ones; research, test and extension only are disjoint parts of external-only, and the remainder is reached from tooling |
| ParentTopology.WalkParents | scripts/audit_system_integration.py:225-241 | always terminates; reports a cycle exactly when the chain never leaves the topology, an unresolved parent exactly when it ends at one, and nothing exactly when it ends at a system |
| ParentTopology.CycleClosed | scripts/audit_system_integration.py:229-231 | a chain that meets a key again never leaves |
| ParentTopology.BuildChildren | scripts/audit_system_integration.py:475-478 | each key is listed under its parent, in key order |
| ParentTopology.Descendants | scripts/audit_system_integration.py:480-487 | from a node that is not its own descendant: every proper descendant, each exactly once |
| ParentTopology.OwnDescendantIsCycle | scripts/audit_system_integration.py:221-241 | with systems and topology keys disjoint, a node that is its own descendant is on a chain the cycle walk reports |
| ParentTopology.WalkEndsIff | scripts/audit_system_integration.py:480-487 | the descendants walk ends exactly when the node is not its own descendant |
| ParentTopology.MutualNeverEnds | scripts/audit_system_integration.py:480-487 | on two keys that are each other's parent the cycle walk reports both, and the descendants walk from either never ends |

## Left out

- ChunkedBody.Decode: takes a number of rounds, because the loop of the source need not end; `EndsInTimeOrNever` says which number is always enough.
- RegressionRunner.StepsTowardsReturn: that a started shard ever ends is not stated; it depends on the tests.
- RegressionRunner.NeverRunsAgain: a crash of the runner is taken to end the shards it was running; a pytest process that outlives its runner is not modelled.
- ControlRequest.Always: the death of the supervisor itself, operating system errors that the code does not catch, and a second exception while the child runs the supervisor's clean-up are not steps; the text of a frame is reduced to its code and origin.
- DeclaredAll.PlainIsExecuted: a sufficient condition for whole modules. Execution covers straight-line modules; a list that `__all__` shares with another name, a helper list changed by `+=`, and values such as sets whose strings have no order are left open by the semantics, and nothing is claimed of them. Which submodules an import loads is given with the statement. The variant without a source path is not modelled.
- ShardGroups.PopLeast: removes a least entry from a list; the heap layout of `heapq` is not modelled.
- LayerFacades.Generate: if a lower layer is processed before its upper layer, only that sources stay admissible is stated.
- Processes, sockets, signals, file locks and files appear only as abstract steps (alive, exited, reaped; held, released; replaced as a whole).
- Parsing of Python sources and regular expressions: the models start from statements, imports and definitions.
- Rounding and unit conversion in the latency report; floating-point rounding of estimates.
- SHA-256 and JSON: a digest stands for what it is taken of, as if it were injective.
- Timing history, the task-group runtime and the single-flight lock, beyond what the modelled code relies on.
- Paths are names: test files as strings, modules as lists of dotted parts, relative imports as resolved files.
- Console output, argument parsing, and Markdown or Mermaid rendering.
- The build, packaging, server and synchronisation scripts and the remaining generators, audits and gates, which would add only one-branch facts.
