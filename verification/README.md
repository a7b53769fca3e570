# Verified model of the driver service

Dafny models of the parts of the driver delivery service whose correctness depends on more than one function: the
migration engine, the transactional outbox, the delivery and offer lifecycle, and the numeric and caching helpers.
Everything is stated over all inputs, all runs or all reachable states. `dafny verify dfyconfig.toml` checks the project.

## What is modelled

**Migration engine** (`DependencyGraphs`, `TopologicalSorting`, `CycleSearches`, `ExecutionPlanner`, `Database`,
`LifecycleSplit`, `MigrationPipeline`). Three independent depth-first searches over arbitrary graphs are written as
methods with the mutable sets and stacks of the source and proved correct and in agreement. Statements are a datatype
with a meaning on a database of tables, columns, types and values; conversion between types is a parameter. The split
into EXPAND, DATA and CONTRACT is proved to preserve that meaning exactly when every statement is `Faithful`, a
condition that can be checked on the database before the migration. `MigrationPipeline.PlanMigration` composes the
splitter, the plan builder and the planner.

**Outbox** (`OutboxModel`, `OutboxSafety`, `OutboxTiming`, `OutboxJanitor`, `OutboxTable`, `IdempotencyKeys`).
Publishers, any number of workers, stale-lock release, crashes and janitor runs are steps of a state machine with a clock
in milliseconds. Some properties hold in every interleaving. Others need the assumption `WithinLock`: every claim is settled or lost to a
crash within the lock timeout. `OutboxTable.Table` holds the SQL statements as methods on the rows, written with the
same row functions as the state machine.

**Deliveries** (`DeliveryModel`, `DeliverySafety`, `DeliveryEvents`, `DeliveryKeys`, `StaleSaves`,
`DriverlessDeliveries`, `DeliveryCompletion`, `DeliveryStore`). Transactions begin, lock rows one at a time, and commit
or abort at any point, so blocked, failing and deadlocked transactions are covered. A transaction's writes become visible at its commit. A new
code and the SLA monitor take two steps, a read without a lock and a later save. The janitor may move published keys to
the archive at any time. Runs with and without `assignDriver`, and with and without saves of outdated copies, are told
apart. `DeliveryStore.Store` holds the
operations row by row. An offer that the source calls PENDING is OFFERED here. An assignment also records the offer it
was made for.

**Circuit breaker** (`CircuitBreaker`). A call is a begin step and a finish step, so calls overlap.

**Helpers** (`FieldNames`, `PayloadTrees`, `PayloadCompression`, `DispatchScoring`, `ScoreCache`, `RevocationCache`,
`RevocationRuns`). Payloads are JSON trees with ordered fields; scores are reals; the revocation cache keeps the
insertion order of its entries, and checks overlap with each other and with changes in Redis.

## Where the code and its documentation differ

The models follow the code.

- NOT NULL additions are recognised by `ADD COLUMN` but taken apart by a pattern without `COLUMN`, so the documented
  three-step rewriting never happens and the statement runs unchanged in EXPAND. Without a default it fails there on a
  table with rows (`LifecycleSplit.NotNullFailsInExpand`).
- A renamed column gets the type VARCHAR when the type map does not know it, and a type change keeps only the leading
  word of the new type. Both are part of `LifecycleSplit.Faithful`.
- Settling an event has no lock guard, so COMPLETED is not terminal (`OutboxTiming.LateWriteUndoesCompletion`, and
  exactly when in `OutboxTiming.OnlyLateFailuresUndo`).
- A janitor run that crashes between saving and deleting blocks every later run until the archive is purged
  (`OutboxJanitor.StuckForGood`); a run gets through exactly when it selects no archived key
  (`OutboxJanitor.SelectionDecides`).
- The README shows a retry loop at FAILED; no status update leaves it, only a verified code, an assignment or an old
  copy written back (`StaleSaves.LeavingFailed`).
- `generateDeliveryOtp` and the SLA monitor read deliveries without a lock and save all of them later, so they can put a
  status back and make a later event disappear (`StaleSaves.StaleSaveRepeatsStatus`).
- A delivery can be ASSIGNED and beyond without a driver, because `updateStatus` may mark a pending one ASSIGNED
  (`DriverlessDeliveries.DriverlessDeliveriesOccur`, and exactly how in `DriverlessDeliveries.DriverlessExactlyBy`).
- A comment in `assignDriver` expects its event to be merged with the one of `acceptOffer`; the keys never agree
  (`IdempotencyKeys.AssignedEventsAreNotMerged`). What is merged is a second `assignDriver` of the same order
  while the first event is in the hot table (`DeliveryKeys.DroppedExactlyWhenAnnounced`).
- The half-open limit of the circuit breaker rejects every call when it is zero and none when it is positive
  (`CircuitBreaker.HalfOpenLimitFiresOnlyAtZero`).
- Dropping a column with a name like `updated_at` counts as data and runs before CONTRACT
  (`LifecycleSplit.DropsThatLookLikeData`).
- A configured scoring weight of zero is replaced by its default, so configured weights that sum to 1 can give scores
  above 100, exactly when one of them is zero (`DispatchScoring.ConfiguredScoreInRange`).
- `cleanPayload` is documented to remove empty arrays; it keeps them (`PayloadCompression.ArraysStay`).

## Model

| member | source | states |
|---|---|---|
| TopologicalSorting.TopologicalSort | scripts/migration-engine/execution-planner.ts:94-133 | throws exactly when the graph restricted to the listed operations has a cycle, naming a node of one; otherwise each listed operation once, after all its listed dependencies; a list already in order comes back without its repetitions |
| TopologicalSorting.Search.Visit | scripts/migration-engine/execution-planner.ts:102-123 | one call of `visit`: a finished node is in the result after its dependencies, and a throw names a node on a cycle |
| TopologicalSorting.InOrderMeansAcyclic | scripts/migration-engine/execution-planner.ts:94-133 | an order that respects its dependencies certifies that the restricted graph has no cycle |
| CycleSearches.PlanSearch.Dfs | scripts/migration-engine/migration-execution-plan.ts:206-230 | one call of `dfs`: either the node and all it reaches are finished and the path is restored, or a genuine cycle without repeated nodes |
| CycleSearches.FindCycle | scripts/migration-engine/migration-execution-plan.ts:199-238 | null exactly on acyclic graphs; any list returned is a closed path of edges that repeats no node |
| CycleSearches.GraphSearch.Dfs | scripts/migration-engine/operation-graph.ts:254-280 | the same for `validateGraph`, which also says that the cycle is reachable from the root of the search |
| CycleSearches.ValidateGraph | scripts/migration-engine/operation-graph.ts:246-291 | invalid exactly when a listed node reaches a cycle, and then the single reported list is such a cycle |
| CycleSearches.FinishedGraph | scripts/migration-engine/operation-graph.ts:246-291 | when every root is finished without a cycle on the stack, no root reaches a cycle |
| CycleSearches.AllKeysAreRoots | scripts/migration-engine/migration-execution-plan.ts:232-235 | starting from all keys of the map misses no cycle |
| CycleSearches.SearchesAgree | scripts/migration-engine/migration-execution-plan.ts:199-238 | `validateGraph`, `findCycle` and the topological sort accept the same graphs when the node lists are complete |
| ExecutionPlanner.SetExplicit | scripts/migration-engine/execution-planner.ts:71-74 | a statement depends on `d` exactly when the last operation with that statement lists `d` |
| ExecutionPlanner.AddPhaseDependencies | scripts/migration-engine/execution-planner.ts:76-86 | the loops over phases add exactly that each operation of a phase depends on the order of the phase before it |
| ExecutionPlanner.BuildFromPhases | scripts/migration-engine/migration-execution-plan.ts:58-134 | the built plan: concatenated phase orders, and exactly the dependencies that the phases' own operations list last or that lead to the phase before |
| ExecutionPlanner.ValidatePlan | scripts/migration-engine/migration-execution-plan.ts:163-194 | valid exactly when the dependencies are acyclic and the order is the concatenation of the phases; reports a genuine cycle exactly when there is one, and exactly the operations missing from the order, each once |
| ExecutionPlanner.GroupByPhases | scripts/migration-engine/execution-planner.ts:138-148 | the names of the phases that have an executed statement, in phase order |
| ExecutionPlanner.ResolveExecutionOrder | scripts/migration-engine/execution-planner.ts:41-61 | refuses exactly when listed statements depend on each other in a cycle, through the last listed dependencies or through neighbouring phases, and names one of such a cycle; otherwise each listed statement once, after every listed statement it depends on; a plan already in order keeps its order |
| ExecutionPlanner.LastOneCounts | scripts/migration-engine/execution-planner.ts:71-74 | by index: the explicit dependencies of a statement are those of the last operation that has it |
| ExecutionPlanner.LinksArePhaseBefore | scripts/migration-engine/execution-planner.ts:76-86 | linking adds exactly the dependencies from a phase's operations to the order of the phase right before, for all phases |
| ExecutionPlanner.PlannerEdges | scripts/migration-engine/execution-planner.ts:66-89 | the sorted graph has exactly the listed and phase dependencies between listed statements |
| ExecutionPlanner.DependencyCycles | scripts/migration-engine/execution-planner.ts:94-133 | a cycle of the sorted graph is a cycle of listed statements over exactly these dependencies |
| ExecutionPlanner.OrderRespectsPlan | scripts/migration-engine/execution-planner.ts:94-133 | an order is topological for the graph exactly when no listed statement stands before one it depends on |
| ExecutionPlanner.WithoutListsTheRest | scripts/migration-engine/migration-execution-plan.ts:178-190 | the reported missing operations are exactly those outside the order |
| ExecutionPlanner.PhasesPresentAppend | scripts/migration-engine/execution-planner.ts:138-148 | phase names are collected phase by phase, each exactly when it has an executed statement |
| ExecutionPlanner.PhaseEdges | scripts/migration-engine/execution-planner.ts:66-89 | the edges of the linked graph are the explicit ones and those from a phase to the one before, nothing else |
| ExecutionPlanner.PhasedEdges | scripts/migration-engine/execution-planner.ts:41-89 | for plans without explicit dependencies the sorted graph has exactly the edges between neighbouring phases |
| ExecutionPlanner.SharedStatementCycle | scripts/migration-engine/execution-planner.ts:76-86 | a statement in two phases depends on itself through the phases between |
| ExecutionPlanner.ConcatenationInOrder | scripts/migration-engine/execution-planner.ts:41-89 | without a shared statement the concatenation of the phases puts every dependency first |
| ExecutionPlanner.PhasedPlanResolution | scripts/migration-engine/execution-planner.ts:41-61 | such a plan is refused exactly when one statement occurs in two phases; otherwise its order is already in dependency order |
| ExecutionPlanner.ValidPlansAreTheOrderableOnes | scripts/migration-engine/migration-execution-plan.ts:163-194 | plan validation and the planner reject the same phased plans, although they build their graphs differently |
| ExecutionPlanner.PhasesStaySeparate | scripts/migration-engine/execution-planner.ts:41-89 | every statement of an earlier phase is executed before every statement of a later one, although only neighbours are linked |
| Database.ExecFrame | scripts/migration-engine/lifecycle-split.ts:203-316 | a statement changes no column that it does not name |
| Database.ExecLocal | scripts/migration-engine/lifecycle-split.ts:203-316 | success and effect of a statement depend only on the columns it names |
| Database.ScriptsCommute | scripts/migration-engine/lifecycle-split.ts:31-99 | scripts that name no common column can be exchanged, errors included |
| Database.RegroupParts | scripts/migration-engine/lifecycle-split.ts:31-99 | six script parts give the same result taken by phase or by origin, when the exchanged parts share no column |
| Database.ExecKeepsTypes | scripts/migration-engine/lifecycle-split.ts:203-316 | every statement keeps each column's values converted to the column's type |
| LifecycleSplit.RenameAlone | scripts/migration-engine/lifecycle-split.ts:203-254 | add, copy, drop equals the rename exactly when the type given to the new column is the type of the old one |
| LifecycleSplit.CopyToNew | scripts/migration-engine/lifecycle-split.ts:222-242 | EXPAND and DATA of a rename fill the new column with the old values in the detected type |
| LifecycleSplit.DropOld | scripts/migration-engine/lifecycle-split.ts:243-252 | CONTRACT of a rename gives the renamed table exactly when the new column holds the old data |
| LifecycleSplit.FillTemp | scripts/migration-engine/lifecycle-split.ts:276-296 | EXPAND and DATA of a type change fill the temporary column with the converted values |
| LifecycleSplit.SwapTemp | scripts/migration-engine/lifecycle-split.ts:297-314 | CONTRACT of a type change puts the temporary column in the place of the original |
| LifecycleSplit.ChangeTypeAlone | scripts/migration-engine/lifecycle-split.ts:263-316 | add, cast, drop, rename equals the type change exactly when the type is one word and no column has the temporary name, or the type is not recognised at all |
| LifecycleSplit.AloneMeansStatement | scripts/migration-engine/lifecycle-split.ts:43-91 | for any one statement its three parts in order mean the statement exactly when it is `Faithful` |
| LifecycleSplit.RewriteNames | scripts/migration-engine/lifecycle-split.ts:145-316 | a rewriting names only the columns of its statement and the temporary one |
| LifecycleSplit.Regroup | scripts/migration-engine/lifecycle-split.ts:31-99 | running by phase is running all of the first statement's parts and then the rest by phase |
| LifecycleSplit.DifferenceRemains | scripts/migration-engine/lifecycle-split.ts:31-99 | a column that one split statement got wrong is still wrong at the end |
| LifecycleSplit.SplitPreservesMeaning | scripts/migration-engine/lifecycle-split.ts:31-99 | for statements on pairwise disjoint columns, EXPAND then DATA then CONTRACT gives the database of the original order exactly when every statement is `Faithful` at the start |
| LifecycleSplit.AloneFails | scripts/migration-engine/lifecycle-split.ts:203-316 | where a statement fails its three parts fail, unless it renames a column to its own name |
| LifecycleSplit.SplitFailsToo | scripts/migration-engine/lifecycle-split.ts:31-99 | on disjoint columns a migration that fails as written fails when split |
| LifecycleSplit.SplitIsExact | scripts/migration-engine/lifecycle-split.ts:31-99 | on disjoint columns, failing migrations included: splitting makes no difference exactly when the migration fails as written or every statement is `Faithful` at the start |
| LifecycleSplit.RenameIsSplit | scripts/migration-engine/lifecycle-split.ts:203-256 | a rename becomes an addition with the type the map has for the column, VARCHAR without an entry, a copy and a drop |
| LifecycleSplit.TypeChangeIsSplit | scripts/migration-engine/lifecycle-split.ts:263-316 | a change to a one-word type becomes an addition, a cast, a drop and a rename over a column with the suffix `_v2` |
| LifecycleSplit.LeadingWordIsLongest | scripts/migration-engine/lifecycle-split.ts:266-273 | what is kept of a type is its longest prefix of letters, digits and underscores |
| LifecycleSplit.OddTypeIsNotSplit | scripts/migration-engine/lifecycle-split.ts:268-269 | a type that starts with no such character leaves its change whole in EXPAND |
| LifecycleSplit.OthersAreKept | scripts/migration-engine/lifecycle-split.ts:487-498 | the other statements go whole into the phase of their class |
| LifecycleSplit.DropsAreKept | scripts/migration-engine/lifecycle-split.ts:487-498 | a drop goes into DATA exactly when a name in it contains update, insert or delete in any case, otherwise into CONTRACT |
| LifecycleSplit.PhasesAppend | scripts/migration-engine/lifecycle-split.ts:43-91 | the phases of a migration are those of its statements one after another |
| LifecycleSplit.FittingMapPreservesMeaning | scripts/migration-engine/lifecycle-split.ts:220-256 | with a type map that holds the types of the database every working migration of renames, additions and drops on disjoint columns means the same when split |
| LifecycleSplit.SelfRenamesFail | scripts/migration-engine/lifecycle-split.ts:203-256 | a migration that works renames no column to its own name |
| LifecycleSplit.SelfRenameSucceedsWhenSplit | scripts/migration-engine/lifecycle-split.ts:203-256 | renaming a missing column to its own name fails as written and succeeds when split |
| LifecycleSplit.DropsThatLookLikeData | scripts/migration-engine/lifecycle-split.ts:487-498 | dropping a column with update, insert or delete in its name runs in DATA, not in CONTRACT |
| LifecycleSplit.OverlapBreaksTheSplit | scripts/migration-engine/lifecycle-split.ts:31-99 | disjointness is needed: dropping a column and adding it again works as written and fails when split |
| LifecycleSplit.NotNullFailsInExpand | scripts/migration-engine/lifecycle-split.ts:104-106 | on a table with rows, a migration with a NOT NULL addition without a default already fails in its EXPAND phase |
| LifecycleSplit.ExpandSucceedsExactlyIfEachDoes | scripts/migration-engine/lifecycle-split.ts:31-99 | on disjoint columns EXPAND succeeds exactly when each statement's part of it succeeds on its own |
| LifecycleSplit.NotNullInExpand | scripts/migration-engine/lifecycle-split.ts:104-106 | a NOT NULL addition succeeds in EXPAND exactly on an existing table without the column that is empty or with a default of the type |
| LifecycleSplit.LifecycleSplitter.constructor | scripts/migration-engine/lifecycle-split.ts:24-26 | a new splitter has an empty type map |
| LifecycleSplit.LifecycleSplitter.Split | scripts/migration-engine/lifecycle-split.ts:31-99 | the loop distributes each statement's parts over the phases, drops empty phases, and keeps a type map once given |
| MigrationPipeline.DistributeScripts | scripts/migration-engine/lifecycle-split.ts:43-96 | the phase objects carry exactly the three phase scripts |
| MigrationPipeline.SplitPhasesShape | scripts/migration-engine/lifecycle-split.ts:93-98 | the phases are non-empty, list their own statements, and concatenate to EXPAND, DATA, CONTRACT |
| MigrationPipeline.SplitPhaseNames | scripts/migration-engine/lifecycle-split.ts:58-99 | each phase carries exactly the script of its name, no phase is empty and no name occurs twice |
| MigrationPipeline.SplitHasNoRepetition | scripts/migration-engine/lifecycle-split.ts:31-99 | no statement occurs twice in the split of statements on disjoint columns |
| MigrationPipeline.SplitPlansResolve | scripts/migration-engine/execution-planner.ts:41-89 | the plan of such a split is acyclic and is executed in exactly the order EXPAND, DATA, CONTRACT |
| MigrationPipeline.PlanMigration | scripts/migration-engine/execution-planner.ts:41-61 | end to end: an order is always found, and executing it gives what the original migration gives exactly when that fails or every statement is `Faithful` |
| OutboxSafety.SafeStep | src/domain-events/outbox.worker.ts:167-381 | every step keeps the row invariant: PROCESSING exactly with both lock columns, retries below 10 until FAILED, COMPLETED only after a successful handler run |
| OutboxSafety.PublishKeepsKeys | src/domain-events/outbox.service.ts:47-89 | publishing adds its key to the committed ones and loses none |
| OutboxSafety.SaveBatchKeepsKeys | src/domain-events/outbox-janitor.service.ts:87-121 | saving a slice adds exactly the keys of the next selected rows to the archive, moves the run on by the slice, and loses no key |
| OutboxSafety.DeleteKeepsKeys | src/domain-events/outbox-janitor.service.ts:124-137 | deleting the selected rows loses no key, because each is archived or purged |
| OutboxSafety.SelectKeepsKeys | src/domain-events/outbox-janitor.service.ts:60-83 | a run starts with the keys of the rows it selected |
| OutboxSafety.PurgeKeepsKeys | src/domain-events/outbox-janitor.service.ts:204-229 | the retention purge moves keys from the archive to the purged ones only |
| OutboxSafety.NothingLostStep | src/domain-events/outbox-janitor.service.ts:60-140 | after every step each committed key is in the hot table, in the archive or purged after retention |
| OutboxSafety.ReachableStatesAreSafe | src/domain-events/outbox.worker.ts:167-381 | in every reachable state, whatever the timing: PROCESSING exactly when both lock columns are set; PENDING or PROCESSING at most 9 retries; FAILED exactly 10; COMPLETED after a success; no committed key lost |
| OutboxSafety.BlockedRunsNeverDelete | src/domain-events/outbox-janitor.service.ts:107-137 | whatever steps are interleaved, short of a purge, a blocked run stays blocked or is abandoned, and never deletes |
| OutboxJanitor.KeysStayUnique | src/domain-events/outbox.service.ts:56-68 | in every reachable state no two hot rows share a key, and no run has selected a key twice |
| OutboxJanitor.UnblockedRunsGetThrough | src/domain-events/outbox-janitor.service.ts:87-140 | with unique keys, a run's own slice saves lead to its delete exactly when no row it still has to save is archived |
| OutboxJanitor.RunsGetThroughUnlessBlocked | src/domain-events/outbox-janitor.service.ts:87-140 | the same in every reachable state |
| OutboxJanitor.SelectionDecides | src/domain-events/outbox-janitor.service.ts:60-140 | a run left to itself gets through exactly when no key it selects is archived at its start |
| OutboxJanitor.SelectableRows | src/domain-events/outbox-janitor.service.ts:60-75 | a run may select exactly different completed rows created more than an hour ago |
| OutboxJanitor.PurgedRows | src/domain-events/outbox-janitor.service.ts:217-223 | the hard delete takes exactly the rows archived before its cutoff |
| OutboxJanitor.DeleteIsReached | src/domain-events/outbox-janitor.service.ts:87-137 | from every reachable state with an unblocked run a state is reachable in which it can delete |
| OutboxJanitor.CrashBlocksTheNextRun | src/domain-events/outbox-janitor.service.ts:107-137 | blocked runs occur: a run that crashes between its saves and its delete blocks the next one, also within the timing assumption |
| OutboxJanitor.CrashGetsStuck | src/domain-events/outbox-janitor.service.ts:60-140 | a crash of the only run after it has archived a row that is still eligible leaves the outbox stuck |
| OutboxJanitor.StuckStep | src/domain-events/outbox-janitor.service.ts:60-83 | within the timing assumption and with every eligible row selected, no step short of a purge frees a stuck outbox or deletes |
| OutboxJanitor.StuckForGood | src/domain-events/outbox-janitor.service.ts:60-140 | so, however many runs follow, none ever deletes a row until the archive is purged |
| OutboxJanitor.StuckOutboxesOccur | src/domain-events/outbox-janitor.service.ts:107-137 | such states are reachable |
| OutboxTiming.TakeKeepsTimed | src/domain-events/outbox.worker.ts:183-265 | a claim makes its worker the one live holder, no earlier than the last failure plus its backoff |
| OutboxTiming.FailKeepsTimed | src/domain-events/outbox.worker.ts:312-381 | a recorded failure keeps the counters and the distances between failures |
| OutboxTiming.CompleteKeepsTimed | src/domain-events/outbox.worker.ts:300-310 | a completion is counted once and ends the holding |
| OutboxTiming.CrashKeepsTimed | src/domain-events/outbox.worker.ts:167-181 | a crash is counted and ends the holding, leaving the lock to expire |
| OutboxTiming.ReleaseKeepsTimed | src/domain-events/outbox.worker.ts:167-181 | releasing a stale lock takes it from nobody, since live holders are within their lock |
| OutboxTiming.TimedStep | src/domain-events/outbox.worker.ts:167-381 | every step within the timing assumption keeps holders, counters and distances consistent |
| OutboxTiming.OneLiveHolder | src/domain-events/outbox.worker.ts:167-265 | a row has at most one live holder, which is the worker in its lock columns, and its lock has not expired |
| OutboxTiming.AttemptsAreBounded | src/domain-events/outbox.worker.ts:312-381 | claims of a row number at most 10 plus those lost to crashes; without structural errors the retry count is the number of recorded failures |
| OutboxTiming.FailedNoEarlierThan | src/domain-events/outbox.worker.ts:365-397 | an event that FAILED without a structural error failed ten times, the last at least 810 s after the first |
| OutboxTiming.BackoffIsRespected | src/domain-events/outbox.worker.ts:183-204 | attempt k + 1 starts no earlier than 2, 4, 8, 16, 32, 64, 128, 256 or 300 s after failure k, also after stale-lock releases |
| OutboxTiming.RetryTimes | src/domain-events/outbox.worker.ts:362-397 | a row waiting after failure k has its next attempt set to exactly 2, 4, .., 256 or 300 s after that failure |
| OutboxModel.FailureInNumbers | src/domain-events/outbox.worker.ts:312-397 | what one failure writes, in numbers: nine retries with these delays, then FAILED, and FAILED with ten on a structural error |
| OutboxTiming.CompletedIsFinal | src/domain-events/outbox.worker.ts:300-310 | within the timing assumption a completed row stays completed until it is removed |
| OutboxTiming.OnlyLateFailuresUndo | src/domain-events/outbox.worker.ts:312-381 | without the assumption a step undoes a completion exactly when it is a failure written by a claim of that row still in memory |
| OutboxTiming.LateWriteUndoesCompletion | src/domain-events/outbox.worker.ts:300-309 | a reachable state in which a worker whose lock expired puts a completed event back to PENDING |
| OutboxTable.Table.ReleaseStaleLocks | src/domain-events/outbox.worker.ts:167-181 | makes PENDING and unlocks exactly the PROCESSING rows locked more than 120 s ago, and changes no other row |
| OutboxTable.Table.FirstOf | src/domain-events/outbox.worker.ts:193-204 | finds a row that no other precedes in the claim order |
| OutboxTable.ClaimOrder | src/domain-events/outbox.worker.ts:197-201 | the claim order in terms of HIGH, MEDIUM, LOW and creation time only |
| OutboxTable.Table.ClaimBatch | src/domain-events/outbox.worker.ts:183-265 | locks exactly the first `limit` due rows that nobody else has locked: no HIGH row waits behind a MEDIUM or LOW one, no MEDIUM row behind a LOW one, and no older row behind a younger one of its priority, neither within the batch nor between the batch and the rows left over |
| OutboxTable.Table.MarkCompleted | src/domain-events/outbox.worker.ts:300-310 | completes and unlocks the row whoever holds it; a row that is gone stays gone |
| OutboxTable.Table.HandleFailure | src/domain-events/outbox.worker.ts:312-381 | FAILED at the tenth retry or on a structural error, otherwise PENDING with the next attempt 2, 4, .., 256 or 300 s later, and unlocked; nothing else changes |
| OutboxTable.Table.ArchiveCompletedEvents | src/domain-events/outbox-janitor.service.ts:87-140 | succeeds exactly when the selected keys are new to the archive and different and no crash comes before the delete; then everything is archived once and deleted. Otherwise nothing is deleted, the slices before the crash or before the first slice that clashes are archived, and nothing else |
| OutboxTable.SucceedsMeans | src/domain-events/outbox-janitor.service.ts:87-140 | success in plain terms: all keys new and different, and no crash before any slice of 100 or before the delete |
| OutboxTable.ArchivedMeans | src/domain-events/outbox-janitor.service.ts:90-110 | archiving adds exactly the selected keys with the present time and keeps every other entry |
| OutboxTable.StoppedMeans | src/domain-events/outbox-janitor.service.ts:87-121 | a run that gives up has archived whole slices of 100 or everything; without a crash the next 100 rows hold a key that is archived or repeated |
| OutboxTable.ClashingSlice | src/domain-events/outbox-janitor.service.ts:87-121 | a slice that the unique key of the archive rejects shows that the selection as a whole clashes |
| OutboxTable.SuccessIsARunOfSteps | src/domain-events/outbox-janitor.service.ts:87-140 | a successful archive run is a run of slice saves and a delete of the state machine |
| OutboxTable.GivingUpIsARunOfSteps | src/domain-events/outbox-janitor.service.ts:87-140 | a run that gives up is a run of slice saves of the state machine and a crash |
| OutboxTable.BatchIsARunOfTakes | src/domain-events/outbox.worker.ts:183-265 | claiming a batch is a run of single claims of the state machine |
| IdempotencyKeys.KeysIdentify | src/domain-events/outbox.service.ts:175-200 | two keys are the same string exactly when event type, key class and identifying fields agree, given valid event types and delivery ids without a marker |
| IdempotencyKeys.KeyStrings | src/domain-events/outbox.service.ts:175-200 | the key as a string from the payload: the seller order first, then delivery and driver, delivery and proof, the delivery alone, the time |
| IdempotencyKeys.KeyClasses | src/domain-events/outbox.service.ts:181-199 | the class and fields of the key from the payload fields |
| IdempotencyKeys.ValidEventTypes | src/domain-events/outbox.service.ts:91-93 | valid event types are exactly the words of capitals and underscores followed by `_V1`, `_V2` or `_V3` |
| IdempotencyKeys.MarkedIdsAreConfused | src/domain-events/outbox.service.ts:183-191 | a delivery id occurs in a key that is also the key of a shorter id exactly when, with a colon behind it, it contains `:driver:` or `:proof:` |
| IdempotencyKeys.ColonFreeIdsAreUnmarked | src/domain-events/outbox.service.ts:183-191 | ids without a colon are never confused |
| IdempotencyKeys.ColonsConfuseKeys | src/domain-events/outbox.service.ts:183-191 | an id with a colon can imitate another key class |
| IdempotencyKeys.ValidTypesAreColonFree | src/domain-events/outbox.service.ts:91-93 | a valid versioned event type contains no colon |
| IdempotencyKeys.OutboxService.Publish | src/domain-events/outbox.service.ts:47-89 | refuses invalid event types, drops known keys without a trace, and otherwise adds one row |
| IdempotencyKeys.PublishingTwiceIsOnce | src/domain-events/outbox.service.ts:59-68 | publishing an event with the same stable fields again changes nothing |
| IdempotencyKeys.DropoffProofIsSwallowed | src/deliveries/delivery-events.notifier.ts:19-47 | the drop-off proof of a driver and delivery shares the pickup proof's key, so it is swallowed |
| IdempotencyKeys.AssignedEventsAreNotMerged | src/deliveries/deliveries.service.ts:255-260 | the ASSIGNED keys of `acceptOffer` and `assignDriver` never agree |
| DeliverySafety.AcceptKeepsConsistent | src/deliveries/delivery-state-machine.service.ts:79-107 | accepting an offer on a checked delivery keeps one accepted offer per delivery and one assignment per accepted offer |
| DeliverySafety.PlainCommitMoves | src/deliveries/deliveries.service.ts:199-226 | the other operations change one delivery at most, never remove a driver and never return to PENDING |
| DeliverySafety.CommitFrame | src/deliveries/delivery-state-machine.service.ts:45-128 | a commit changes only rows its transaction has locked |
| DeliverySafety.OthersStayProtected | src/deliveries/delivery-state-machine.service.ts:45-74 | what another transaction has checked stays true across a commit |
| DeliverySafety.SafeStep | src/deliveries/delivery-state-machine.service.ts:41-131 | every step keeps the tables consistent and every running transaction's checks true |
| DeliverySafety.NothingLeftToAccept | src/deliveries/delivery-state-machine.service.ts:79-116 | after an acceptance that expired all competitors no offer of the delivery can be accepted, other offers are untouched and exactly the driver became busy |
| DeliverySafety.RepeatsChangeNothing | src/deliveries/deliveries.service.ts:347-352 | repeating a status update or a verification succeeds and changes nothing |
| DeliverySafety.OneAcceptedOffer | src/deliveries/delivery-state-machine.service.ts:31-131 | in every reachable state, with `assignDriver` and aborts: no delivery has two accepted offers, each accepted offer has exactly one assignment made for it, and its delivery has a driver and is not pending |
| DeliveryEvents.EnterAndPublish | src/deliveries/deliveries.service.ts:466-570 | entering a status of higher rank keeps journals increasing, and its event is not swallowed |
| DeliveryEvents.EventTypesDiffer | src/deliveries/deliveries.service.ts:677-700 | different statuses have different event types |
| DeliveryEvents.OrderlyStep | src/deliveries/deliveries.service.ts:329-430 | without `assignDriver` and stale saves every step keeps statuses increasing and nothing swallowed |
| DeliveryEvents.SameDriverStep | src/deliveries/delivery-state-machine.service.ts:79-88 | without `assignDriver` an accepted delivery keeps the driver of its accepted offer |
| DeliveryEvents.LifecycleEventsSurvive | src/deliveries/deliveries.service.ts:60-75 | without `assignDriver` and without a save of a delivery whose status has changed since it was read, and with unique seller orders, a delivery enters each status at most once and no lifecycle event is swallowed |
| DeliveryEvents.AcceptedDriverStays | src/deliveries/delivery-state-machine.service.ts:79-88 | without `assignDriver` an accepted delivery keeps the driver of its accepted offer, also when old copies are written back |
| StaleSaves.SaveKeepsProgressExactlyWhenUpToDate | src/deliveries/deliveries.service.ts:292-311 | a late save keeps the statuses of a delivery progressing exactly when its status has not changed since it was read |
| StaleSaves.UpdateRuns | src/deliveries/deliveries.service.ts:466-576 | a status update that nothing disturbs runs to its commit and leaves no lock behind |
| StaleSaves.StaleSaveRepeatsStatus | src/deliveries/sla-monitor.service.ts:32-63 | from every reachable state with an assigned delivery that is not locked, a pick-up between a read and its save, for a new code or by the monitor, makes the next pick-up event disappear |
| StaleSaves.StaleSavesSwallowEvents | src/deliveries/sla-monitor.service.ts:32-63 | such states are reachable, so without `assignDriver` events do get swallowed once the monitor saves an old copy |
| StaleSaves.LeavingFailed | src/deliveries/deliveries.service.ts:60-75 | a FAILED delivery leaves that status exactly by a verified code, an assignment or a save of an earlier copy, never by a status update |
| DeliveryKeys.FitStep | src/domain-events/outbox.service.ts:47-89 | every step keeps orders unique, every key one of a known event type and an existing delivery, and announced statuses equal to those whose order key was ever published |
| DeliveryKeys.DroppedExactlyWhenAnnounced | src/deliveries/deliveries.service.ts:255-271 | in every run, the event of an entered status is dropped exactly when its key is in the hot table; unless that key has been archived, exactly when the same status of the delivery was announced before |
| DeliveryKeys.KeysAreComparedAsStrings | src/domain-events/outbox.service.ts:57-61 | given delivery ids without a marker, published keys are well formed and the string of a well-formed key matches no other published key |
| DeliveryKeys.StatusEventKey | src/deliveries/deliveries.service.ts:550-569 | the event of a status, whatever else its payload holds, has the key of its seller order and is added or, when the key is hot, dropped |
| DeliveryKeys.AcceptanceEventKey | src/deliveries/delivery-state-machine.service.ts:118-122 | the event of an acceptance, without a seller order id, has the key of its delivery and driver |
| DeliveryEvents.ReassignmentIsSwallowed | src/deliveries/deliveries.service.ts:199-226 | assigning a delivery again while the first ASSIGNED event is in the hot table swallows the second one and enters the status twice |
| DeliveryEvents.AssignedWithoutDriverStaysWithout | src/deliveries/deliveries.service.ts:466-503 | a delivery past PENDING without a driver gets none without `assignDriver` |
| DriverlessDeliveries.DriverlessExactlyBy | src/deliveries/deliveries.service.ts:466-503 | in every run a delivery comes under way without a driver exactly when `updateStatus` marks a pending one ASSIGNED or the SLA monitor writes back a copy that had none |
| DriverlessDeliveries.DriverlessOnlyByUpdate | src/deliveries/deliveries.service.ts:60-75 | without `assignDriver` and outdated saves exactly by that status update |
| DriverlessDeliveries.NewDeliveriesAreNot | src/deliveries/deliveries.service.ts:113-132 | a delivery is not created that way |
| DriverlessDeliveries.DriverlessDeliveriesOccur | src/deliveries/deliveries.service.ts:466-503 | an ASSIGNED delivery without a driver is reachable, without `assignDriver` and outdated saves |
| DriverlessDeliveries.PlausibleStep | src/deliveries/deliveries.service.ts:199-226 | codes belong to deliveries with a driver, and pending deliveries have none, after every step |
| DeliveryStore.Store.AcceptOffer | src/deliveries/delivery-state-machine.service.ts:41-131 | each error exactly under its own condition and without effect; otherwise the offer is accepted, every competing offer expires and no other changes, the delivery and the driver are assigned, and the event of delivery and driver is published |
| DeliveryStore.Store.AssignDriver | src/deliveries/deliveries.service.ts:199-271 | checks only that the delivery exists, assigns it with a new code and publishes the event of its order |
| DeliveryStore.Store.UpdateStatusInternal | src/deliveries/deliveries.service.ts:466-576 | no effect in the target status, an error exactly for moves outside the ten of the table, otherwise enters the status and publishes its event if it has one |
| DeliveryStore.Store.VerifyOtp | src/deliveries/deliveries.service.ts:329-430 | for a delivery not yet delivered it succeeds exactly with the stored code near the destination, each error under its own condition; then the delivery is delivered, from any status, its code is gone and its event published |
| DeliveryStore.Store.LoadForOtp | src/deliveries/deliveries.service.ts:295-307 | refuses exactly unknown, driverless, delivered and cancelled deliveries, each with its error, and otherwise hands out the delivery as read |
| DeliveryStore.Store.LoadForSla | src/deliveries/sla-monitor.service.ts:33-52 | selects the deliveries that are assigned, picked up or in transit, whether they have a driver or not |
| DeliveryStore.Store.SaveCopy | src/deliveries/sla-monitor.service.ts:59-63 | writes a whole delivery as it was read, with a new code if there is one, a changed status or driver included |
| DeliveryStore.AllowedMoves | src/deliveries/deliveries.service.ts:60-76 | the transition table is the list of ten moves |
| DeliveryStore.AnnouncedStatuses | src/deliveries/deliveries.service.ts:687-700 | five statuses are announced, with these event types |
| DeliveryCompletion.DeliveredExactlyBy | src/deliveries/deliveries.service.ts:329-430 | in every run a delivery becomes DELIVERED exactly when a verification commits with its stored code near the destination or a status update commits from PICKED_UP or IN_TRANSIT; no late save holds a DELIVERED copy |
| DeliveryCompletion.VerificationCommits | src/deliveries/deliveries.service.ts:355-393 | a verification can commit exactly with the stored code near the destination, or without effect on a delivered delivery |
| DeliveryCompletion.UpdateCommits | src/deliveries/deliveries.service.ts:466-503 | a status update can commit exactly for the ten moves, or without effect in its target status |
| DeliveryCompletion.AcceptanceCommits | src/deliveries/delivery-state-machine.service.ts:41-122 | an acceptance can commit exactly when its offer and its pending, driverless delivery are locked |
| DeliveryCompletion.AcceptanceLocks | src/deliveries/delivery-state-machine.service.ts:41-105 | an acceptance locks its own open offer in time, then the free delivery, then open offers for the same delivery, each exactly under these conditions |
| DeliveryCompletion.OfferStatusChanges | src/deliveries/delivery-state-machine.service.ts:78-116 | an offer changes exactly by its own acceptance, by the acceptance of a competitor that has locked it, or by expiry past its time |
| CircuitBreaker.CircuitBreakerState.BeginCall | src/domain-events/circuit-breaker.service.ts:36-66 | the part of a call before its handler: recovery to HALF_OPEN, rejection or admission |
| CircuitBreaker.CircuitBreakerState.OnSuccess | src/domain-events/circuit-breaker.service.ts:137-150 | a success closes a half-open circuit with no failures, leaves state and failures otherwise, and counts |
| CircuitBreaker.CircuitBreakerState.OnFailure | src/domain-events/circuit-breaker.service.ts:152-175 | a failure is counted and timed, and opens the circuit exactly at the threshold, in whatever state it comes |
| CircuitBreaker.RunsAreCoherent | src/domain-events/circuit-breaker.service.ts:36-175 | in every run CLOSED holds exactly below the threshold and HALF_OPEN only with a zero counter |
| CircuitBreaker.HalfOpenLimitFiresOnlyAtZero | src/domain-events/circuit-breaker.service.ts:55-62 | with any configuration the half-open branch rejects a call exactly when the circuit is half open for it and the limit is zero |
| CircuitBreaker.HalfOpenLimitNeverFires | src/domain-events/circuit-breaker.service.ts:55-62 | with a positive threshold and limit the half-open branch rejects no call, and CLOSED holds exactly below the threshold |
| CircuitBreaker.HalfOpenAdmitsAll | src/domain-events/circuit-breaker.service.ts:55-62 | with a positive limit any number of calls gets through a half-open circuit at once |
| CircuitBreaker.HalfOpenOccurs | src/domain-events/circuit-breaker.service.ts:36-66 | with a positive threshold a half-open circuit is reachable, its first call admitted exactly when the limit is positive |
| CircuitBreaker.Transitions | src/domain-events/circuit-breaker.service.ts:36-175 | every change of state, in all runs: OPEN exactly by a failure at the threshold or in HALF_OPEN, HALF_OPEN exactly by the first call past the recovery timeout, CLOSED exactly by a success in HALF_OPEN, with no failures left |
| CircuitBreaker.Counters | src/domain-events/circuit-breaker.service.ts:36-175 | what each step does to the counters, and which calls get in flight |
| CircuitBreaker.HalfOpenDecides | src/domain-events/circuit-breaker.service.ts:137-175 | after opening, a half-open circuit is reachable whose one call closes the circuit with no failures when it succeeds and opens it again when it fails |
| CircuitBreaker.OpenUntilRecovery | src/domain-events/circuit-breaker.service.ts:43-54 | an open circuit admits no call until the recovery timeout past the latest failure, counting failures of calls still in flight |
| FieldNames.NamesInvert | src/domain-events/outbox-janitor.service.ts:310-331 | a renamed key becomes a shorter lower-case word that is not renamed again, and the inverse map recovers a key exactly when it was no short name |
| FieldNames.ShortNamesAreTheEntries | src/domain-events/outbox-janitor.service.ts:310-331 | a key is shortened exactly when it is one of the twenty, and to its short form |
| PayloadTrees.RenameUndone | src/domain-events/outbox-janitor.service.ts:333-346 | a renaming that is undone key by key is undone on whole trees |
| PayloadTrees.RenameFixed | src/domain-events/outbox-janitor.service.ts:333-346 | a renaming that keeps every key keeps the tree |
| PayloadTrees.RenamedKeys | src/domain-events/outbox-janitor.service.ts:337-344 | renamed objects have distinct keys, all of them new names, also when two keys get one name |
| PayloadTrees.RenameLength | src/domain-events/outbox-janitor.service.ts:333-346 | renaming to no longer names makes no text longer |
| PayloadCompression.CleanPayload | src/domain-events/outbox-janitor.service.ts:258-279 | the recursive loops compute `Clean` |
| PayloadCompression.CleanKeepsContent | src/domain-events/outbox-janitor.service.ts:258-279 | cleaning leaves nothing exactly when there was no content; otherwise the same content, in order, without null or empty object at any depth |
| PayloadCompression.ArraysStay | src/domain-events/outbox-janitor.service.ts:261-265 | every array stays, also when nothing is left in it |
| PayloadCompression.CleanIsIdempotent | src/domain-events/outbox-janitor.service.ts:258-279 | cleaning twice is cleaning once |
| PayloadCompression.CleanLength | src/domain-events/outbox-janitor.service.ts:258-279 | cleaning makes no text longer |
| PayloadCompression.NormalizeFieldNames | src/domain-events/outbox-janitor.service.ts:309-347 | the recursive loops compute `Normalize`, a later field winning when two keys get one name |
| PayloadCompression.NormalizeIsIdempotent | src/domain-events/outbox-janitor.service.ts:309-347 | normalising twice is normalising once |
| PayloadCompression.ExpandUndoesNormalize | src/domain-events/outbox-janitor.service.ts:309-347 | the inverse key map recovers a value exactly when none of its keys is a short name |
| PayloadCompression.NormalizeLength | src/domain-events/outbox-janitor.service.ts:309-347 | normalising makes no text longer |
| PayloadCompression.CompressLargeStrings | src/domain-events/outbox-janitor.service.ts:284-304 | for now the large-string pass rebuilds the same value |
| PayloadCompression.CompressPayload | src/domain-events/outbox-janitor.service.ts:234-253 | compression is normalising after cleaning |
| PayloadCompression.CompressSettles | src/domain-events/outbox-janitor.service.ts:234-253 | compression fails exactly on values without content; its result is tidy, no longer than the original, free of long names and stable |
| PayloadCompression.CompressedPayloadsReadBack | src/domain-events/outbox-janitor.service.ts:234-253 | without short names among the keys the inverse map recovers the cleaned value and so all content |
| PayloadCompression.Archive.CompressOldArchives | src/domain-events/outbox-janitor.service.ts:145-199 | one pass compresses every due row that can be compressed, leaves the others, and counts exactly the rows that changed |
| PayloadCompression.PassSettles | src/domain-events/outbox-janitor.service.ts:145-199 | after a pass payloads are unchanged, exactly the due rows with content are compressed, with the compressed payload and its length, in no more space, all other rows are unchanged, and the row is left alone by the next pass |
| PayloadCompression.CompressedCounts | src/domain-events/outbox-janitor.service.ts:170-198 | the counter counts the compressed rows |
| PayloadTrees.TextLength | src/domain-events/outbox-janitor.service.ts:175 | the length of a value is the number of UTF-16 code units of its JSON text, escapes included |
| PayloadTrees.PutPlaces | src/domain-events/outbox-janitor.service.ts:306-340 | assigning a property keeps its place when it exists and comes last when it is new |
| DispatchScoring.ComponentsInRange | src/dispatch-scoring/dispatch-scoring.service.ts:421-460 | each component score lies between 0 and 100 |
| DispatchScoring.WeightedScoreInRange | src/dispatch-scoring/dispatch-scoring.service.ts:462-476 | with non-negative weights that sum to 1 the rounded score is a whole number of cents between 0 and 100 |
| DispatchScoring.WeightedScoreMonotone | src/dispatch-scoring/dispatch-scoring.service.ts:421-476 | the rounded score never falls with more completions and never rises with more failures, cancellations or longer times |
| DispatchScoring.DecayMonotone | src/dispatch-scoring/dispatch-scoring.service.ts:478-496 | decay never raises a score in cents, and gives no more for a lower score or a longer absence |
| DispatchScoring.DecayStops | src/dispatch-scoring/dispatch-scoring.service.ts:491-495 | after 30 idle days the decayed score is constant, and a score of 100 is then 21.46 |
| DispatchScoring.PerfectScoreFloor | src/dispatch-scoring/dispatch-scoring.service.ts:478-496 | decay never takes 100 below 21.46 |
| DispatchScoring.ScoreInRangeAndMonotone | src/dispatch-scoring/dispatch-scoring.service.ts:462-496 | the decayed score stays in range and is monotone in the statistics and in the last activity |
| DispatchScoring.ZeroWeightsFallBack | src/dispatch-scoring/dispatch-scoring.service.ts:382-387 | weights 1, 0, 0 give a driver without timing data a score of 151 |
| DispatchScoring.FallbackKeepsBalance | src/dispatch-scoring/dispatch-scoring.service.ts:382-387 | weights that sum to 1 still do so after the defaults exactly when none of them is zero |
| DispatchScoring.ConfiguredScoreInRange | src/dispatch-scoring/dispatch-scoring.service.ts:382-387 | for configured weights that sum to 1 every score of every driver is between 0 and 100 exactly when no weight is zero |
| DispatchScoring.CompletionOnly | src/dispatch-scoring/dispatch-scoring.service.ts:421-431 | all weight on completions gives the percentage of accepted offers completed, 50 for a newcomer |
| DispatchScoring.TimingOnly | src/dispatch-scoring/dispatch-scoring.service.ts:433-446 | all weight on times gives 100 less one point per 24 s to pickup and per 720 s of delivery, at most 50 each, 70 if unknown |
| DispatchScoring.QualityOnly | src/dispatch-scoring/dispatch-scoring.service.ts:448-460 | all weight on quality gives the percentage of accepted offers neither failed nor cancelled, 80 for a newcomer |
| DispatchScoring.WeightsMix | src/dispatch-scoring/dispatch-scoring.service.ts:462-475 | any weights mix these three scores linearly, each with its own weight |
| DispatchScoring.WeightsInUse | src/dispatch-scoring/dispatch-scoring.service.ts:374-393 | the weights 0.4, 0.3 and 0.3 stand in for a missing configuration and for each configured zero |
| DispatchScoring.NearestCent | src/dispatch-scoring/dispatch-scoring.service.ts:475 | scores are rounded to the nearest hundredth, halves up |
| DispatchScoring.IdleDays | src/dispatch-scoring/dispatch-scoring.service.ts:478-496 | each whole idle day multiplies the score by 0.95, up to thirty days |
| ScoreCache.AtMostOneLive | src/dispatch-scoring/dispatch-scoring.service.ts:508-530 | a driver has at most one live row, the one calculated last |
| ScoreCache.SavedScore | src/dispatch-scoring/dispatch-scoring.service.ts:498-550 | saving keeps every validity at an hour and at most one live row, which holds the saved score |
| ScoreCache.OthersUntouched | src/dispatch-scoring/dispatch-scoring.service.ts:498-550 | saving a score changes no other driver's latest row |
| ScoreCache.LookupsAgree | src/dispatch-scoring/dispatch-scoring.service.ts:255-339 | the two lookups differ for a driver with statistics exactly at the end of validity with another calculated score |
| ScoreCache.AnswerFromRows | src/dispatch-scoring/dispatch-scoring.service.ts:255-278 | in a coherent table the single lookup answers with the driver's valid row, at its end of validity included, and otherwise calculates or fails |
| ScoreCache.BatchAnswerFromRows | src/dispatch-scoring/dispatch-scoring.service.ts:284-339 | the batch lookup answers with the driver's row while it is valid, and otherwise calculates or gives zero |
| ScoreCache.SavedInRows | src/dispatch-scoring/dispatch-scoring.service.ts:498-550 | a score is saved for an hour, over the driver's live row or in a new one |
| ScoreCache.SavedAllSaves | src/dispatch-scoring/dispatch-scoring.service.ts:312-330 | the batch lookup leaves the calculated score of each listed driver without a live row |
| ScoreCache.DispatchScores.CreateOrUpdateDispatchScore | src/dispatch-scoring/dispatch-scoring.service.ts:498-550 | updates the latest row while it is live and inserts a row otherwise |
| ScoreCache.DispatchScores.GetCurrentScore | src/dispatch-scoring/dispatch-scoring.service.ts:255-278 | answers from the latest row up to and including its end of validity, otherwise calculates, saves or fails |
| ScoreCache.DispatchScores.GetCurrentScores | src/dispatch-scoring/dispatch-scoring.service.ts:284-339 | answers each listed driver from its live row, otherwise calculates and saves, with zero for drivers without statistics |
| ScoreCache.DispatchScores.LiveScores | src/dispatch-scoring/dispatch-scoring.service.ts:293-310 | collects the score of exactly the listed drivers with a live row |
| RevocationCache.InsertPosition | src/auth/jwt.strategy.ts:89-90 | a stable sort puts an entry behind exactly as many others as expire no later |
| RevocationCache.SortFacts | src/auth/jwt.strategy.ts:89-90 | the sorted list is a permutation in order of expiry |
| RevocationCache.EvictionFacts | src/auth/jwt.strategy.ts:87-96 | eviction removes exactly 200 entries, none of which expires after a survivor |
| RevocationCache.NewestSurvives | src/auth/jwt.strategy.ts:61-69 | a new entry survives the eviction it causes exactly when at least 200 others expire no later, so always in sequential use |
| RevocationCache.LookupMeans | src/auth/jwt.strategy.ts:44-51 | a user's entry answers until the instant at which it expires |
| RevocationCache.SetMeans | src/auth/jwt.strategy.ts:61-64 | storing keeps the place of the user's entry or comes last |
| RevocationCache.StoredInNumbers | src/auth/jwt.strategy.ts:61-69 | only a new user in a full cache of 1000 causes an eviction, which leaves 801 entries |
| RevocationCache.JwtStrategy.BeginCheck | src/auth/jwt.strategy.ts:44-51 | answers from the cache exactly with an unexpired entry |
| RevocationCache.JwtStrategy.FinishCheck | src/auth/jwt.strategy.ts:61-71 | stores the answer with the clock read before the wait, and evicts above 1000 entries |
| RevocationCache.JwtStrategy.EvictOldestEntries | src/auth/jwt.strategy.ts:87-96 | the delete loop removes exactly the first 200 entries of the sorted list |
| RevocationCache.JwtStrategy.ClearRevocationCache | src/auth/jwt.strategy.ts:101-103 | removes exactly the user's entry |
| RevocationRuns.StepKeepsInvariant | src/auth/jwt.strategy.ts:44-103 | every atomic section keeps at most 1000 entries and every cached answer traceable to Redis |
| RevocationRuns.CachedAnswersAreRecent | src/auth/jwt.strategy.ts:44-51 | an answer from the cache is one Redis would have given less than 30 s ago, with any overlap of checks |
| RevocationRuns.UndisturbedChecksSurvive | src/auth/jwt.strategy.ts:54-71 | a check during which nothing else is stored leaves its answer in the cache, also when that evicts others |
| RevocationRuns.FetchedAnswersAreCurrent | src/auth/jwt.strategy.ts:54-71 | an answer fetched from Redis is one it gave after the check began |

## Left out

- LifecycleSplit.SplitPreservesMeaning: excludes statements that share a column, because additions move in front of drops; `LifecycleSplit.OverlapBreaksTheSplit` shows that the exclusion is needed.
- DeliveryEvents.LifecycleEventsSurvive: assumes unique seller order ids, no `assignDriver` and no stale save of a delivery; `DeliveryKeys.DroppedExactlyWhenAnnounced` says what holds with `assignDriver`, and `StaleSaves.SaveKeepsProgressExactlyWhenUpToDate` what a save breaks.
- LifecycleSplit.SplitIsExact: leaves out renames of a column to its own name, which fail as written; `LifecycleSplit.SelfRenameSucceedsWhenSplit` shows why.
- DeliveryStore.Store.LoadForSla: leaves out the deadlines and the lock of the SLA monitor, which reads at any time here and saves each delivery in a step of its own.
- LifecycleSplit.LifecycleSplitter.Split: does not model the branch for enum types behind partial indexes, whose statements have no meaning on columns.
- OutboxJanitor.RunsGetThroughUnlessBlocked: is about a run left to itself; another run that archives its keys meanwhile can still block it.
- ScoreCache.DispatchScores.GetCurrentScores: reads the clock once per lookup, while the source reads it again for each calculation; database failures, which give zeros, are not modelled.
- ScoreCache.DispatchScores.LiveScores: takes the rows in table order, not in the query's order, which cannot matter with one live row per driver.
- SQL text and its regular expressions: statements are recognised values, so unquoted names, `SET DATA TYPE`, several actions in one statement and other texts that the patterns treat differently are not covered.
- `CREATE TABLE`, indexes and free-form updates: outside the statements with a meaning here.
- Backfill of NOT NULL columns: never reached for `ADD COLUMN`; the form without `COLUMN` is not recognised by the same rewriter.
- `buildOperationGraph`: its conflict heuristics make two changes of one table depend on each other, so graphs are arbitrary inputs; `identifyRootsAndLeaves` only filters nodes by their edge lists.
- Plan hash, plan score, size warnings and the FIX phase, which is always empty.
- `OffersService.acceptOffer` and `rejectOffer`: they race with the state machine outside its locks; only creation and expiry of offers are steps here.
- Commit of an accepted offer expires those competing offers that its transaction has locked, which may be any subset of the competitors in the concurrent model; the row-by-row method expires all of them.
- OTP attempt counter and lock: saved and then rolled back by the error in the same transaction, so no lock-out exists to be stated.
- The audit events that operations append to the delivery history.
- Notifier events are published outside the delivery transaction; only their keys are modelled.
- Event names come from the README of the repository, because packages/ws-contracts is not part of this model.
- Geofence distance and access checks: the outcome is a parameter.
- Driver statistics and metrics projections, which run after the commit and again on idempotent repeats.
- `DeadLetterService`, `processPendingEvents` and `OutboxArchiveService.archiveOldEvents`: they write statuses without claims or archive unprocessed rows and would break the worker invariants.
- `forceFail` and malformed rows: event types are taken to be non-empty, as `publish` guarantees.
- Handlers, the registry and adaptive batch sizes: a handler succeeds, fails or is lost to a crash, and the batch limit is a parameter.
- Shutdown draining, metrics and health reports.
- `resetCircuit` and `setCircuitState`, and several configurations for one circuit.
- TypeORM's handling of `undefined` on save: a cleared code is gone.
- JavaScript's prototype names as payload keys, and its ordering of integer-like keys, which parsed objects already have.
- Floating point: scores are reals, rounded as in the source.
- Eligibility thresholds and `getTopDrivers`: one comparison each.
- Redis errors in the revocation check answer `false` without caching: a failed check is a step, its answer is not a cached one.
- Role checks in `validate` and token signatures.
