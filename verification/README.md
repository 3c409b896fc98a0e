# Verification of the Axionvera SDK's in-memory algorithms

This project models the algorithms and state machines of the SDK that work in memory, and proves
what they compute, for all inputs, runs and call histories. What talks to the network, a wallet, a
clock or another library is a parameter: the outcome of a simulation, the answers of an event server,
the health of an endpoint, a partial XDR decoder, a date codec, a collation, the order in which timers
and completions arrive.

Verify with `dafny verify dfyconfig.toml` (Dafny 4.11).

| Module | What it models |
|---|---|
| `Wrappers`, `OrderedSets`, `IncreasingSequences`, `Graphs` | results and options; JavaScript's insertion-ordered `Set`; increasing sequences; walks, reachability and cycles |
| `BatchValidator`, `BatchExecutor` | batch validation with its three-colour cycle search; sequential execution of a batch |
| `Migrations`, `ChainOrder`, `MigrationRegistry`, `MigrationRunner`, `VaultMigrations` | version steps, chains of them in registration order, the search for a shortest chain of them, running and rolling back a plan, the vault's migrations as an instance |
| `Plugins`, `PluginValidation`, `SemVer`, `PluginRegistry`, `PluginLifecycle`, `PluginManager` | plugin graphs, cycle detection and sorting, version precedence, dependency closure, the lifecycle table, the manager |
| `ConcurrencyQueue`, `Throttling` | the request queue as a state machine over all interleavings, and a class that refines it; how many requests its throttle lets start in a window of time |
| `XdrCache` | the least-recently-used cache in front of the XDR decoder |
| `EventServer`, `ContractEvents`, `FeeBuffer`, `StateHydration` | three algorithms of the client: paging with halving of ranges, exact fee arithmetic, export and import of pending transactions |
| `RpcEndpointManager` | load balancing and failover |
| `AbiVersionRegistry` | ABI versions in registration order, and version detection |

Code that changes things step by step is imperative here too: loops are loops, objects are classes, and
each method is tied by its `ensures` to a specification, about which the theorems are then proved. A
variable that a recursive closure of the source captures (the visited sets and paths of the depth-first
searches) is passed in and handed back; the `color` array of the batch search is an array updated in
place. The body of a loop or of a step that carries much proof is a method of its own.

## Where the code and its documentation differ

The model follows the code.

- `detectCycles` is documented as returning the transactions that participate in a cycle. It returns those
  from which a cycle can be reached. `BatchValidator.ReportedIffOnCycle` says exactly when the two agree.
- `stopOnFailure` is documented as true by default; the executor stops only on an explicit `true`
  (the batch builder supplies that default, direct callers of the executor do not get it).
  `BatchExecutor.PoliciesAgreeIff` says exactly when this makes no difference.
- `throttleRate` is documented as the requests per second, with an interval of one second by default.
  `Throttling.RateHoldsIff` says exactly for which configurations no window of an interval's length sees
  more starts: practically for none, since the counter restarts at every reset, between two bursts
  (`Throttling.TwoInASecondExample`). `WindowBound` and `WindowBoundIsReached` give the most that can start
  in a window, at most twice the larger of rate and limit. Even between two resets the rate can be
  exceeded, as it is checked once per pass over the queue: `ThrottleHoldsIff` says exactly when it is kept
  there, and `ConcurrencyQueue.EveryInterleaving` bounds the starts between resets by the larger of rate
  and limit.
- `getQueueStatus` reads like a query, but it resets the throttle counter when the interval is over.
- A migration report with status COMPLETED is meant to say that all steps succeeded. A step that throws a
  falsy value fails and still leaves COMPLETED. `MigrationRunner.CompletedMeansSucceededIff` says exactly
  for which contracts the status keeps its word: those whose steps throw truthy values only.
- Installing everything is documented as going in dependency order. Optional dependencies take part in that
  order, so that one of them can close a cycle; then the order is that of registration, in which an
  installation can fail that another order allows (`PluginManager.OptionalCycleExample`).
  `PluginManager.InstallInOrderSucceedsIff` says exactly in which orders everything can be installed.
- The lifecycle diagram has a transition from any state to Error; the table allows it from Active and
  Disabled only. The manager sets Error past the table when a hook throws.
- `compareSemVer` departs from section 11 of Semantic Versioning 2.0.0 in two ways. It reads the leading
  digits of an identifier as a number: `SemVer.AgreesWithNumeralsIff` says which identifiers compare with
  numerals as they should. And it compares other identifiers with `localeCompare` instead of in ASCII
  order, so that alpha comes before Beta: `SemVer.VersionsAgreeIff` says exactly for which collations
  versions made of numerals and identifiers starting with a letter compare as section 11 asks. Nor is
  the comparison transitive for all versions: 0 equals -0, -0 comes before -a, and -a before 0.
  `SemVer.TransitiveIff` and `SemVer.VersionsTransitiveIff` say exactly for which sets of parts it is
  transitive under every collation.
- `fetchContractEventsRange` loses events when a range is called too large after its first page.
  `ContractEvents.ExactlyTheRangeIff` says exactly when nothing is lost. A complete fetch resumed from a
  cursor can repeat events (`ContractEvents.ResumedFetchIff`). A fetch of one page whose range was halved can
  come back without a token although events are left (`ContractEvents.LastPageIff`, `EmptyPageExample`).
- `importState` restarts `submittedAt` at the time of the import.
- `getLatestVersion` is documented as giving the most recently registered version. Registering a version
  anew keeps its place. `AbiVersionRegistry.LatestIsMostRecentIff` says after exactly which calls the
  documented meaning holds.

## Model

| member | source | states |
|---|---|---|
| BatchValidator.DetectCycles | src/batch/batchValidator.ts:197-249 | the reported indices, without duplicates, are exactly those from which a dependency cycle, a self-dependency included, can be reached, although early returns leave gray nodes behind |
| BatchValidator.Dfs | src/batch/batchValidator.ts:218-240 | one visit keeps the search invariant; without a hit it blackens the node and restores path and report, on a hit everything left on the path is reported |
| BatchValidator.VisitSuccessor | src/batch/batchValidator.ts:222-235 | meeting a gray node, on the path or left over from an earlier hit, marks the whole path and is sound for both |
| BatchValidator.EnterKeepsInv | src/batch/batchValidator.ts:219-220 | entering a white node keeps the search invariant and shrinks the set of white nodes |
| BatchValidator.LeaveKeepsInv | src/batch/batchValidator.ts:237-239 | a node whose successors are all black reaches no cycle and may be blackened |
| BatchValidator.MarkKeepsInv | src/batch/batchValidator.ts:223-229 | once a gray node is met, every node of the path reaches a cycle |
| BatchValidator.BuildAdjacency | src/batch/batchValidator.ts:201-211 | the adjacency list holds the in-range dependencies in their order |
| BatchValidator.KeptInOrder | src/batch/batchValidator.ts:201-211 | exactly the in-range dependencies are kept, in the order listed |
| BatchValidator.ReportedIffOnCycle | src/batch/batchValidator.ts:193-196 | the documented meaning, taking part in a cycle, coincides with the computed one exactly when no node off the cycles depends on one on a cycle |
| BatchValidator.ReportedOffCycleExample | src/batch/batchValidator.ts:193-196 | a transaction that is reported without taking part in a cycle |
| BatchValidator.ValidateConfig | src/batch/batchValidator.ts:57-92 | an issue is pushed exactly for each violated rule on the configuration |
| BatchValidator.ValidateTransactions | src/batch/batchValidator.ts:94-127 | an issue is pushed exactly for an empty batch, each blank label and each transaction without operations |
| BatchValidator.ValidateDependencies | src/batch/batchValidator.ts:129-191 | an issue is pushed exactly for each self-dependency, out-of-range dependency, dependency that does not precede its owner, and index reaching a cycle |
| BatchValidator.Validate | src/batch/batchValidator.ts:24-38 | all issues are collected, and the batch is valid exactly when a condition holds that does not mention cycles |
| BatchValidator.ValidIffWellFormed | src/batch/batchValidator.ts:129-191 | no issue exists exactly when configuration and transactions are well formed and every dependency precedes its owner |
| BatchValidator.CyclesNeverDecide | src/batch/batchValidator.ts:180-190 | when all dependencies precede their owners the graph is acyclic, so the cycle search never changes the verdict |
| BatchExecutor.Execute | src/batch/batchExecutor.ts:50-129 | refused exactly when validation finds an issue; one result per index in order; the three counts add up to the total; with stopping, successes, then one rejection, then skips; without, each outcome as `OutcomeOf` says |
| BatchExecutor.RunInOrder | src/batch/batchExecutor.ts:65-113 | the loop's outcomes under either policy, and that exactly the skipped indices are recorded |
| BatchExecutor.TallyAddsUp | src/batch/batchExecutor.ts:115-117 | successes, failures that were not skipped, and skips add up to the number of results |
| BatchExecutor.CountIsCardinality | src/batch/batchExecutor.ts:115 | the success count is the number of successful indices |
| BatchExecutor.SucceedsIffAllReachableAccepted | src/batch/batchExecutor.ts:84-112 | gating by direct dependencies amounts to acceptance of everything transitively depended on |
| BatchExecutor.OutcomeSucceedsIff | src/batch/batchExecutor.ts:84-112 | without stopping, a transaction is reported as a success exactly when it and all its transitive dependencies are accepted |
| BatchExecutor.OutcomeIs | src/batch/batchExecutor.ts:84-112 | without stopping, a transaction is rejected exactly when all it depends on succeeds and it is refused; held back exactly when something it depends on does not succeed, naming exactly these dependencies in their order |
| BatchExecutor.PoliciesAgreeIff | src/batch/batchExecutor.ts:68-82 | stopping and not stopping give every transaction the same outcome exactly when nothing before the last transaction is rejected |
| BatchExecutor.DefaultMattersExample | src/batch/batchExecutor.ts:68-82 | two independent transactions of which the second is skipped under one policy and succeeds under the other |
| MigrationRegistry.MigrationRegistry.Register | src/migrations/migrationRegistry.ts:26-31 | a step replaces the one with its id and goes to the end; other contracts are untouched |
| MigrationRegistry.MigrationRegistry.Unregister | src/migrations/migrationRegistry.ts:34-42 | removes the steps with the id and tells whether there were any |
| MigrationRegistry.WithoutIdKeepsOrder | src/migrations/migrationRegistry.ts:26-42 | exactly the steps with another id stay, in their order |
| MigrationRegistry.MigrationRegistry.EdgesByFrom | src/migrations/migrationRegistry.ts:62-67 | every bucket holds the steps leaving its version, in registration order |
| MigrationRegistry.MigrationRegistry.ResolvePath | src/migrations/migrationRegistry.ts:57-90 | the result is a chain of registered steps between the versions, no chain is shorter, of those as short it is the first in the order of registration, no version repeats; it fails exactly when no chain exists; it terminates on any registered steps |
| MigrationRegistry.Expand | src/migrations/migrationRegistry.ts:78-86 | following all steps of the current version keeps the queue layered by distance or finds a shortest chain |
| MigrationRegistry.Frontier | src/migrations/migrationRegistry.ts:69-87 | along any chain, its end was visited in time or an earlier version of it is still to be expanded |
| MigrationRegistry.NoShorterChain | src/migrations/migrationRegistry.ts:74-87 | while the queue is at a distance, no chain to the target is that short; with an empty queue there is none |
| MigrationRegistry.NewIsFirst | src/migrations/migrationRegistry.ts:74-87 | a version seen for the first time was reached along the first chain of its length in the order of registration |
| Migrations.SimpleMeansNoVersionTwice | src/migrations/migrationRegistry.ts:82-85 | a path extended only by versions not seen before lists no version twice |
| MigrationRunner.RunForward | src/migrations/migrationRunner.ts:94-132 | the loop records a prefix of successes and at most one failure, and threads the state as the fold of the steps |
| MigrationRunner.ForwardFollowsTrace | src/migrations/migrationRunner.ts:94-132 | a run passes through states each attempt leads on from, and stops at the first attempt that fails |
| MigrationRunner.RunPasses | src/migrations/migrationRunner.ts:94-132 | every completed step was migrated from and to states that fit the schemas of its versions; the one that failed was given or made a state that does not fit, or threw |
| MigrationRunner.Rollback | src/migrations/migrationRunner.ts:170-213 | state, results and outcome of the rollback the following lemmas are about |
| MigrationRunner.UndoFollowsTrace | src/migrations/migrationRunner.ts:179-212 | every rollback, clean or not, has each step's turn from the last to the first: the state moves on where a rollback returns and stays where it is missing or throws; the results list exactly the steps that have one, with their versions exchanged, marked by whether it returned; it is clean exactly when all of them have one that returned |
| MigrationRunner.CleanUndo | src/migrations/migrationRunner.ts:179-212 | when all steps can be undone in reverse, the outcome is clean and ends in the oldest state |
| MigrationRunner.CleanUndoHasTrace | src/migrations/migrationRunner.ts:179-212 | a clean outcome means that every step was undone in reverse |
| MigrationRunner.Run | src/migrations/migrationRunner.ts:70-168 | status, counts, step results, rollback results and the returned state of every run, under all options |
| MigrationRunner.CompletedStateFitsTarget | src/migrations/migrationRunner.ts:94-134 | a COMPLETED validated run along a resolved chain, whose steps throw truthy values only, returns a state that the target version's schema accepts |
| MigrationRunner.CompletedMeansSucceededIff | src/migrations/migrationRunner.ts:94-134 | for all plans of a contract, states and options, COMPLETED says that every step succeeded exactly when every value the contract's steps can throw is truthy |
| MigrationRunner.CompletedIff | src/migrations/migrationRunner.ts:94-134 | COMPLETED exactly when all steps passed or the one that failed threw a falsy value |
| MigrationRunner.FalsyThrowExample | src/migrations/migrationRunner.ts:134 | a failing step and status COMPLETED |
| MigrationRunner.RolledBackIff | src/migrations/migrationRunner.ts:137-144 | ROLLED_BACK exactly when a rollback was due, something was completed, and every completed step was undone in reverse down to the state returned |
| MigrationRunner.RollbackOfRun | src/migrations/migrationRunner.ts:137-144 | the same about the state a run returns, the rollback steps of its report and its status |
| MigrationRunner.NoRollback | src/migrations/migrationRunner.ts:137-144 | without the option, in a dry run or without a truthy failure, nothing is rolled back or reported as such |
| MigrationRunner.RollbackRestoresInitialState | src/migrations/migrationRunner.ts:137-144 | when each completed step, at least one, is undone by its rollback from the state the run reached it in, a failing run is ROLLED_BACK and returns the initial state |
| MigrationRunner.DryRunForetells | src/migrations/migrationRunner.ts:87-101 | a dry run returns the initial state, and takes the same forward steps as a real run when no step looks at the flag |
| VaultMigrations.VaultStepsUndoIff | src/contracts/contractMigrations.ts:77-102 | each vault migration is undone by its rollback exactly on states that do not carry the fields it adds |
| VaultMigrations.SchemasNest | src/contracts/contractMigrations.ts:36-58 | each schema asks for what the one before asks for, v3 for a fee of at most 10000 basis points |
| VaultMigrations.VaultRuns | src/contracts/contractMigrations.ts:77-105 | a vault migrates to v3 with zero defaults; a failing further step rolls it back to where it was, as an instance of the theorem above |
| PluginValidation.DetectCircularDependencies | src/plugin/validation.ts:232-269 | every report is a cycle of dependencies that passes no plugin twice, and every such cycle passes over the closing edge of a report; nothing is reported exactly when the plugin graph is acyclic |
| PluginValidation.DetectFrom | src/plugin/validation.ts:240-260 | a visit keeps the path a walk and finishes the plugin after all its dependencies, but for those a report leads back to |
| PluginValidation.ReportCycle | src/plugin/validation.ts:250-254 | the reported slice of the path with the plugin met again is a cycle closed by the edge just followed |
| PluginValidation.CycleIsReported | src/plugin/validation.ts:240-267 | without a report on a cycle, none of its plugins could have finished first |
| PluginValidation.TopologicalSort | src/plugin/validation.ts:275-313 | fails exactly on a cyclic graph; otherwise a permutation of the ids in which registered dependencies come before their dependents, and the registration order itself where that does |
| PluginValidation.Visit | src/plugin/validation.ts:288-306 | a visit extends the sorted list, keeping dependencies first while the graph is acyclic |
| PluginValidation.MetAgain | src/plugin/validation.ts:290 | a plugin met again while it is visited lies on a cycle |
| PluginValidation.ValidateDependencies | src/plugin/validation.ts:192-226 | errors are exactly the missing or outdated required dependencies, warnings the optional ones; no errors exactly when all requirements are met |
| PluginValidation.IssueIff | src/plugin/validation.ts:192-226 | there is no issue with a dependency exactly when it is installed, in a version that satisfies the minimum if one is asked for |
| SemVer.CompareSemVer | src/plugin/validation.ts:35-70 | the loop computes the recursive comparison the following lemmas are about |
| SemVer.PartsAgree | src/plugin/validation.ts:45-66 | for a collation that puts identifiers starting with a letter in ASCII order, lists of these and of numerals compare as section 11 of Semantic Versioning 2.0.0 prescribes |
| SemVer.IdentifiersAgreeIff | src/plugin/validation.ts:57-65 | all numerals and identifiers starting with a letter compare as section 11 prescribes exactly when the collation puts the latter in ASCII order |
| SemVer.VersionsAgreeIff | src/plugin/validation.ts:35-70 | all versions made of these compare as section 11 prescribes, exactly under the same condition |
| SemVer.MixedCaseExample | src/plugin/validation.ts:63 | a dictionary's collation, which puts alpha before Beta against section 11 |
| SemVer.AgreesWithNumeralsIff | src/plugin/validation.ts:57-65 | an identifier compares with every numeral as section 11 prescribes exactly when it is a numeral or starts with a letter |
| SemVer.LeadingDigitsExample | src/plugin/validation.ts:57-61 | 1a comes before 2 and equals 1, against section 11 |
| SemVer.CompareIsPreorder | src/plugin/validation.ts:35-70 | under any collation, on versions made of a settled set of parts, the comparison is antisymmetric in sign and transitive |
| SemVer.TransitiveIff | src/plugin/validation.ts:57-65 | the comparison of parts from a set is transitive under every collation exactly when the set is settled: it does not hold a hyphen without a digit after it, a hyphen with one, and another number not above the latter |
| SemVer.VersionsTransitiveIff | src/plugin/validation.ts:35-70 | likewise the comparison of all versions made of parts from the set |
| SemVer.HyphenNumberExample | src/plugin/validation.ts:57-65 | in ASCII order 0 equals -0, -0 comes before -a and -a before 0 |
| SemVer.ZeroIffEqual | src/plugin/validation.ts:35-70 | versions with canonical identifiers compare as equal exactly when they are equal apart from build metadata |
| SemVer.MinVersionIsUpwardClosed | src/plugin/validation.ts:75-82 | what satisfies a minimum keeps satisfying it in higher versions, for versions made of a settled set of parts |
| SemVer.SatisfiesIffNotBefore | src/plugin/validation.ts:75-82 | for versions and collations that compare as section 11 prescribes, a version satisfies a minimum exactly when it does not precede it |
| SemVer.AsciiCollates | src/plugin/validation.ts:63 | ASCII order is a collation as assumed of `localeCompare` |
| SemVer.DictionaryCollates | src/plugin/validation.ts:63 | so is the order of a dictionary |
| PluginRegistry.PluginRegistry.Register | src/plugin/registry.ts:17-29 | a known id is refused and nothing changes; a new one is added at the end |
| PluginRegistry.PluginRegistry.GetDependents | src/plugin/registry.ts:95-106 | exactly the plugins that list the id as a dependency, in the order of registration |
| PluginRegistry.PluginRegistry.Unregister | src/plugin/registry.ts:34-48 | succeeds exactly for a registered plugin nobody depends on, and then removes it alone; otherwise names the dependents |
| PluginRegistry.PluginRegistry.ResolveDependencies | src/plugin/registry.ts:113-142 | without duplicates and with the target last, exactly the registered plugins reachable from it; dependencies first unless a cycle is in reach; terminates on cyclic registries |
| PluginRegistry.PluginRegistry.Resolve | src/plugin/registry.ts:117-138 | one call keeps the invariant of the search and resolves the plugin it is called for |
| PluginRegistry.DependenciesSettled | src/plugin/registry.ts:128-135 | after the loop every registered dependency is resolved, unless a cycle is in reach |
| PluginRegistry.ClosureIsComplete | src/plugin/registry.ts:140-141 | when the search ends, everything registered in reach is resolved |
| PluginLifecycle.TableFacts | src/plugin/lifecycle.ts:17-58 | the table read by target: the states from which each state can be entered; Uninstalled is final |
| PluginLifecycle.LifetimePassesInstalled | src/plugin/lifecycle.ts:17-58 | along valid transitions a plugin that is active, disabled or in error was registered and installed before, and nothing follows Uninstalled |
| PluginManager.PluginManager.Register | src/plugin/pluginManager.ts:45-76 | a new plugin is Registered at the end; a known id is refused |
| PluginManager.PluginManager.Install | src/plugin/pluginManager.ts:145-221 | the state of every plugin and the error after an installation; a passed dependency check leaves nothing for the recursive installation of dependencies to do |
| PluginManager.PluginManager.Enable | src/plugin/pluginManager.ts:266-291 | the new states and the error, with a throwing hook ending in Error |
| PluginManager.PluginManager.Disable | src/plugin/pluginManager.ts:296-320 | the new states and the error, with a throwing hook ending in Error |
| PluginManager.PluginManager.Uninstall | src/plugin/pluginManager.ts:226-259 | an active plugin is disabled first; a throwing uninstall hook does not stop the uninstallation |
| PluginManager.InstallIff | src/plugin/pluginManager.ts:145-221 | from any state: an installation succeeds exactly when the plugin is installed already, or registered with its requirements installed in sufficient versions and no hook throwing; the states and the error in every case |
| PluginManager.EnableIff | src/plugin/pluginManager.ts:266-291 | enabling succeeds exactly from Active, and from Installed and Disabled unless the hook throws; the plugin then ends Active, in Error, or as it was |
| PluginManager.DisableIff | src/plugin/pluginManager.ts:296-320 | disabling likewise, from Disabled and from Installed and Active |
| PluginManager.UninstallIff | src/plugin/pluginManager.ts:226-259 | uninstalling leaves the plugin Uninstalled and all others as they were, whatever the uninstall hook does; it fails, into Error, exactly for an active plugin whose disable hook throws |
| PluginManager.UninstalledForGood | src/plugin/pluginManager.ts:145-342 | an uninstalled plugin stays so under any sequence of calls |
| PluginManager.PluginManager.CheckDependencies | src/plugin/pluginManager.ts:159-180 | passes exactly when the installed plugins meet the required dependencies |
| PluginManager.PluginManager.GetInstalled | src/plugin/pluginManager.ts:436-442 | exactly the plugins that are Installed or Active |
| PluginManager.PluginManager.GetDependencySorted | src/plugin/pluginManager.ts:486-498 | all ids once, dependencies first on an acyclic graph and in registration order otherwise |
| PluginManager.PluginManager.InstallEverything | src/plugin/pluginManager.ts:327-342 | every plugin has its turn in that order, up to the first failure |
| PluginManager.StopsAtFirstFailure | src/plugin/pluginManager.ts:327-342 | a failing installation of everything stops at the first plugin whose turn fails, keeping what was installed before |
| PluginManager.InstallInOrderSucceedsIff | src/plugin/pluginManager.ts:327-342 | with plugins at rest and hooks that do not throw, installing in any order succeeds exactly when what each missing plugin requires is registered in a sufficient version and is installed already or comes earlier, and then all of them end Installed or Active |
| PluginManager.InstallAllSucceedsIff | src/plugin/pluginManager.ts:327-342 | in dependency order, as on an acyclic graph, it succeeds exactly when the missing plugins' requirements are registered in sufficient versions |
| PluginManager.OptionalCycleExample | src/plugin/pluginManager.ts:486-498 | a required and an optional dependency make a cycle; in the order of registration the installation fails, in the other it succeeds |
| PluginManager.OneTurn | src/plugin/pluginManager.ts:158-217 | with plugins at rest, an installation succeeds exactly when what the plugin requires is registered in sufficient versions and installed |
| PluginManager.KnotIsNeverInstalled | src/plugin/pluginManager.ts:158-172 | plugins each of which requires another of them are never installed by any sequence of calls |
| PluginManager.RequiredCycleIsNeverInstalled | src/plugin/pluginManager.ts:158-172 | in particular the plugins along a cycle of required dependencies |
| ConcurrencyQueue.EveryInterleaving | src/utils/concurrencyQueue.ts:39-136 | in every run each submitted request is exactly one of queued, running and settled and settles at most once; the limit holds; starts follow submission order; a waiting request beside a free slot has a pending timer; starts since a reset stay within the larger of rate and limit |
| ConcurrencyQueue.StepKeepsInv | src/utils/concurrencyQueue.ts:39-209 | every single step keeps the invariant behind this |
| ConcurrencyQueue.DrainKeepsCore | src/utils/concurrencyQueue.ts:73-87 | the start loop ends with an empty queue or no free slot, having moved requests only from the queue to the running ones |
| ConcurrencyQueue.DueTickDrains | src/utils/concurrencyQueue.ts:116-119 | a throttle timer that fires once the interval is over leaves no request waiting beside a free slot |
| ConcurrencyQueue.DrainStartsFirst | src/utils/concurrencyQueue.ts:73-87 | the requests started are the first ones of the queue, in their order |
| ConcurrencyQueue.TimeoutSettles | src/utils/concurrencyQueue.ts:52-55 | a queue timeout takes its request out of the queue and settles it; the others keep their order and nothing else changes |
| ConcurrencyQueue.TimedOutForGood | src/utils/concurrencyQueue.ts:52-55 | in every run a request whose queue timeout fired ends settled and never started |
| ConcurrencyQueue.ClearSettles | src/utils/concurrencyQueue.ts:195-209 | clearing settles everything waiting, drops all timers and leaves what runs |
| ConcurrencyQueue.ClearedForGood | src/utils/concurrencyQueue.ts:195-209 | whatever follows, requests found waiting by a clearing end settled and never started |
| ConcurrencyQueue.CompleteSettles | src/utils/concurrencyQueue.ts:125-136 | a completion settles its request and starts only what comes first in the queue |
| ConcurrencyQueue.ConcurrencyQueue.Execute | src/utils/concurrencyQueue.ts:39-61 | the class takes the submission step of the state machine and keeps its invariant |
| ConcurrencyQueue.ConcurrencyQueue.ProcessQueue | src/utils/concurrencyQueue.ts:66-88 | the loop refines the processing of the state machine |
| ConcurrencyQueue.ConcurrencyQueue.IsThrottled | src/utils/concurrencyQueue.ts:93-104 | resets the counter when due, and is throttled exactly when it is not due and the rate is used up |
| ConcurrencyQueue.ConcurrencyQueue.OnCompleted | src/utils/concurrencyQueue.ts:125-136 | the completion step |
| ConcurrencyQueue.ConcurrencyQueue.OnQueueTimeout | src/utils/concurrencyQueue.ts:52-55 | the timeout step: the request leaves the queue and is settled, the others keep their order |
| ConcurrencyQueue.ConcurrencyQueue.OnThrottleTimer | src/utils/concurrencyQueue.ts:116-119 | the timer step |
| ConcurrencyQueue.ConcurrencyQueue.Clear | src/utils/concurrencyQueue.ts:195-209 | settles everything waiting and drops the timers |
| ConcurrencyQueue.ConcurrencyQueue.GetQueueStatus | src/utils/concurrencyQueue.ts:179-190 | asking for the status can reset the counter and changes nothing else |
| Throttling.ThrottleHoldsIff | src/utils/concurrencyQueue.ts:66-104 | at most `throttleRate` requests start between two resets of the counter, in every run, exactly when the concurrency limit does not exceed the rate |
| Throttling.Overshoot | src/utils/concurrencyQueue.ts:66-104 | otherwise a run in which `maxConcurrentRequests` requests start between two resets |
| Throttling.WindowBound | src/utils/concurrencyQueue.ts:66-104 | in every run whose clock does not run backwards, no window of the interval's length holds more starts than `MostInAWindow`, which is at most twice the larger of rate and limit |
| Throttling.StepKeepsTimed | src/utils/concurrencyQueue.ts:39-209 | every step keeps the relation between the times of the starts and the last reset that is behind this |
| Throttling.WindowBoundIsReached | src/utils/concurrencyQueue.ts:66-190 | for every configuration there is such a run and a window with exactly that many starts |
| Throttling.RateHoldsIff | src/utils/concurrencyQueue.ts:5-6 | at most `throttleRate` requests start within any interval, in every such run, exactly when none can start at all, or the interval is a single millisecond and the limit does not exceed the rate |
| Throttling.TwoInASecondExample | src/utils/concurrencyQueue.ts:66-104 | with a rate of one per second and one request at a time, requests start at 999 and 1000 milliseconds |
| XdrCache.XdrCache.Decode | src/utils/xdrCache.ts:16-47 | answers as the decoder without a cache would; keeps the cache the N most recently used decodable inputs in last-use order with their true decodings; failures change nothing |
| XdrCache.ValidXdrIff | src/utils/xdrValidator.ts:15-57 | exactly the strings of four or more base64 characters with at most two padding characters, within the limit, are valid |
| XdrCache.XdrCache.Clear | src/utils/xdrCache.ts:49-51 | starts the history anew |
| XdrCache.RecentOrdersByLastUse | src/utils/xdrCache.ts:20-26 | the specified order lists every decodable input of a history once, by last use |
| XdrCache.RecentSnoc | src/utils/xdrCache.ts:20-46 | a further use moves an input to the end, a failing one changes nothing |
| XdrCache.HitKeepsTail | src/utils/xdrCache.ts:20-26 | deleting and setting a cached key keeps the cache the tail of the recent inputs |
| XdrCache.MissKeepsTail | src/utils/xdrCache.ts:41-45 | so does evicting the first key of a full cache and adding a new one |
| ContractEvents.FetchContractEventsRange | src/client/stellarClient.ts:1937-2000 | a complete fetch returns the events and the paging token of the collection, and a fetch of one page the page, that the following lemmas are about, or the error |
| ContractEvents.PageThrough | src/client/stellarClient.ts:1951-1971 | paging a range reads every matching event from its start to its end once, whatever pages and tokens the server gives, empty pages included, and ends with the last token |
| ContractEvents.InOrderWithinRange | src/client/stellarClient.ts:1937-2000 | a successful complete fetch, from whatever cursor, returns matching events of the range in the order of the log and none of them twice |
| ContractEvents.ExactlyTheRangeIff | src/client/stellarClient.ts:1937-2000 | it returns exactly the events of the range when, and only when, every range read without halving was read from its beginning |
| ContractEvents.ExactlyFromIff | src/client/stellarClient.ts:1937-2000 | likewise for the events from any position on, for a fetch resumed from any cursor |
| ContractEvents.ResumedFetchIff | src/client/stellarClient.ts:1974-1989 | with a server that decides "too large" from the range alone, a resumed complete fetch returns exactly the events from its cursor on just when the cursor has left none behind that lie beyond the first part small enough |
| ContractEvents.ResumeExample | src/client/stellarClient.ts:1974-1989 | a fetch resumed after two of three events hands the second one back again |
| ContractEvents.FetchesExactlyTheRange | src/client/stellarClient.ts:1937-2000 | with a server that decides "too large" from the range alone, a complete fetch from no cursor fails or returns exactly the events of the range in order |
| ContractEvents.TokenOfLastPart | src/client/stellarClient.ts:1986-1989 | the token of a complete fetch is that of the last part that gave one; one given at the end of the range resumes after it |
| ContractEvents.FetchFails | src/client/stellarClient.ts:1972-1994 | a complete fetch fails only because a request within the range failed, or was called too large for a range that cannot be halved, with the error that says so |
| ContractEvents.FirstPageReads | src/client/stellarClient.ts:1951-1983 | a fetch of one page hands back the first of the matching events from the position asked for: exactly those before its token or, without one, those up to the end of the part it was read from |
| ContractEvents.FollowingTheToken | src/client/stellarClient.ts:1951-1983 | such a page and the events from its token on make up all events asked for, so following tokens skips nothing |
| ContractEvents.LastPageIff | src/client/stellarClient.ts:1951-1983 | a page without a token is all that was asked for exactly when no matching event lies beyond the part it was read from |
| ContractEvents.EmptyPageExample | src/client/stellarClient.ts:1974-1983 | an empty page without a token although an event of the range is left |
| ContractEvents.FirstPageFailsIff | src/client/stellarClient.ts:1972-1994 | a fetch of one page fails exactly when, halving the range from its start, the first request not called too large fails, or one that cannot be halved is called too large; with the error that says which |
| ContractEvents.HalvesPartition | src/client/stellarClient.ts:1974-1989 | the halves are smaller, and their events make up those of the range |
| ContractEvents.LossExample | src/client/stellarClient.ts:1972-1989 | an oversize answer to a later page loses the pages before it |
| FeeBuffer.ApplyFeeBuffer | src/client/stellarClient.ts:1587-1631 | a transaction without contract data is left as it is; another is accepted exactly when simulated and buffered totals are within the limit, with the raised fees and resources as result and the right error otherwise |
| FeeBuffer.FractionIsExact | src/client/stellarClient.ts:2143-2164 | the fraction is the exact value of the printed multiplier |
| FeeBuffer.MultiplyAndCeilIsLeast | src/client/stellarClient.ts:2133-2141 | the result is the least integer at or above value times multiplier |
| FeeBuffer.BufferedCoversSimulated | src/client/stellarClient.ts:1600-1602 | with a multiplier of at least one the buffered fees cover the simulated total |
| FeeBuffer.TotalIsRaised | src/client/stellarClient.ts:1593-1602 | with the resource fee within the total, the buffered fees are the raised total or one more, and exactly the total at a multiplier of one; a resource fee above the total is raised alone |
| FeeBuffer.EachIsRaised | src/client/stellarClient.ts:1600-1626 | base fee, resource fee and each resource limit become the least integer at or above their value times multiplier |
| FeeBuffer.RoundingCostsAtMostOne | src/client/stellarClient.ts:1600-1602 | rounding the two fees separately gives at least, and at most one more than, rounding their sum |
| FeeBuffer.FirstCheckRedundantIff | src/client/stellarClient.ts:1604-1616 | the first limit check is implied by the second, for all fees, exactly when the multiplier is at least one |
| StateHydration.ThawFreezeIff | src/client/stellarClient.ts:184-222 | freezing fails exactly on invalid dates and leaves no date; thawing gives the value back exactly when it held no object that looks like a date marker |
| StateHydration.ExportIs | src/client/stellarClient.ts:1568-1585 | an export fails exactly on an invalid date, and otherwise carries every field of every transaction with dates that read back |
| StateHydration.ImportRestoresExport | src/client/stellarClient.ts:1568-1689 | importing an export adds exactly the transactions with a hash whose deadline lies ahead, preserving hash, context, positive interval, deadline and label |
| StateHydration.FreshImportRestoresExport | src/client/stellarClient.ts:1644-1689 | a fresh client then tracks exactly these |
| StateHydration.FreshImportReturnsSurvivors | src/client/stellarClient.ts:1659-1688 | and the import hands back exactly these |
| StateHydration.RestorableIff | src/client/stellarClient.ts:1659-1686 | an entry of any snapshot can be restored exactly when it has a hash and a readable deadline still ahead; it starts anew, with the default interval where none or none positive is given |
| StateHydration.ImportTracksIff | src/client/stellarClient.ts:1644-1689 | importing any snapshot keeps what was tracked and tracks exactly the hashes of entries that can be restored besides |
| StateHydration.ImportTwiceChangesNothing | src/client/stellarClient.ts:1666-1670 | importing any snapshot again, while what it restored is tracked, changes nothing |
| StateHydration.SecondImportHandsBack | src/client/stellarClient.ts:1666-1670 | and it hands back, entry by entry, what is tracked |
| StateHydration.PendingTransactions.TrackTransaction | src/client/stellarClient.ts:1486-1513 | a tracked hash gives the existing entry; otherwise one entry with the defaults applied is added |
| StateHydration.PendingTransactions.ExportState | src/client/stellarClient.ts:1568-1585 | serializes every tracked transaction in order, or fails on an invalid date |
| StateHydration.PendingTransactions.ImportState | src/client/stellarClient.ts:1644-1689 | refuses malformed snapshots without any change; otherwise tracks and hands back what the specification says |
| RpcEndpointManager.RpcEndpointManager.constructor | src/network/rpcEndpointManager.ts:42-54 | the defaults of policy and retries, and the entries with theirs |
| RpcEndpointManager.DefaultsAre | src/network/rpcEndpointManager.ts:47-53 | without weights and priorities all endpoints weigh the same and those listed first come first |
| RpcEndpointManager.RpcEndpointManager.Pick | src/network/rpcEndpointManager.ts:89-122 | the endpoint each policy picks, and that only round-robin advances its index |
| RpcEndpointManager.RpcEndpointManager.GetActiveEndpoint | src/network/rpcEndpointManager.ts:124-127 | a pick among the candidates, or nothing without any |
| RpcEndpointManager.RpcEndpointManager.Execute | src/network/rpcEndpointManager.ts:129-150 | result and index of the failover the following lemmas are about |
| RpcEndpointManager.RpcEndpointManager.SetPolicy | src/network/rpcEndpointManager.ts:169-172 | sets the policy and restarts round-robin |
| RpcEndpointManager.RpcEndpointManager.EnableEndpoint | src/network/rpcEndpointManager.ts:174-177 | sets the flag of the first entry with the id |
| RpcEndpointManager.RpcEndpointManager.DisableEndpoint | src/network/rpcEndpointManager.ts:179-182 | clears the flag of the first entry with the id |
| RpcEndpointManager.CandidatesAre | src/network/rpcEndpointManager.ts:83-87 | exactly the enabled endpoints that are neither skipped nor unhealthy are candidates |
| RpcEndpointManager.CandidatesInOrder | src/network/rpcEndpointManager.ts:83-87 | candidates keep the order of the entries |
| RpcEndpointManager.PickIsChosen | src/network/rpcEndpointManager.ts:89-122 | what each policy picks: the place of the index, the share the draw falls in, the first fastest of the measured or else the first, the first of lowest priority |
| RpcEndpointManager.PrimaryIndex | src/network/rpcEndpointManager.ts:118-120 | primary-fallback picks the first endpoint of lowest priority |
| RpcEndpointManager.FastestIndex | src/network/rpcEndpointManager.ts:104-117 | least-latency picks the first endpoint of lowest measured latency |
| RpcEndpointManager.WeightedDrawFallsInShare | src/network/rpcEndpointManager.ts:95-103 | with no negative weights an endpoint is picked exactly when the drawn weight falls in its share of the total |
| RpcEndpointManager.NeverTriesTwice | src/network/rpcEndpointManager.ts:129-150 | whatever health and answers do between attempts, under any policy, no id is tried twice and only enabled endpoints not unhealthy at that moment are tried |
| RpcEndpointManager.ExecutedShape | src/network/rpcEndpointManager.ts:129-150 | all attempts but perhaps the last fail, the result is the last answer, and it gives up early only without candidates |
| RpcEndpointManager.ExecutedByPolicy | src/network/rpcEndpointManager.ts:129-150 | every attempt is the policy's choice among the candidates of its moment, and round-robin goes on by one at each |
| RpcEndpointManager.ResultIs | src/network/rpcEndpointManager.ts:129-150 | the result is the answer of the last attempt, or that there was no endpoint |
| RpcEndpointManager.AttemptsBounded | src/network/rpcEndpointManager.ts:133-135 | under fixed health at most min(maxRetries + 1, candidates) attempts |
| RpcEndpointManager.FailsIffEveryCandidateFails | src/network/rpcEndpointManager.ts:129-150 | with distinct ids and enough retries, under any policy, it throws exactly when every candidate fails |
| RpcEndpointManager.PrimaryFallbackInOrder | src/network/rpcEndpointManager.ts:118-150 | primary-fallback tries the candidates in fallback order up to the first success, the last candidate or the end of the retries |
| RpcEndpointManager.FallbackOrderIsStableSort | src/network/rpcEndpointManager.ts:119 | the fallback order is the stable sort of the candidates by priority |
| RpcEndpointManager.RoundRobinIsFair | src/network/rpcEndpointManager.ts:91-95 | any k·n consecutive picks from a stable pool of n serve each endpoint exactly k times |
| RpcEndpointManager.RoundRobinIsBalanced | src/network/rpcEndpointManager.ts:91-95 | over any number of picks no endpoint is served two times more than another |
| RpcEndpointManager.ExecutesAreFair | src/network/rpcEndpointManager.ts:91-150 | while calls succeed, any k·n successive executes use each of n candidates exactly k times |
| RpcEndpointManager.DisabledIsNeverTried | src/network/rpcEndpointManager.ts:179-182 | a disabled endpoint is never tried |
| RpcEndpointManager.DisablingOnlyRemoves | src/network/rpcEndpointManager.ts:179-182 | disabling removes that endpoint from the candidates and changes nothing else about them |
| RpcEndpointManager.EnabledIsCandidate | src/network/rpcEndpointManager.ts:174-177 | an endpoint enabled again is a candidate unless it is unhealthy or skipped |
| AbiVersionRegistry.AbiVersionRegistry.Register | axionvera-abi-versioning/src/registry/abiVersionRegistry.ts:34-46 | the new contents of both maps, which stay consistent |
| AbiVersionRegistry.AbiVersionRegistry.Unregister | axionvera-abi-versioning/src/registry/abiVersionRegistry.ts:49-62 | the new contents of both maps, which stay consistent, and whether the version was registered |
| AbiVersionRegistry.AbiVersionRegistry.List | axionvera-abi-versioning/src/registry/abiVersionRegistry.ts:88-95 | the descriptor of every listed version, none skipped |
| AbiVersionRegistry.AbiVersionRegistry.GetLatestVersion | axionvera-abi-versioning/src/registry/abiVersionRegistry.ts:98-101 | the last version listed |
| AbiVersionRegistry.AbiVersionRegistry.DetectVersion | axionvera-abi-versioning/src/registry/abiVersionRegistry.ts:119-161 | the registered explicit version, else the last listed version all of whose telling methods are present with these as matched methods, else unknown when there is none |
| AbiVersionRegistry.MatchedMethods | axionvera-abi-versioning/src/registry/abiVersionRegistry.ts:135-153 | all distinct telling methods when there are any and all are present, nothing otherwise |
| AbiVersionRegistry.MatchesIff | axionvera-abi-versioning/src/registry/abiVersionRegistry.ts:135-153 | a version matches when its fingerprint methods are all present or, without a fingerprint, all its raw methods, of which there have to be some |
| AbiVersionRegistry.DistinctKeepsFirst | axionvera-abi-versioning/src/registry/abiVersionRegistry.ts:138 | the matched methods are listed at their first occurrence |
| AbiVersionRegistry.RegistryFollowsHistory | axionvera-abi-versioning/src/registry/abiVersionRegistry.ts:34-62 | after any calls the versions are those registered and not unregistered since, with their latest descriptors, listed by when they were introduced |
| AbiVersionRegistry.HistoriesAreConsistent | axionvera-abi-versioning/src/registry/abiVersionRegistry.ts:34-62 | after any calls every order is free of duplicates and lists exactly the keys of the version map |
| AbiVersionRegistry.LatestIsMostRecentIff | axionvera-abi-versioning/src/registry/abiVersionRegistry.ts:97-101 | after any calls, the last version listed is the youngest one; it is the most recently registered one still standing exactly when one and the same version was introduced last and registered last |
| AbiVersionRegistry.RegisteredIsLastIff | axionvera-abi-versioning/src/registry/abiVersionRegistry.ts:34-46 | registering a version leaves it last exactly when it was new or already last |
| AbiVersionRegistry.LatestAfterUnregisteringExample | axionvera-abi-versioning/src/registry/abiVersionRegistry.ts:97-101 | of v1, v2, v1 and v3, with v3 unregistered again, v2 is the latest and v1 the most recently registered |
| AbiVersionRegistry.LatestNeedNotBeMostRecent | axionvera-abi-versioning/src/registry/abiVersionRegistry.ts:97-101 | registering v1, v2 and v1 again leaves v2 the latest |
| AbiVersionRegistry.DetectionOverHistories | axionvera-abi-versioning/src/registry/abiVersionRegistry.ts:119-161 | over any history detection gives the registered explicit version, else the youngest matching version, and is unknown only if none matches |

## Left out

- RPC, HTTP, wallets and the Stellar SDK: their answers are parameters of the model.
- Error messages, logging, timestamps, durations, labels of results and metadata: they carry no claim.
- Optional lists and strings that are absent are modelled as empty ones where the code treats both alike.
- Concurrent execution in the queue: a completion is always a later step, a task that throws or completes synchronously is not modelled, request ids are taken to be unique, the configuration does not change, and times are whole milliseconds.
- Interleaving of asynchronous calls on the plugin manager, the endpoint manager, the client and the migration runner: each call runs to its end before the next.
- PluginManager.PluginManager.Register: does not model plugin validation, the register hook and automatic installation, which run detached from the call.
- PluginManager.PluginManager.Install: hooks only succeed or throw; they do not call back into the manager. The error hook, the last error and the date of installation are not modelled.
- Unregistering from the plugin manager, enabling everything, middleware and client options.
- ContractEvents.FetchContractEventsRange: paging tokens are modelled as log positions, and a page goes on scanning or ends the range; retries of one request are part of its answer; decoding of events is not modelled.
- FeeBuffer.FractionIsExact: multipliers printed with an exponent, negative or not finite ones are not modelled.
- StateHydration.PendingTransactions.TrackTransaction: the polling loop, cancelling and the removal of a finished transaction are not modelled; times and intervals are integers.
- StateHydration.ThawFreezeIff: the date format is any codec that reads back what it writes; keys that JavaScript reorders are not modelled.
- SemVer.MinVersionIsUpwardClosed: the version parser is a parameter; `localeCompare` is any total order on parts that puts the empty string first and then hyphen, digits and letters in this order by first character.
- SemVer.CompareSemVer: white space before digits, which `parseInt` skips, cannot occur in an identifier and is not modelled.
- RpcEndpointManager.FailsIffEveryCandidateFails: stated for distinct ids; the code does not enforce these, and skips entries that share an id together.
- RpcEndpointManager.WeightedDrawFallsInShare: weights and the draw are exact numbers rather than floating-point ones.
- RpcEndpointManager.RpcEndpointManager.Execute: health and answers are fixed per attempt and endpoints do not change during a call; the pause between attempts is not modelled.
- VaultMigrations.VaultRuns: the schemas are predicates on the fields; annual yield is an integer.
- XdrCache.XdrCache.Decode: the capacity is any positive number instead of 50, and a decoded value is not changed by its users.
- Batch indices that are not integers.
- Sessions, environments, feature flags, capability and metadata registries, diagnostics, tracing, profiling, replay, mock server, event emitters and reconnection: mostly easy members or plumbing.
