# Verification of the metrics collector's use cases

This project models the business logic of the metrics collector in Dafny and
proves properties of that model. `dafny verify dfyconfig.toml` checks all of it.

The system discovers machines through *provisioners*, collects daily CPU, RAM
and disk samples for them through metric *providers*, groups the machines into
*applications*, recommends capacities, and records every background task it
runs. The modules follow that structure.

- `Domain`, `Fleet`, `Ordering`, `Lists`, `Extensionality`, `Wrappers`: canonical
  identifiers, the shared rows and provider visibility, `ORDER BY ... LIMIT`,
  lists without repetition, equality of sets and maps, optional values.
- `Recommendation`, `Optimization`: the arithmetic of one recommendation, the
  metric window, the evaluation of a scope, the aggregation, and the table with
  one row per machine.
- `Metrics`, `Collection`: the daily metric tables and one collection as a
  transaction.
- `Inventory`, `InventorySession`: the upsert of discovered machines over two
  layers (flushed rows and values in memory), the append-only flavor history,
  and the run as a transaction with its bookkeeping. `InventoryColumns` states
  the run column by column in terms of the discovered records.
- `Association`, `RegistryStore`: providers, provisioners and their attachments
  under every API action, and the actions as the routes run them.
  `AssociationEffects` states when each action is accepted and what it changes.
- `ApplicationDispatch`, `DispatchProtocol`, `Coverage`: one dispatcher run, the
  protocol of many dispatchers and workers interleaving, and how many
  applications a window of ticks reaches.
- `Scheduler`: dispatch of provisioners by their cron expressions.
- `Projection`, `FanOut`: the applications table as a projection of the
  machines, and the expansion of syncs into (machine, provider) tasks.
- `TaskTracking`, `TaskTable`, `Sanitization`: execution rows driven by worker
  signals, the insert race between publisher and worker, and the reduction of
  task results. `TaskColumns` states what each column tells about the signals.

Where the source updates rows in place or loops, the model has a class or a
method, proved equal to a specification function or relation; the lemmas then
state what the source promises about that specification. Where a database
session may fail, the model has an explicit error outcome, and the failing
publish, enqueue or flush is a parameter. Times are integers, metric
arithmetic is over exact reals.

Some promises hold only under a condition, which is then stated exactly:

- At most one live ticket per application holds in runs where no ticket reaches
  the retry delay; a ticket that old can be doubled, and only such a one
  (`DoubleTicketExactly`; `LateWorkerIsDoubled` is a run from an idle table).
- A recommendation settles after one application, except below the catalog
  minimum under a load that asks the minimum to grow at once, where it takes two
  (`SecondApplicationIsNeeded`; `RaisedMachineGrowsAgain` is an input). The documentation (docs/optimizations.md:25)
  describes raising the calculated target to the minimum; the code also raises
  whenever the current capacity is below it, whatever the utilization.
- The action is monotone in the utilization except where the lower utilization
  asks to grow and the higher one rounds past the catalog maximum, or the lower
  one is not positive and the higher one asks to shrink
  (`ActionMonotoneExactly`, whose condition is the guards of those branches;
  `GrowthStopsPastTheMaximum` and `IdleIsKept` are inputs).
- A stored result belongs to a successful row without error exactly when no
  failure, retry or unsuccessful end follows it before the next start
  (`ConsistentExactly`); the signals of ordinary attempts are of that kind.
- The projection and the machine query agree on a machine exactly when its
  grouping columns are canonical (`BelongsExactly`), which every inventory run
  stores (`InventoryStoresCanonical`).
- An inventory run changes nothing exactly when every record finds a machine
  that already has its flavor, and the last record to find a machine says what
  that machine stores (`RunChangesNothingExactly`). Running the same records
  again has no effect if no machine was hit twice (`RunIsIdempotent`), and has
  one if two records of one machine disagree on the flavor or a record no longer
  finds its machine (`RepeatedMachineIsNotIdempotent`; `TwoFlavorsAlternate` is
  an input).
- A flush is accepted exactly when the final values are free of key clashes and
  no statement writes a key that the row of a later statement still holds
  (`CanFlushExactly`). So a machine cannot take the hostname of one with a
  later id even if that one moves away (`TakenHostnameFails`), and a run that
  discovers two machines with exchanged hostnames fails
  (`ExchangedHostnamesFail`).
- A message with tracking headers and one without resolve to the same resource
  except for a task of no known type (`HeadersAgreeExactly`).
- A collection whose connector answers fails in its flush exactly when a missing
  day is asked for twice, or a new day names a machine that does not exist
  (`StoreBatch`). The documentation
  (docs/optimizations.md:40) says a stored sample triggers a refresh; the code
  refreshes after every successful collection, also an empty one.

## Model

| member | source | states |
|---|---|---|
| `Domain.NormalizeIsCanonical` | internal/domain/applications.py:4-13 | an identifier normalizes to nothing exactly when it is missing or blank, and otherwise to a string without outer blanks in one letter case |
| `Domain.CanonicalIsFixed` | internal/domain/machines.py:4-13 | normalizing leaves a canonical identifier as it is |
| `Domain.NormalizeIsIdempotent` | internal/infra/db/models.py:217-235 | the validators, which normalize what the use cases already normalized, change nothing |
| `Domain.NormalizeHostnameIsIdempotent` | internal/infra/db/models.py:227-230 | the hostname with its fallback to the raw value is stable under a second pass |
| `Domain.NormalizeKeepsText` | internal/domain/applications.py:4-13 | the canonical form is the text between its first and last non-blank, letter by letter, up to letter case |
| `Domain.CasingOfIdentifiers` | internal/domain/machines.py:16-24 | applications, dimensions and hostnames hold no lower-case letter, external ids no upper-case one; a blank hostname stays as it is and a blank dimension reads UNKNOWN |
| `Fleet.VisibilityMeaning` | internal/usecases/optimizations.py:220-239 | an enabled provider of the scope on the machine's platform sees it if it has no provisioners or has the machine's source among them; no other provider does |
| `Ordering.NewestAreNewer` | internal/usecases/optimizations.py:251-258 | every date the window leaves out is older than every date it takes |
| `Recommendation.RoundedTargetIsNextUnit` | internal/usecases/optimizations.py:293-301 | rounding lands on a positive whole number of cores or 1024 MB steps, at or above the raw target and less than one unit above it; nothing exactly for a target that is not positive |
| `Recommendation.BoundedTargetIsSound` | internal/usecases/optimizations.py:268-290 | a bounded target is whole units within the catalog, covers the raw target, and exceeds it by less than one unit unless it is the minimum |
| `Recommendation.RawTargetMeaning` | internal/usecases/optimizations.py:178-186 | at its raw target the capacity would be used at 65 percent |
| `Recommendation.BoundedTargetIsLeast` | internal/usecases/optimizations.py:268-301 | the bounded target is the least catalog size that covers a positive raw target, and is missing exactly if there is none |
| `Recommendation.ReasonMeaning` | internal/usecases/optimizations.py:178-217 | which reason accompanies each action, with the thresholds 85, 40, 1.1 and 0.8 |
| `Recommendation.ActionableTargetIsSound` | internal/usecases/optimizations.py:178-217 | an actionable target is strictly above (or below) the capacity, whole, within the catalog, and outside the raise to the minimum keeps utilization at or below 65 percent without wasting a unit |
| `Recommendation.DiskNeverShrinks` | internal/usecases/optimizations.py:202-213 | disk is never proposed for a downscale |
| `Recommendation.ReachedTargetIsKept` | internal/usecases/optimizations.py:178-217 | once the capacity is the size a raw target asks for, the same raw target says keep at any utilization |
| `Recommendation.SettlesInOne` | internal/usecases/optimizations.py:178-217 | from the minimum up, one application under constant load reaches keep |
| `Recommendation.Converges` | internal/usecases/optimizations.py:178-217 | under constant load the engine says keep after two applications (one from the minimum up) and never moves again, for any number of further applications |
| `Recommendation.SecondApplicationIsNeeded` | internal/usecases/optimizations.py:188-198 | one application is not enough exactly below the minimum under a load that asks the minimum to grow |
| `Recommendation.RaisedMachineGrowsAgain` | internal/usecases/optimizations.py:188-206 | one core at 200 percent with a minimum of two and a maximum of eight cores is raised to two and then grows to four |
| `Recommendation.GuardsDecide` | internal/usecases/optimizations.py:200-214 | from the minimum up the engine grows, or shrinks, exactly when the guard of that branch holds of the utilization and the bounded target |
| `Recommendation.ActionMonotoneExactly` | internal/usecases/optimizations.py:200-214 | a higher utilization lowers the action exactly if the lower one asks to grow and the higher one rounds past the catalog maximum, or the lower one is not positive and the higher one asks to shrink |
| `Recommendation.GrowthStopsPastTheMaximum` | internal/usecases/optimizations.py:282-289 | four cores with a maximum of six grow at 85 percent and are kept at 100 |
| `Recommendation.IdleIsKept` | internal/usecases/optimizations.py:295-296 | four cores shrink at 10 percent and are kept at 0 |
| `Recommendation.ActionMonotone` | internal/usecases/optimizations.py:200-214 | for positive utilizations within the catalog the action goes shrink, keep, grow |
| `Optimization.WindowIsLocal` | internal/usecases/optimizations.py:242-258 | tables that agree on the samples not older than a full window have the same window |
| `Optimization.AverageWithin` | internal/usecases/optimizations.py:261-265 | the average lies between the smallest and largest sample; the laws below fix it |
| `Optimization.AverageOfChange` | internal/usecases/optimizations.py:261-265 | changing one of n samples by d changes the average by d / n |
| `Optimization.AverageOfEqual` | internal/usecases/optimizations.py:261-265 | equal samples average to that sample |
| `Optimization.AverageOfPermutation` | internal/usecases/optimizations.py:261-265 | the order of the samples does not matter |
| `Optimization.AverageIsMean` | internal/usecases/optimizations.py:242-265 | the average times the number of samples is the total of the stored rows at the window dates |
| `Optimization.WindowMeaning` | internal/usecases/optimizations.py:242-258 | the window holds the newest stored dates, newest first, as many as there are up to its size, and every stored date it leaves out is older |
| `Optimization.FillScopeDetails` | internal/usecases/optimizations.py:123-217 | the record filled branch by branch is the evaluation of the scope, whose statuses and columns the two laws below state |
| `Optimization.UncalculableMeaning` | internal/usecases/optimizations.py:138-175 | which status a scope without a single visible provider, or without a capacity, has, and that nothing is computed for it |
| `Optimization.CalculableMeaning` | internal/usecases/optimizations.py:161-217 | with one visible provider and a capacity the scope lacks data exactly if no row is stored for the pair, and otherwise its utilization times the number of samples is the total of the rows at the window dates, from which raw target and decision follow |
| `Optimization.EvaluationIsLocal` | internal/usecases/optimizations.py:123-217 | changing samples older than a full window, or of other pairs, leaves the evaluation of the scope unchanged |
| `Optimization.UtilizationWithinWindow` | internal/usecases/optimizations.py:177-186 | the utilization of a calculable scope lies within the samples it used (`CalculableMeaning` says which mean it is) |
| `Optimization.EffectiveTargetMeaning` | internal/usecases/optimizations.py:334-342 | a stored target is missing exactly when the scope is not ok, equals the capacity exactly for keep, and otherwise is a whole catalog size strictly in the announced direction |
| `Optimization.AggregateMeaning` | internal/usecases/optimizations.py:304-331 | ready, error and each global action hold exactly when the three scopes say so |
| `Optimization.SnapshotMeaning` | internal/usecases/optimizations.py:70-120 | each scope of the snapshot is evaluated on its own telemetry and feeds its own stored target; settings, flavor and time are those of the moment |
| `Optimization.OptimizationTable.Refresh` | internal/usecases/optimizations.py:41-67 | creating, touching and overwriting all leave the machine's only row equal to the snapshot computed now, and every other row alone |
| `Metrics.OverrideValue` | internal/usecases/metrics.py:84-105 | a stored day holds its last sample of the batch |
| `Metrics.OverrideElsewhere` | internal/usecases/metrics.py:84-105 | a day the batch does not name keeps its row or its absence |
| `Metrics.ToSampleMeaning` | internal/usecases/metrics.py:60-98 | a record's own machine id wins, then a matching external id or hostname of the collected machine, else it is skipped; its own date wins over today |
| `Metrics.TruncateMeaning` | internal/usecases/metrics.py:84-98 | a stored value is the record's value without its fraction, on both sides of zero |
| `Metrics.GrowthIsFresh` | internal/usecases/metrics.py:98-105 | the table grows by exactly the samples counted as created |
| `Metrics.Accumulate` | internal/usecases/metrics.py:183-190 | the loop, which looks rows up in the flushed table, leaves memory and pending rows that together are the map override, and counts each sample once |
| `Metrics.StoreBatch` | internal/usecases/metrics.py:77-105 | the batch is stored as map override if and only if no missing day is asked for twice and every new row names an existing machine |
| `Metrics.CollectingAgainChangesNothing` | internal/usecases/metrics.py:91-105 | storing the same samples again creates nothing, cannot fail and leaves the table as it is |
| `Collection.CollectionAccounts` | internal/usecases/metrics.py:151-200 | a successful collection touches the table of its scope only, grows it by the reported creations and accounts for every record (one skip for none); any other outcome changes no table |
| `Collection.CollectMeaning` | internal/usecases/metrics.py:151-208 | which outcome a collection has; a flush fails exactly if a missing day is asked for twice or a new day names no machine; each stored day holds its last record's value |
| `Collection.CollectionIsIdempotent` | internal/usecases/metrics.py:151-200 | repeating a successful collection on the same days creates 0, updates the rest and leaves the same tables |
| `Collection.CollectionSession.Run` | internal/usecases/metrics.py:151-208 | commit of tables, success time and refreshed optimization together, or rollback of everything but the provider's error |
| `Inventory.OverwriteIsVerbatim` | internal/infra/db/models.py:217-235 | the machine's validators store a normalized record as it is; `InventoryColumns.StepMeaning` says column by column what that is |
| `Inventory.FlushWrites` | internal/infra/db/models.py:188-191 | the statements of a flush leave exactly the session's values, and an accepted flush leaves them free of key clashes |
| `Inventory.CanFlushExactly` | internal/infra/db/models.py:188-191 | a flush is accepted if and only if the final values are unique and no statement writes a key that the row of a later statement still holds |
| `Inventory.TakenHostnameFails` | internal/infra/db/models.py:188-191 | taking the hostname of a machine of the platform with a later id fails the flush, whatever that machine's new hostname |
| `Inventory.ExchangedHostnamesFail` | internal/usecases/inventory.py:147-168 | in any table, a run that discovers two machines of its provisioner and platform with exchanged hostnames fails |
| `Inventory.FindMachineMeaning` | internal/usecases/inventory.py:21-42 | the match is the only flushed row with the external id of this provisioner, else the only one with the hostname on this platform, and nothing exactly when neither exists |
| `Inventory.Counters` | internal/usecases/inventory.py:105-159 | after any records the counters and the history have grown by one report per record and one row per creation or flavor change |
| `Inventory.RunAccounts` | internal/usecases/inventory.py:94-168 | a successful run reports created + updated = number of records, appends created + flavor changes rows to an unchanged history, and leaves unique keys |
| `Inventory.FlavorHistoryIsFaithful` | internal/usecases/inventory.py:74-91 | over any sequence of runs and deletions each machine's flavor log is non-empty, never repeats a flavor in a row and ends with the machine's flavor |
| `InventoryColumns.FlavorLogMeaning` | internal/infra/db/models.py:238-252 | the flavor log of a machine lists the flavors of all its history rows in order |
| `InventoryColumns.DeletionMeaning` | internal/infra/db/models.py:205-215 | deleting a machine removes it with exactly its history rows and leaves the logs of the others |
| `InventoryColumns.RunEventMeaning` | internal/usecases/inventory.py:94-174 | a run event writes what the run writes, or nothing if the run fails |
| `InventoryColumns.EventsInTurn` | internal/usecases/inventory.py:94-174 | each event acts on what the earlier ones left |
| `Inventory.ProcessSettles` | internal/usecases/inventory.py:110-159 | if no machine is hit twice, every record is still what its machine stores at the end of the run (`InventoryColumns.RunWritesLastRecord` names the columns, hit twice or not) |
| `Inventory.RunChangesNothingExactly` | internal/usecases/inventory.py:94-168 | a run creates 0, updates all, changes no flavor and leaves machines and history alone if and only if every record finds a machine with its flavor and the last record to find a machine says what it stores |
| `Inventory.RunIsIdempotent` | internal/usecases/inventory.py:94-168 | running the records again on what a run left changes nothing exactly under that condition, which holds if no machine was hit twice |
| `Inventory.RepeatedMachineIsNotIdempotent` | internal/usecases/inventory.py:45-51 | in any table, a run with two records that find one machine and disagree on its flavor, or with a record that finds none, does not succeed without a change |
| `Inventory.TwoFlavorsAlternate` | internal/usecases/inventory.py:144-147 | on a table of one machine, two records with different flavors change it twice and leave it ready for the same again |
| `InventoryColumns.UniqueMeaning` | internal/infra/db/models.py:188-191 | hostnames are unique on a platform and external ids on a provisioner |
| `InventoryColumns.FreedKeysCanBeReused` | internal/infra/db/models.py:188-191 | a flush is accepted if no updated machine takes a key another one held, whatever the new machines take |
| `InventoryColumns.FoundByColumns` | internal/usecases/inventory.py:21-42 | a record finds the machine with its external id on this provisioner, else the one with its hostname on this platform, compared column by column |
| `InventoryColumns.StepMeaning` | internal/usecases/inventory.py:110-159 | a record leaves its machine with source, external id, hostname, application, region, environment, flavor and extra each from its own field, reports a creation or an update, and logs exactly creations and flavor changes |
| `InventoryColumns.RunWritesLastRecord` | internal/usecases/inventory.py:94-168 | after a successful run each machine it hit, found or new, shows in every column the last record that hit it, and no other machine changed |
| `InventoryColumns.RunIsAccounted` | internal/usecases/inventory.py:74-91 | a successful run adds as many machines as it reports created, signs and dates the appended history, and refreshes exactly the machines with an appended row |
| `InventorySession.ExpectedMeaning` | internal/usecases/inventory.py:94-174 | only a completed run changes machines or history, and it accounts for every record |
| `InventorySession.OutcomeMeaning` | internal/usecases/inventory.py:94-174 | missing, disabled, failed discovery, failed flush and completion each happen exactly under their own condition, and a completed run reports and leaves what the run did |
| `InventorySession.BookkeepingMeaning` | internal/usecases/inventory.py:100-174 | every run dates the provisioner's last run, a completed one its last success and clears the error, a failed one stores its error; no other provisioner changes |
| `InventorySession.Session.RunProvisioner` | internal/usecases/inventory.py:94-174 | a run either commits the upsert with its bookkeeping, or leaves everything but the provisioner's run time and error alone (`OutcomeMeaning`, `BookkeepingMeaning` and `InventoryColumns.RunWritesLastRecord` name the columns); every touched machine's optimization is a from-scratch evaluation of the final state |
| `InventorySession.Session.Upsert` | internal/usecases/inventory.py:110-159 | the loop with its flushes is the specified run, failing exactly when it does; `InventoryColumns.RunWritesLastRecord` and `RunIsAccounted` say what that run writes |
| `InventorySession.Session.RefreshTouched` | internal/usecases/inventory.py:161-162 | after the sorted refreshes exactly the touched machines' rows are evaluations of the given machines, and no other row moved |
| `InventorySession.FailsFrom` | internal/usecases/inventory.py:169-174 | a flush failure at any record fails the whole run |
| `Association.PerformKeeps` | app/api/routes/machines/providers.py:61-91 | every action keeps: attached pairs share a platform, one provider per scope on a provisioner, machines on the platform of their provisioner, unique machine keys |
| `Association.CreateKeeps` | app/api/routes/machines/providers.py:142-165 | creating a provider with provisioners keeps the invariant |
| `Association.UpdateKeeps` | app/api/routes/machines/providers.py:254-324 | changing scope and platform keeps the invariant |
| `Association.AttachKeeps` | app/api/routes/machines/providers.py:373-389 | attaching keeps the invariant; `AssociationEffects.AttachExactly` says what it attaches |
| `Association.DetachKeeps` | app/api/routes/machines/providers.py:392-406 | detaching keeps the invariant |
| `Association.MoveKeeps` | app/api/routes/machines/provisioners.py:39-47 | moving a provisioner to another platform keeps the invariant |
| `Association.DeleteProvisionerKeeps` | app/api/routes/machines/provisioners.py:281-287 | deleting a provisioner with its attachments, unlinking its machines, keeps the invariant |
| `AssociationEffects.AttachExactly` | app/api/routes/machines/providers.py:373-389 | an attach succeeds exactly when both rows exist on one platform and the pair is attached already or no other provider of the scope is attached; then exactly that pair is added and no column changes |
| `AssociationEffects.DetachExactly` | app/api/routes/machines/providers.py:392-406 | a detach succeeds exactly when both rows exist on one platform; then exactly that pair goes |
| `AssociationEffects.CheckMeaning` | app/api/routes/machines/providers.py:61-77 | the first refused provisioner decides, by absence, platform or scope in that order |
| `AssociationEffects.CreateProviderExactly` | app/api/routes/machines/providers.py:142-165 | a provider is created exactly when its platform exists and none of its provisioners is refused; it starts disabled with exactly the listed attachments |
| `AssociationEffects.UpdateExactly` | app/api/routes/machines/providers.py:254-324 | an update succeeds exactly when no attached provisioner has another provider of the new scope and all of them live on the new platform; then scope and platform change and attachments stay |
| `AssociationEffects.SetEnabledExactly` | app/api/routes/machines/providers.py:225-240 | enabling and disabling change that flag of that provider and nothing else |
| `AssociationEffects.DeleteProviderExactly` | app/api/routes/machines/providers.py:327-333 | deleting a provider removes its row and no other |
| `AssociationEffects.CreateProvisionerExactly` | app/api/routes/machines/provisioners.py:74-95 | a provisioner is created on an existing platform, with a new id |
| `AssociationEffects.MoveExactly` | app/api/routes/machines/provisioners.py:39-47 | a provisioner may change its platform exactly when it has no machines and no provider on another platform than the new one |
| `AssociationEffects.DeleteProvisionerExactly` | app/api/routes/machines/provisioners.py:281-287 | deleting a provisioner ends exactly its attachments and clears the source of exactly its machines |
| `AssociationEffects.DeletePlatformExactly` | internal/infra/db/models.py:27-32 | deleting a platform removes exactly its provisioners, providers and machines |
| `AssociationEffects.TableActionsExactly` | app/api/routes/platforms.py:22-29 | creating a platform adds it, deleting a machine removes exactly its row |
| `AssociationEffects.RunInventoryExactly` | internal/usecases/inventory.py:94-168 | an inventory run as an action succeeds exactly when the run does and writes the machines it hit, and nothing but machines |
| `AssociationEffects.ActionsInTurn` | app/api/routes/machines/providers.py:142-165 | each action acts on what the earlier ones left, and a refused one changes nothing |
| `Association.RunKeeps` | internal/usecases/inventory.py:110-159 | an inventory run leaves every machine on the platform of its provisioner |
| `Association.AttachedProviderIsUnique` | internal/usecases/optimizations.py:220-239 | at most one provider of a scope with provisioners sees a machine |
| `Association.AmbiguityNeedsAnUnattachedProvider` | internal/usecases/optimizations.py:155-159 | after any actions a scope is ambiguous exactly when an enabled provider without provisioners and another enabled provider of the scope see the machine |
| `RegistryStore.Store.FindScopeConflict` | internal/infra/db/models.py:321-335 | the scan finds another attached provider of the scope exactly when there is one |
| `RegistryStore.Store.LoadProvisioners` | app/api/routes/machines/providers.py:61-77 | the first refused provisioner decides the refusal |
| `RegistryStore.Store.EnsureScopeMatches` | app/api/routes/machines/providers.py:87-91 | passes exactly when no attached provisioner has another provider of the new scope |
| `RegistryStore.Store.EnsurePlatformMatches` | app/api/routes/machines/providers.py:80-84 | passes exactly when all attached provisioners are on the new platform |
| `RegistryStore.Store.EnsurePlatformCanChange` | app/api/routes/machines/provisioners.py:39-47 | the early return, the linked machines and the scan of attached providers give the refusal of the action |
| `RegistryStore.Store.CreateProvider` | app/api/routes/machines/providers.py:142-165 | the route accepts exactly what `AssociationEffects.CreateProviderExactly` says, adds exactly that row and keeps the invariant |
| `RegistryStore.Store.UpdateProvider` | app/api/routes/machines/providers.py:254-324 | the route accepts exactly what `AssociationEffects.UpdateExactly` says and changes exactly those columns; a refusal after the scope was assigned leaves the row alone |
| `RegistryStore.Store.Attach` | app/api/routes/machines/providers.py:373-389 | the route succeeds exactly when the pair can be attached, then adds exactly that pair, and keeps the invariant |
| `RegistryStore.Store.Detach` | app/api/routes/machines/providers.py:392-406 | the route removes exactly that pair and keeps the invariant |
| `RegistryStore.Store.MoveProvisioner` | app/api/routes/machines/provisioners.py:221-248 | the platform change has the outcome of the action and keeps the invariant |
| `ApplicationDispatch.BatchSizeIsMinimal` | internal/usecases/applications.py:16-30 | the automatic batch is the smallest one whose window of ticks reaches every application |
| `ApplicationDispatch.TicksMeaning` | internal/usecases/applications.py:16-27 | a window holds as many whole ticks as fit into windowDays days of 86400 seconds, at least one |
| `ApplicationDispatch.BatchSizeMeaning` | internal/usecases/applications.py:16-30 | a configured batch size is taken as it is, and the batch is empty exactly without applications |
| `ApplicationDispatch.SelectTakesTheFirst` | internal/usecases/applications.py:98-105 | every selected row comes before every candidate left out: never synced, then oldest, then smallest id |
| `ApplicationDispatch.BatchMeaning` | internal/usecases/applications.py:98-105 | the batch holds rows never synced or synced at least windowDays days ago, unreserved or reserved at least the retry delay ago, as many as there is room for, and whoever is left out comes later in the order |
| `ApplicationDispatch.BatchTakesAllWaiting` | internal/usecases/applications.py:98-105 | with room in the batch a row is selected if and only if it is such a row |
| `ApplicationDispatch.PartialPublish` | internal/usecases/applications.py:112-135 | when publish number k raises, the first k rows stay reserved at now, the rest are released with the dispatch error, and no other row changes |
| `ApplicationDispatch.ApplicationTable.DispatchDue` | internal/usecases/applications.py:77-136 | the run reserves the batch, publishes it up to the failing call and leaves the specified table; with room and no failure it publishes exactly the rows whose sync is missing or a window old and whose reservation is missing or expired |
| `DispatchProtocol.IdleIsInvariant` | internal/usecases/applications.py:98-103 | a table without dispatchers and tasks, reserved in the past at most, satisfies the invariant the runs start from |
| `DispatchProtocol.ReserveEffect` | internal/usecases/applications.py:98-115 | a reservation stamps exactly the chosen rows, each due and available by its own columns, and gives the dispatcher exactly their tickets |
| `DispatchProtocol.PublishEffect` | internal/usecases/applications.py:117-120 | a publish turns the first remaining ticket into a task and changes no row |
| `DispatchProtocol.FailPublishEffect` | internal/usecases/applications.py:121-134 | a failing publish releases exactly the remaining rows with the dispatch error |
| `DispatchProtocol.EndEffect` | internal/usecases/applications.py:199-216 | a sync that ends well dates its row and clears reservation and error, a failing one clears the reservation and notes the error, a lost one changes nothing |
| `DispatchProtocol.MoveKeeps` | internal/usecases/applications.py:98-135 | every move of a dispatcher or worker keeps: one live ticket per application, which is its row's current reservation of a row that was due |
| `DispatchProtocol.AtMostOneTicket` | internal/usecases/applications.py:98-136 | in every interleaving of any number of dispatchers and workers whose tickets end before the retry delay, the invariant holds throughout |
| `DispatchProtocol.DoubleTicketExactly` | internal/usecases/applications.py:99-108 | a row with a live ticket can be reserved again if and only if the ticket has reached the retry delay, and then it has two |
| `DispatchProtocol.LateWorkerIsDoubled` | internal/usecases/applications.py:98-118 | from an idle table, reserving, publishing, waiting for the retry delay and reserving again ends with two tickets |
| `DispatchProtocol.HeldIsNotAvailable` | internal/usecases/applications.py:99-103 | a held row passes the retry filter exactly from the retry delay on |
| `DispatchProtocol.CrashedReservationRecovers` | internal/usecases/applications.py:98-103 | whatever else happens, a row whose reservation was lost in a crash passes both filters of the query again exactly from the retry delay on |
| `DispatchProtocol.NothingIsStuck` | internal/usecases/applications.py:99-103 | every row is available again once the retry delay has passed |
| `DispatchProtocol.DispatcherFollowsProtocol` | internal/usecases/applications.py:98-135 | a sequential dispatcher is a path of the protocol with the same final table and one task per published row |
| `Coverage.DispatchThenSyncIsTick` | internal/usecases/applications.py:98-115 | a dispatch without failures whose syncs succeed is a tick of the coverage model |
| `Coverage.WaitingExactly` | internal/usecases/applications.py:98-105 | each tick takes a full batch off the applications due at the first tick, for as long as any are left |
| `Coverage.CoverageExactly` | internal/usecases/applications.py:16-30 | some ticks reach every application due at the first one if and only if that many batches hold them |
| `Coverage.WindowCoversBacklog` | internal/usecases/applications.py:16-30 | with the automatic batch, every application never synced or synced at least a window of days before the first tick is published within one window of ticks |
| `Coverage.SmallerBatchMisses` | internal/usecases/applications.py:28-30 | any smaller batch leaves somebody out when all applications are due |
| `Coverage.TickTimeMeaning` | internal/usecases/applications.py:26-30 | tick number j is j spacings after the first |
| `Coverage.ChosenOnce` | internal/usecases/applications.py:98-101 | within one window no application is published twice |
| `Scheduler.DueExactly` | internal/usecases/scheduler.py:13-23 | due means never dispatched or at least one fire after the last dispatch up to now; missed slots coalesce |
| `Scheduler.DispatchMeaning` | internal/usecases/scheduler.py:38-59 | a dispatch that finishes or dies stamps exactly the overdue candidates; one whose publish raises stamps none but some of them; nothing else changes |
| `Scheduler.DueKeepsOrder` | internal/usecases/scheduler.py:38-50 | the due candidates are published in the order of the query |
| `Scheduler.FinishedPublishesDue` | internal/usecases/scheduler.py:26-61 | a finished dispatch publishes exactly the due candidates, all of them enabled, and stamps them now, so that each is due again exactly from its next fire on |
| `Scheduler.UnpublishedStaysDue` | internal/usecases/scheduler.py:52-59 | a provisioner whose publish failed has its exact former row and is due at every later time |
| `Scheduler.ProvisionerTable.DispatchDueJobs` | internal/usecases/scheduler.py:26-61 | the run publishes a prefix of the due rows and leaves exactly the published ones stamped |
| `Scheduler.ProvisionerTable.Reserve` | internal/usecases/scheduler.py:38-45 | the loop stamps exactly the due rows and remembers their former values |
| `Scheduler.ProvisionerTable.Restore` | internal/usecases/scheduler.py:52-58 | the loop gives exactly the unpublished rows their former values back |
| `Scheduler.PublicationsMeaning` | internal/usecases/scheduler.py:47-61 | every publication is an enabled overdue candidate under the cron in force, a finished dispatch publishes all of them, and a failing one as many as its position says |
| `Scheduler.EditMeaning` | internal/usecases/scheduler.py:26-45 | creating, enabling, rescheduling and deleting change their own column of their own row |
| `Scheduler.HistoryGrows` | internal/usecases/scheduler.py:26-61 | the history is the publications of every event, in order |
| `Scheduler.HistorySeparated` | internal/usecases/scheduler.py:26-61 | over any sequence of dispatches, failures, crashes and edits, later publications of a provisioner have a fire after earlier ones |
| `Scheduler.FireBetweenPublications` | internal/usecases/scheduler.py:13-23 | between two publications of a provisioner the cron in force fires, after the first and no later than the second |
| `Scheduler.CountIsNumber` | internal/usecases/scheduler.py:26-61 | the count is the number of publications of the provisioner in the interval |
| `Scheduler.PublicationsBoundedByFires` | internal/usecases/scheduler.py:26-61 | in any interval a provisioner is published at most once more than its cron fires |
| `Projection.BelongsExactly` | internal/usecases/applications.py:139-148 | the query finds a machine under its own key exactly when its columns are canonical, and then under no other key |
| `Projection.ApplicationTable.Rebuild` | internal/usecases/applications.py:33-74 | rows are exactly the machines' keys: backed ones are kept as they are, others deleted, missing ones created unsynced, with exact counts |
| `Projection.MachineInOneRow` | internal/usecases/applications.py:35-50 | after a rebuild each machine naming an application is in exactly one row, which carries its application, environment and region, a missing dimension as UNKNOWN |
| `Projection.RowHasMachine` | internal/usecases/applications.py:61-67 | after a rebuild every row has a machine with its three columns |
| `Projection.RebuildIsIdempotent` | internal/usecases/applications.py:33-74 | rebuilding again from the same machines creates 0, deletes 0 and keeps every row |
| `FanOut.ApplicationPairsMeaning` | internal/usecases/applications.py:185-196 | a sync enqueues each pair of a machine of the row and an enabled provider that sees it exactly once; restricting providers to the row's platforms loses none |
| `FanOut.RowsFanOutOnce` | internal/usecases/applications.py:139-196 | the syncs of all rows together enqueue no pair twice |
| `FanOut.ProviderFanOutMeaning` | internal/usecases/metrics.py:108-148 | dispatching all enabled providers enqueues each enabled provider with each machine it sees exactly once |
| `FanOut.FanOutsAgree` | internal/usecases/applications.py:139-196 | after a rebuild the syncs of all rows enqueue, once each, exactly the provider-dispatch pairs whose machine names an application |
| `FanOut.EnqueuedPairIsInScope` | internal/usecases/metrics.py:164-174 | collecting for an enqueued pair finds provider and machine in scope while the state is unchanged |
| `FanOut.SyncSession.Run` | internal/usecases/applications.py:175-218 | a sync enqueues all pairs and marks the row synced, or the pairs before the failing call and clears the reservation with an error; a missing row changes nothing |
| `FanOut.SyncIsFinish` | internal/usecases/applications.py:199-216 | both ends of a sync are the end of its ticket in the dispatch protocol |
| `FanOut.InventoryStoresCanonical` | internal/infra/db/models.py:217-235 | over a whole inventory run the machines stay canonical |
| `FanOut.DatabaseStaysCanonical` | internal/infra/db/models.py:217-235 | over any sequence of runs and deletions the machines stay canonical |
| `FanOut.FanOutsAgreeAlways` | internal/usecases/applications.py:139-196 | in every database reached from the empty one, both fan-outs agree after a rebuild |
| `TaskTracking.HeadersCarryContext` | internal/infra/queue/task_tracking.py:36-45 | headers built at publish time lead every later signal to the published resource, whatever arguments it sees |
| `TaskTracking.HeadersAgreeExactly` | internal/infra/queue/task_tracking.py:358-374 | resolving with and without headers differs exactly for a task of no known type with an id-like first argument |
| `TaskColumns.KnownTypeMeaning` | internal/infra/queue/task_tracking.py:25-31 | which task names have which resource type, and that no others have one |
| `TaskColumns.IdentifierMeaning` | internal/infra/queue/task_tracking.py:386-394 | an id is a number, or a non-empty text of decimal digits with the number it notates, and nothing else |
| `TaskColumns.ResolveMeaning` | internal/infra/queue/task_tracking.py:358-374 | a header wins over the name and the arguments of a message, which count only where it is missing |
| `TaskTracking.LinkIsWrittenOnce` | internal/infra/queue/task_tracking.py:95-105 | resource type and id never change once set, through any signals |
| `TaskColumns.LinkTakesFirstOffer` | internal/infra/queue/task_tracking.py:95-105 | a type or id the row was inserted without is that of the first signal offering one, and stays missing as long as none does |
| `TaskTracking.DurationIsElapsed` | internal/infra/queue/task_tracking.py:377-383 | a duration is the non-negative time between two timestamps that are both set, through any signals |
| `TaskColumns.ColumnsTellSignals` | internal/infra/queue/task_tracking.py:95-221 | after any signals the status is STARTED, FAILURE, RETRY or the reported state as the last one says, and each timestamp, duration, result and error is what the last signal to write it said, else what the row had |
| `TaskTracking.ConsistentExactly` | internal/infra/queue/task_tracking.py:134-147 | through a whole sequence of signals a result appears only on a successful row without error if and only if nothing but a start or a success follows a result |
| `TaskTracking.AttemptDecides` | internal/infra/queue/task_tracking.py:95-147 | an attempt leaves a row that depends on it alone, up to the link and the queue time |
| `TaskColumns.OngoingAttempt` | internal/infra/queue/task_tracking.py:95-221 | after the start of an attempt, whatever came before, the row is STARTED with no end, duration, result or error; after a notice it is FAILURE or RETRY with the reason, still started, with no end or result |
| `TaskTracking.LastAttemptDecides` | internal/infra/queue/task_tracking.py:78-221 | however often a task was retried, its row tells the last attempt |
| `TaskTracking.AttemptsKeepResultsConsistent` | internal/infra/queue/task_tracking.py:78-221 | the signals of any number of attempts are orderly |
| `TaskTracking.LateFailureSpoils` | internal/infra/queue/task_tracking.py:174-179 | a failure notice after a delivered result leaves a result on a failed row |
| `TaskTable.MoveKeeps` | internal/infra/queue/task_tracking.py:227-293 | every load and commit keeps: the row is its first version with the recorded signals applied, and what a handler loaded is not stale |
| `TaskTable.RaceRefinesSequence` | internal/infra/queue/task_tracking.py:227-293 | in every interleaving no signal is lost, duplicated or reordered, and the row is its first version with all recorded signals applied |
| `TaskTable.PublishNeverResets` | internal/infra/queue/task_tracking.py:227-257 | a publish handler never changes a row that is there |
| `TaskTable.InterleavingsAgree` | internal/infra/queue/task_tracking.py:260-293 | with the same context on both sides, any two interleavings that recorded the same signals agree on everything but the queue time |
| `TaskTable.AttemptsUnderRace` | internal/infra/queue/task_tracking.py:48-293 | while the signals of any attempts are recorded, in any interleaving with publishers, a result appears only on a successful row without error and a duration is the elapsed time |
| `TaskTable.LastAttemptUnderRace` | internal/infra/queue/task_tracking.py:48-293 | once all of them are recorded the row tells the last attempt, whoever inserted it |
| `TaskColumns.RunTellsSignals` | internal/infra/queue/task_tracking.py:227-293 | in every interleaving there is a row exactly once a handler committed; it began as the pending row one of the handlers offered, and every column tells the recorded signals |
| `TaskColumns.OngoingUnderRace` | internal/infra/queue/task_tracking.py:227-293 | between two signals of an attempt the row shows a running or interrupted task in every interleaving |
| `TaskColumns.LinkUnderRace` | internal/infra/queue/task_tracking.py:227-293 | in every interleaving the row's resource is the one it was inserted with, else the first one a recorded signal offered |
| `TaskTable.Execution.Start` | internal/infra/queue/task_tracking.py:95-105 | the fields assigned one by one are the start transition: STARTED, started now, no end, duration, result or error |
| `TaskTable.Execution.Finish` | internal/infra/queue/task_tracking.py:134-147 | the fields assigned one by one are the finish transition: the reported state, an end time for SUCCESS, FAILURE and REVOKED, a result and no error for SUCCESS only |
| `TaskTable.ExecutionTable.CreateIfMissing` | internal/infra/queue/task_tracking.py:227-257 | a row is inserted only if there is none, pending with nothing but its context and queue time, and a rival insert wins |
| `TaskTable.ExecutionTable.MutateExecution` | internal/infra/queue/task_tracking.py:260-293 | the signal is applied once: to the stored row, to the rival's after a failed insert, or to a fresh pending one; the row then has the status the signal announces, and after a start runs with nothing of an earlier attempt |
| `Sanitization.FixedExactlyWhenClean` | internal/infra/security/sanitization.py:83-99 | the values sanitizing leaves alone are exactly the JSON values whose objects carry only allow-listed unique keys at every depth |
| `Sanitization.SanitizedIsClean` | internal/infra/security/sanitization.py:83-99 | sanitizing always yields such a value |
| `Sanitization.CleanIsFixed` | internal/infra/security/sanitization.py:83-99 | sanitizing such a value changes nothing |
| `Sanitization.SanitizedLookup` | internal/infra/security/sanitization.py:91-95 | under an allowed key the result holds the sanitized last value given for it, under any other key nothing |
| `Sanitization.SanitizedShape` | internal/infra/security/sanitization.py:83-99 | plain values stay, timestamps and foreign objects become their text, lists keep length and order, and objects keep exactly their allowed keys |
| `Sanitization.SanitizedResultIsClean` | internal/infra/security/sanitization.py:68-80 | a task result is nothing or a non-empty clean object |
| `Sanitization.ResultMeaning` | internal/infra/security/sanitization.py:17-80 | the result of an object keeps every entry under one of the sixteen allowed keys and is nothing exactly without one; any other value goes under "status", and no value is no result |
| `Sanitization.ReadShowsWhatWasStored` | internal/contracts/http/resources.py:469-473 | sanitizing again on read shows what was stored |

## Left out

- Authentication, HTTP and Pydantic plumbing, MCP tools, Prometheus, logging, migrations and encryption: I/O or foreign libraries.
- Unicode case mapping and Unicode digits: letters and digits are ASCII.
- Float rounding and NaN: capacities and utilizations are exact reals.
- Cron parsing, time zones and cron expressions that never fire: a calendar is any lawful next-fire function.
- Manual application syncs: they bypass the reservation, so the one-ticket claim covers dispatcher-published tasks.
- An enqueue that raises although the broker took the message: a raising publish is taken to have published nothing.
- Overlapping provisioner dispatches: a late restore could rewind a newer reservation.
- The order in which a rebuild creates rows: the source sorts the keys, the model takes any order; only the new ids depend on it.
- Name uniqueness (409 on commit), duplicate provisioner ids in one create request, and connector configuration of providers and provisioners.
- Provider run times in the provider dispatch, and its re-check that the provider still exists.
- Retention purges as such: deletions appear as environment steps of the inventory, association, dispatch and projection models.
- Purging or concurrently recording a second worker on one task id while a signal is being recorded: the signals of one task id are recorded one after the other.
- The mapping of exceptions to error codes, which is not idempotent; errors are opaque values.
- Optimization rows are values in a map; identity of row objects in the session is not modelled.
- Reuse of deleted row ids by the database.
- Application and machine summaries, pagination and freshness of untouched optimization rows.
- Inventory.FlushWrites: one statement per machine, updates in id order and then inserts; unchanged machines are written with their own values.
- Coverage.WindowCoversBacklog: a fixed set of applications, no outstanding reservation at the first tick, and every published sync succeeding before the next tick, as the bound needs.
- TaskTable.InterleavingsAgree: the queue time differs by design, since it is the publisher's or the worker's clock.
- Scheduler.FireBetweenPublications: dispatches do not overlap and the clock does not go back.
- FanOut.EnqueuedPairIsInScope: only while machines and providers are unchanged between enqueue and collection.
