# Backup/restore orchestration, modelled in Dafny

This project models the coordination layer of a Discourse-style backup and
restore: the `BackupRestore::SystemInterface` object that puts a site into
maintenance (readonly mode, Sidekiq paused), waits for the site's running
Sidekiq jobs to drain, purges the site's queued jobs and wipes Redis; and the
`BackupRestore` module functions that roll back a restore by moving the
`backup` schema into `public`, raise the shutdown signal, and report status.

The collaborators are one object, `Environment.Host`. Its fields are:

- the site's Redis as a `map<string, string>`;
- the readonly switch as a boolean;
- Sidekiq's queues and its retry, scheduled and dead sets as sequences of jobs;
- the database catalog as the schemas that exist plus a map from
  (kind, schema, name) to owner, for tables, views and enum types.

Sidekiq counts as paused while its pause key holds a reason. An operation
counts as running while the operation-running key is present. The shutdown
signal counts as raised while its key is present. The key names are
configuration (`Environment.KeyNames`), because their definitions are not
part of this model. The shutdown-signal key is taken to be one of the keys of
`redis_keys`, as the flush test in
spec/lib/backup_restore/system_interface_spec.rb (lines 149-162) expects. That
is what lets the signal survive `flush_redis` (`KeyNames.Valid`).

The modules:

- `Outcomes`: option and error values.
- `RubyText`: `String#blank?`, `Integer#to_s`, `String#to_i`.
- `SidekiqJobs`: the drain and purge tests on jobs.
- `Schemas`: the catalog and the meaning of the schema move.
- `Environment`: the shared state.
- `SystemInterface`: the class `SystemInterface`.
- `BackupRestore`: rollback, cancel, status, the move itself.

A few points where the code behaves differently from what one might expect:

- The drain loop never looks at the shutdown signal.
- `can_rollback?` counts every row of `information_schema.tables` in `backup`.
  Those rows are views as well as tables, and they are not filtered by owner.
  So a rollback can leave `can_rollback?` true when `backup` holds tables owned
  by another role.
- The pause check happens when `pause_sidekiq` is called, not when the
  interface is built. Only readonly mode is remembered at construction.
  So `unpause_sidekiq` also lifts a pause that someone else set before the
  operation. `SystemInterface.PauseRoundTrip` states this: pause then unpause
  always ends unpaused when the unpause call does not fail.
- Moving a schema onto itself fails when it holds an owned object. The
  `DROP ... IF EXISTS` removes the object, then the `ALTER ... SET SCHEMA` finds
  nothing to move, and the transaction rolls back.

## Model

| member | source | states |
|---|---|---|
| `SystemInterface.SystemInterface.constructor` | lib/backup_restore/system_interface.rb:15-21 | remembers the current database and whether readonly mode was already on |
| `SystemInterface.SystemInterface.EnableReadonlyMode` | lib/backup_restore/system_interface.rb:23-30 | changes nothing if readonly was on at construction; otherwise turns readonly on, or logs the failure without raising |
| `SystemInterface.SystemInterface.DisableReadonlyMode` | lib/backup_restore/system_interface.rb:32-39 | never turns off a readonly mode that was on at construction; otherwise turns it off, or logs the failure without raising |
| `SystemInterface.ReadonlyRoundTrip` | lib/backup_restore/system_interface.rb:20-39 | enable then disable through a fresh interface restores the readonly flag as it was before construction, on or off, when neither call fails |
| `SystemInterface.SystemInterface.PauseSidekiq` | lib/backup_restore/system_interface.rb:41-46 | a no-op when already paused; otherwise Sidekiq ends paused with the reason stored under the pause key |
| `SystemInterface.SystemInterface.UnpauseSidekiq` | lib/backup_restore/system_interface.rb:48-55 | a no-op when not paused; otherwise removes the pause key, or logs the failure without raising |
| `SystemInterface.PauseRoundTrip` | lib/backup_restore/system_interface.rb:41-55 | when the unpause call does not fail, pause then unpause leaves Sidekiq unpaused and every other Redis key as it was |
| `SystemInterface.CeilDiv` | lib/backup_restore/system_interface.rb:60-65 | the ceiling of the quotient, which makes the iteration bound 60 / 6 = 10 |
| `SystemInterface.SystemInterface.WaitForSidekiq` | lib/backup_restore/system_interface.rb:57-77 | sleeps 6 seconds before every poll, at least once and at most 10 times; every poll before the last found a blocking job; it returns exactly when the last poll found none, and otherwise raises `RunningSidekiqJobsError` after exactly 10 sleeps |
| `SystemInterface.WaitForSidekiqWithSteadyWorkers` | spec/lib/backup_restore/system_interface_spec.rb:107-129 | with nothing blocking, one 6-second sleep and a return; with a current-site or all-sites job still running, ten sleeps and `RunningSidekiqJobsError` |
| `SidekiqJobs.BlocksDrain` | lib/backup_restore/system_interface.rb:105 | a running job blocks the drain when it has no site id, a blank one, or the current database's, and in no other case |
| `SidekiqJobs.BelongsToCurrentSite` | lib/backup_restore/system_interface.rb:112 | a job is deleted only when its site id is the current database; such a job also blocks the drain, and a job without a site id is never deleted |
| `SidekiqJobs.HasRunningJobs` | lib/backup_restore/system_interface.rb:100-109 | true iff some running job has no site id, a blank one, or the current database's |
| `SidekiqJobs.OtherSitesNeverBlock` | lib/backup_restore/system_interface.rb:100-109 | running jobs that all belong to other sites, or no running jobs at all, never block the drain |
| `SidekiqJobs.UntaggedJobBlocksButSurvives` | lib/backup_restore/system_interface.rb:100-113 | a job without a site id blocks the drain but is not deleted by the purge |
| `SystemInterface.IgnoredKeys` | lib/backup_restore/system_interface.rb:80 | the pause key, the operation-running key, the logs message id key and every key of `redis_keys`, and nothing else |
| `SystemInterface.SystemInterface.FlushRedis` | lib/backup_restore/system_interface.rb:79-86 | deletes exactly the keys outside the ignored set and keeps the values of the rest, so the paused state, the running flag, the shutdown signal and the logs message id survive |
| `SidekiqJobs.WithoutSiteJobs` | lib/backup_restore/system_interface.rb:111-113 | a job survives iff it is in the set and its site id is not the current database |
| `SidekiqJobs.WithoutSiteJobsSnoc` | lib/backup_restore/system_interface.rb:89-95 | deleting while walking a set: each next job is kept unless it belongs to the current site |
| `SidekiqJobs.WithoutSiteJobsMultiplicity` | lib/backup_restore/system_interface.rb:111-113 | every copy of a current-site job is deleted; every copy of any other job is kept, including jobs without a site id |
| `SidekiqJobs.WithoutSiteJobsKeepsOrder` | lib/backup_restore/system_interface.rb:88-96 | the surviving jobs keep their relative order |
| `SidekiqJobs.WithoutSiteJobsIdempotent` | lib/backup_restore/system_interface.rb:88-96 | purging a second time changes nothing |
| `SystemInterface.SystemInterface.DeleteSiteJobs` | lib/backup_restore/system_interface.rb:89-95 | one deleting pass over a job set leaves exactly the jobs that do not belong to the current site |
| `SystemInterface.SystemInterface.ClearSidekiqQueues` | lib/backup_restore/system_interface.rb:88-96 | every queue and the retry, scheduled and dead sets lose exactly the current site's jobs; queue names and the order of the rest are kept |
| `SystemInterface.SystemInterface.SaveStartLogsMessageId` | lib/backup_restore/system_interface.rb:115-121 | stores the id as its decimal string; reading it back with `to_i` gives the same integer |
| `RubyText.IntToString` | lib/backup_restore/system_interface.rb:117 | the decimal string Redis stores: non-empty, a leading minus exactly for negative integers, digits otherwise |
| `RubyText.ToI` | lib/backup_restore/system_interface.rb:121 | blank or non-numeric text reads as 0; a string of digits reads as its decimal value |
| `RubyText.IntRoundTrips` | lib/backup_restore/system_interface.rb:115-121 | every integer written with `to_s` reads back unchanged with `to_i` |
| `SystemInterface.SystemInterface.StartLogsMessageId` | lib/backup_restore/system_interface.rb:120-122 | a missing key reads as 0; a stored integer reads back as that integer |
| `RubyText.IntRoundTrip` | lib/backup_restore/system_interface.rb:115-121 | `to_i` of `to_s` is the identity on integers, negative ones included |
| `RubyText.DigitPrefix` | lib/backup_restore/system_interface.rb:121 | the longest run of digits at the start of a string, as `to_i` reads it |
| `BackupRestore.Cancel` | lib/backup_restore.rb:39-42 | raises the shutdown signal and returns true; no other key and no status field changes |
| `BackupRestore.OperationsStatus` | lib/backup_restore.rb:48-54 | reports the running flag, whether `backup` holds a table or view, and development-or-setting for allowing restores |
| `Schemas.BackupTablesCount` | lib/backup_restore.rb:116-122 | zero iff `backup` holds no table and no view, whoever owns them |
| `Schemas.CanRollback` | lib/backup_restore.rb:44-46 | true iff `backup` holds at least one table or view |
| `BackupRestore.Rollback` | lib/backup_restore.rb:32-37 | raises `OperationRunningError` and changes nothing while an operation runs; otherwise moves `backup` into `public` iff `can_rollback?`; afterwards `can_rollback?` is false when the database role owned every table and view of `backup` |
| `Schemas.OwnedNames` | lib/backup_restore.rb:82 | the rows a loop selects: the names of the objects of one kind in the source schema owned by the owner |
| `Schemas.MoveNamesStep` | lib/backup_restore.rb:84-85 | one loop iteration: after the DROP in the destination the source object still exists, and the ALTER moves it, replacing any same-named object |
| `BackupRestore.MoveKindLoop` | lib/backup_restore.rb:82-86 | one loop moves every selected object, or fails only when source and destination coincide and something was selected; each ALTER follows the DROP of the same name; on success the ALTERs move exactly the selected names |
| `Schemas.HasOwnedObjectsByKind` | lib/backup_restore.rb:82-98 | the source holds an owned object iff one of the three loops selects a row |
| `BackupRestore.MoveTablesBetweenSchemas` | lib/backup_restore.rb:65-104 | creates the destination schema and runs the table, view and enum loops in that order, each DROP before its ALTER; commits the result of the move in one update, or leaves the catalog as it was when a statement raises; on success the ALTERs of each kind move exactly the objects of that kind the source held for the owner before the move |
| `Schemas.SchemaMoveAt` | lib/backup_restore.rb:80-101 | the three loops combined, object by object, against the catalog as it was before the move |
| `Schemas.SchemaMove` | lib/backup_restore.rb:80-101 | within this catalog, the move fails iff source and destination coincide and the source holds an owned object; on success the destination schema exists and no schema is dropped |
| `Schemas.SchemaMoveMovesOwned` | lib/backup_restore.rb:80-101 | each owned table, view and enum of the source is afterwards in the destination under the same name and owner, and gone from the source |
| `Schemas.SchemaMoveEmptiesSource` | lib/backup_restore.rb:82-101 | no object owned by the owner remains in the source |
| `Schemas.SchemaMoveLeavesOthers` | lib/backup_restore.rb:82-101 | objects of other owners in the source, destination objects whose name does not collide with a moved object of the same kind, and all other schemas are unchanged |
| `Schemas.SchemaMoveWellFormed` | lib/backup_restore.rb:80 | every object still lives in a schema that exists |
| `Schemas.RollbackEmptiesBackup` | lib/backup_restore.rb:34-36 | when the role owns every table and view of `backup`, `can_rollback?` is false after the rollback move |
| `Schemas.RollbackKeepsForeignBackupTables` | lib/backup_restore.rb:44-46 | a table or view of `backup` owned by another role stays, so `can_rollback?` stays true after the rollback move |

## Left out

- `backup!`, `restore!` and `spawn_process!` are left out. They spawn and detach a process or delegate to the backuper, which is not part of this model.
- `logs` and `current_version` are left out. They are a MessageBus backlog fetch and a migration-version query, both foreign calls.
- `MessageBus.last_id` is a parameter of `SaveStartLogsMessageId`.
- `sleep` calls are returned as a list of durations.
- The workers listed at each poll are a parameter of `WaitForSidekiq`, because they change outside the process.
- Logging is modelled as a list of lines in `enable_readonly_mode`, `disable_readonly_mode`, `pause_sidekiq` and `unpause_sidekiq`: their progress lines and the failures they log. The messages of `wait_for_sidekiq` are not modelled.
- `SystemInterface.SystemInterface.PauseSidekiq`: an exception from `Sidekiq.pause!` is not modelled. The source does not rescue it, so it would propagate.
- The pause key's expiry is not modelled. Neither is the value `set_shutdown_signal!` stores: the model stores a fixed value, and only the key's presence matters.
- The readonly switch is a boolean. Where Discourse stores it is not part of this model, so `flush_redis` does not touch it here.
- The definitions of `is_operation_running?`, `set_shutdown_signal!`, `should_shutdown?`, `mark_operation_as_running`/`_finished`, `redis_keys` and `OPERATION_RUNNING_KEY` are not part of this model. They are used through key presence and configured key names. Test-and-set and single-flight start are not modelled.
- Per-site Redis namespacing and cross-process concurrency are not modelled.
- The generated SQL text and `quote_ident` are not modelled. The statements run are returned as `Ddl` values instead.
- CASCADE drops of dependent objects are not modelled.
- Privilege checks of `DROP ... IF EXISTS` and `ALTER ... SET SCHEMA` are not modelled: the role need not own the dropped object nor hold CREATE on the destination schema. The model replaces a same-named destination object whoever owns it, so a move between distinct schemas never fails here.
- PostgreSQL keeps tables, views and types in shared name spaces. The catalog here keys objects by kind, so a DROP TABLE that meets a view of the same name does not raise here.
- Objects moved along with a table (indexes, sequences, row types) are not modelled.
- `information_schema.tables` hides tables the current role has no privilege on. That privilege filter is not modelled.
- `SidekiqJobs.Job`: a first job argument that is not a hash is not modelled, nor a `current_site_id` that is not a string. The source would raise on the first in the purge.
- `RubyText.ToI`: does not model underscores between digits or a `0d` prefix. `SaveStartLogsMessageId` never writes either.
