# cassandra-shift, modelled in Dafny

cassandra-shift applies schema migrations to a Cassandra keyspace. The migrations are
files in one directory, named `<version>__<name>.js` or `<version>__<name>.cql`. A ledger
table (by default `migration_history`) records one row per migration attempt: version,
name, type, checksum, install time, duration and success.

This project models the reconciliation and execution engine of `lib/index.js`, together
with the CQL migration's loader and executor (`lib/CqlMigration.js`). It also models the
earlier entry point `index.js`, shown next to the current one where the two differ:

- **File names** (`FileNames`): matching a directory entry against
  `^([0-9]+)__([A-z0-9_]*)\.(js|cql)$`, `parseInt` of the digit group, and `prettyName`.
  The parser is proved to accept exactly the names the regular expression matches.
- **Loading** (`Loader`): `loadAvailableMigration` and `loadAvailableMigrations` over a
  snapshot of the directory (listing and file contents). The checksum library is a
  function parameter.
- **CQL scripts** (`CqlScript`): `split(/;[\r\n]+/)` and its properties.
- **The cluster** (`Cluster`): a `Session` class holding the requests sent so far and the
  tables, with a refusal oracle that decides which requests the cluster refuses.
- **Reconciliation** (`Reconcile`):
  - the sort applied by `getAppliedMigrations`;
  - `computeState`;
  - the consistency gate `checkAppliedMigrations`;
  - the checks of `validate`;
  - the report loop of `info`.
- **Execution** (`Executor`): running one migration, then recording it in the ledger
  (`executeMigration`).
- **The orchestrator** (`Shift`): the class `Shift` with `migrate`, `info` and
  `validate`. Each is a method on the session, proved against a specification function
  of the old state.
- **The earlier entry point** (`Legacy`): `index.js`, including the three places where it
  throws a `TypeError` that the current version avoids (see Findings).

The cluster is a value `Db(trace, tables)`:

- `trace` is every request sent, in order;
- `tables` maps each table name to its rows.

A request at position `n` of the trace is refused exactly when `rejects(n)` holds. A
`SELECT` or `INSERT` on a table that does not exist is also refused. `INSERT` is an
upsert on the primary key `version`. The wall clock is a function `clock(n)`: the reading
taken after `n` requests.

A JavaScript migration's exported function is one opaque request `RunModule(version)`.
A CQL migration sends its statements one by one and stops at the first refused one.

A few behaviours of the code are easy to miss:

- `validate` returns true when the gate passes and no migration is pending
  (`lib/index.js:295`). Ledger rows beyond the available migrations are tolerated.
- `info` propagates a failure of `useKeyspace` or of loading the migrations. Only a
  failed ledger read is turned into an empty list of applied rows.
- The `version` field of an `info` entry is the slot index `i`, as the code fills it
  (`lib/index.js:270`).

## Model

| member | source | states |
|---|---|---|
| FileNames.Parse | lib/index.js:64-68 | a name that is accepted is the composition `digits + "__" + stem + "." + ext` of a well-formed triple (digits non-empty, stem over `[A-z0-9_]`) |
| FileNames.ComposeParses | lib/index.js:64 | every well-formed composition is accepted and decomposed back into its own three groups: the match is unique and the groups are recovered exactly |
| FileNames.RejectedMatchesNothing | lib/index.js:64-66 | a rejected name is not the composition of any well-formed triple, so Parse rejects only names the pattern does not match |
| FileNames.LeadingZeroKeepsValue | lib/index.js:72 | `parseInt` of the digit group ignores leading zeros (`"0"+d` has the value of `d`) |
| FileNames.DecimalValueBound | lib/index.js:72 | the version parsed from `n` digits is below `10^n` |
| FileNames.PrettyName | lib/index.js:57-61 | it fails exactly on the empty name, where `spaced[0].toUpperCase()` reads `undefined` |
| FileNames.SpacedAt | lib/index.js:58 | replacing `_` by a space keeps the length and changes exactly the underscores |
| FileNames.PrettyNameShape | lib/index.js:57-61 | for a name over `[A-z0-9_]`: same length; space exactly where the name had `_`; other characters after the first kept; first character upper-cased when it is a lower-case ASCII letter, kept otherwise unless it is `_`; no `_` left |
| FileNames.PrettyNameIdempotent | lib/index.js:57-61 | applying prettyName to its own result changes nothing |
| Model.TypeTag | lib/CqlMigration.js:9-11 | the type written to the ledger is `"CQL"` exactly for a CQL migration and `"JS"` exactly for a JavaScript one |
| CqlScript.Split | lib/CqlMigration.js:19 | the split always yields at least one piece |
| CqlScript.SplitRejoin | lib/CqlMigration.js:19 | the pieces interleaved with the separators that were cut out give back the script: the split loses no text |
| CqlScript.SeparatorsAreTerminators | lib/CqlMigration.js:19 | each cut-out separator is a `;` followed by one or more `\r`/`\n` |
| CqlScript.PiecesHaveNoTerminator | lib/CqlMigration.js:19 | no piece contains a `;` followed by a line break |
| CqlScript.LaterPiecesStartWithoutBreak | lib/CqlMigration.js:19 | the line-break run is consumed greedily: a piece after the first never starts with `\r` or `\n` |
| CqlScript.SingleStatementIff | lib/CqlMigration.js:19 | the script stays one statement exactly when it contains no terminator |
| CqlScript.TrailingTerminatorYieldsEmptyStatement | lib/CqlMigration.js:19-21 | a script ending in `;` and line breaks yields a final empty statement, which is still sent |
| Cluster.Perform | lib/index.js:10-47 | a request is appended to the trace; it passes exactly when the cluster accepts it; a refusal names the request and its position and leaves the tables unchanged |
| Cluster.Select | lib/index.js:52 | a `SELECT *` changes no table and returns the stored rows exactly when accepted |
| Cluster.UpsertContents | lib/index.js:45 | after an insert keyed by `version` the new row is present, rows with other versions stay, and no other row appears |
| Cluster.UpsertShape | lib/index.js:45 | an insert with a new version appends; one with an existing version keeps the row count |
| Cluster.UpsertKeepsKey | lib/index.js:45 | the table keeps distinct versions (the primary key) across inserts |
| Cluster.Session.Execute | lib/index.js:31 | one request on the session changes its state as `Perform` says |
| Cluster.Session.SelectRows | lib/index.js:52 | one select on the session changes its state as `Select` says |
| Loader.LoadOneCases | lib/index.js:63-91 | a non-matching name is skipped (`undefined`); a matching name with an empty name group or an unreadable file fails; otherwise the migration carries the parsed version, the pretty name, the type and the checksum and text of its file |
| Loader.DiscoverSpec | lib/index.js:93-106 | discovery succeeds exactly when every matching entry loads; it then yields one migration per matching entry, in listing order, each loaded from that entry |
| Loader.DiscoverReportsFirstFailure | lib/index.js:99-103 | a failed discovery reports the error of the first matching entry that cannot be loaded |
| Loader.LoadAvailableMigrations | lib/index.js:93-106 | the loop over the listing returns exactly what `Discover` specifies, stopping at the first failure |
| Reconcile.SortByVersionSpec | lib/index.js:52-54 | the fetched ledger is sorted ascending by version and is a permutation of the stored rows |
| Reconcile.AscendingArrangementUnique | lib/index.js:52-54 | two ascending arrangements of the same rows with distinct versions are equal |
| Reconcile.FetchOrderIrrelevant | lib/index.js:52-54 | with `version` as primary key, the sorted ledger does not depend on the order the cluster returns rows in |
| Reconcile.ComputeStateMeaning | lib/index.js:108-126 | PENDING iff no row; UNKNOWN_* iff row without descriptor; MISMATCH iff version, name or checksum differ; SUCCESS/UNKNOWN_SUCCESS iff the row succeeded and nothing mismatches; FAILED likewise |
| Reconcile.CompareSlot | lib/index.js:149-156 | one slot passes exactly when version, name and checksum agree |
| Reconcile.CheckFromSpec | lib/index.js:142-157 | the loop passes exactly when every slot with both entries agrees; otherwise it reports the first slot that disagrees |
| Reconcile.CheckPassIff | lib/index.js:128-158 | the gate passes exactly when the ledger is empty, or its last row succeeded and every slot with both entries agrees; surplus rows beyond the definitions are skipped |
| Reconcile.CheckReportsFirstProblem | lib/index.js:134-156 | a failure is the halted error naming the last row's version and name when that row failed, else the mismatch of the first disagreeing slot |
| Reconcile.CheckMatchesSlotStates | lib/index.js:108-158 | the gate passes exactly when no slot's computed state is MISMATCH and the last row's state is SUCCESS or UNKNOWN_SUCCESS |
| Reconcile.CheckAppliedMigrations | lib/index.js:128-158 | the loop returns exactly the outcome of `Check` |
| Reconcile.ValidityIff | lib/index.js:292-297 | validation passes exactly when the gate passes and no available migration is pending; when only pending work remains, the error is "applied a out of m" |
| Reconcile.BuildReport | lib/index.js:263-279 | one entry per slot up to `max(len(applied), len(available))`; each entry names the slot index and takes name and type from the descriptor, else the row; its state is `computeState`; time and duration come from the row or are absent |
| Executor.RunStatementsStops | lib/CqlMigration.js:20-21 | the statements are sent in order up to and including the first refused one; none after it; the outcome is that refusal, or success when none is refused |
| Executor.ExecuteScript | lib/CqlMigration.js:18-22 | the loop over the split statements changes the session as `RunStatements` of `Split(cql)` says |
| Executor.RunSpec | lib/index.js:167-174 | running a migration changes no table, sends at least one request, all of them migration work, and passes exactly when none of them is refused |
| Executor.AttemptRow | lib/index.js:176-186 | the ledger row carries the migration's version, name, type and checksum and the success flag |
| Executor.AttemptSpec | lib/index.js:160-192 | the migration's requests come first, then exactly one ledger insert; it records the migration, the start time, the duration and whether every migration request passed; the table changes only by that upsert, when accepted; a refused insert's error wins; otherwise the outcome passes iff both passed, or re-raises the migration's own refusal |
| Executor.RunMigration | lib/index.js:168 | executing a migration changes the session as `Run` says |
| Executor.ExecuteMigration | lib/index.js:160-192 | executing and recording a migration changes the session as `Attempt` says |
| Shift.MigrationTable | lib/index.js:201-202 | the ledger table is the configured one when set and non-empty, `migration_history` when unset or empty, and never empty |
| Shift.FetchApplied | lib/index.js:49-55 | the fetch sends one select, changes no table, fails exactly when the cluster refuses it, and otherwise yields the stored rows in ascending version order |
| Shift.RunPendingSpec | lib/index.js:225-233 | the pending loop runs `M[i]`, `M[i+1]`, ... in order; it writes one row per attempted migration describing it, announces exactly the completed ones, and stops at the first failure, whose row may or may not have reached the table; on success every pending migration is recorded as succeeded |
| Shift.MigrateStopsAtGate | lib/index.js:219-223 | when the gate fails, `migrate` reports the gate's error after the select alone: no migration runs, no table changes, no `checkedAppliedMigrations` |
| Shift.MigrateRunsPending | lib/index.js:222-233 | when the gate passes, `checkedAppliedMigrations` comes first; with nothing pending the run ends there; otherwise the migrations from index `len(applied)` on run as `RunPendingSpec` states |
| Shift.ValidateMeaning | lib/index.js:282-308 | validate changes no table; it yields true exactly when the keyspace switch, the fetch and the load succeed, the gate passes and nothing is pending; without rethrow only a failed keyspace switch escapes as an error |
| Shift.ValidateModesAgree | lib/index.js:301-306 | the two modes send the same requests and emit the same notifications; quiet mode yields false exactly when loud mode raises an error from inside the `try` |
| Shift.InfoReadsOnly | lib/index.js:248-262 | info changes no table; it reports on the sorted ledger, or on no applied rows when the fetch is refused, and on the discovered migrations |
| Shift.Shift.constructor | lib/index.js:196-203 | the instance keeps the clients and options and resolves the ledger table name |
| Shift.Shift.OptionalRequest | lib/index.js:206-214 | an optional keyspace request is sent only when enabled, and its notification is emitted only when it passes |
| Shift.Shift.PrepareCluster | lib/index.js:205-217 | the opening of `migrate` changes the session and notifications as `Prepare` says |
| Shift.Shift.GetAppliedMigrations | lib/index.js:49-55 | the fetch changes the session and returns what `FetchApplied` says |
| Shift.Shift.Upgrade | lib/index.js:219-233 | the rest of `migrate` changes the session and notifications as `UpgradeSpec` says |
| Shift.Shift.Migrate | lib/index.js:205-236 | `migrate` changes the session and the notifications as the preparation stage, then `UpgradeSpec`, says |
| Shift.Shift.ApplyPending | lib/index.js:225-233 | the loop over the pending migrations changes the session and notifications as `RunPending` says |
| Shift.Shift.Info | lib/index.js:248-280 | info returns one entry per slot, as `BuildReport` states, for the inputs `InfoInputs` describes, or the load error |
| Shift.Shift.ValidateTry | lib/index.js:288-299 | the `try` block of validate changes the session and notifications as `ValidateChecks` after `FetchApplied` says |
| Shift.Shift.Validate | lib/index.js:282-308 | validate returns and changes what `ValidateSpec` says |
| Legacy.LegacyLoadOneOk | index.js:49-77 | the legacy loader accepts a file exactly when it matches the pattern and can be read |
| Legacy.LegacyDiscoverOk | index.js:79-92 | legacy discovery succeeds exactly when every listed entry matches and can be read |
| Legacy.LegacyDiscoverContents | index.js:79-92 | legacy discovery yields one migration per listed entry, in order |
| Legacy.LegacyKeepsRawName | index.js:59 | where both loaders accept a file, the legacy name is the raw name group and the current one its pretty form; all other fields coincide |
| Legacy.StrayNameBreaksLegacyDiscovery | index.js:50-51 | any entry that does not match makes legacy discovery fail, while the current loader skips exactly that entry |
| Legacy.ReadmeOnly | index.js:50-51 | a directory holding only `README.md` makes the legacy loader throw and the current one return no migrations |
| Legacy.LegacyLoadAvailableMigrations | index.js:79-92 | the legacy loop returns exactly what `LegacyDiscover` specifies |
| Legacy.LegacyCheckAgrees | index.js:94-117 | with no more rows than definitions, the legacy gate equals the current one |
| Legacy.SurplusRowsBreakLegacyGate | index.js:104-109 | with more rows than definitions and otherwise clean, the legacy gate fails on the first missing definition where the current gate passes |
| Legacy.SurplusRowsNeverPassLegacyGate | index.js:94-117 | with more applied rows than definitions the legacy gate fails, whatever the rows hold |
| Legacy.AscendingFetchIsSorted | lib/index.js:52-54 | a ledger with distinct versions fetched in ascending order is unchanged by the sort |
| Legacy.UnsortedFetchMisplacesAVersion | index.js:43-47 | a fetch with distinct versions out of version order has a slot whose version differs from the sorted ledger's |
| Legacy.LegacyGateNeedsAscendingFetch | index.js:43-47 | when the sorted ledger passes the gate and every row has a definition, the legacy gate (no sort) passes exactly when the fetch came back in ascending version order |
| Legacy.TwoRowsFetchedNewestFirst | index.js:94-117 | two matching rows fetched newest first: the current gate passes, the legacy one fails with a version mismatch at slot 0 |
| Legacy.LegacyCheckAppliedMigrations | index.js:94-117 | the legacy loop returns exactly the outcome of `LegacyCheck` |
| Legacy.LegacyAttemptOneClient | index.js:119-151 | given one client, the legacy executor behaves as the current one on `migration_history` |
| Legacy.LegacyAttemptWithList | index.js:135-147 | given the client list, the insert throws a type error: no ledger row is written, no table changes and the migration's own error is lost |
| Legacy.LegacyExecuteMigration | index.js:119-151 | the legacy executor changes the session as `LegacyAttempt` says |
| Legacy.LegacyRunPendingOneClient | index.js:182-190 | with one client the legacy loop is the current loop on `migration_history` |
| Legacy.LegacyRunPendingWithList | index.js:182-190 | with the client list the first pending migration ends the run with a type error and no ledger row |
| Legacy.LegacyMigrateNeverRecords | index.js:162-193 | legacy `migrate` never writes a ledger row; past the gate it passes exactly when nothing is pending, and fails with the type error otherwise |
| Legacy.LegacyShift.constructor | index.js:155-160 | the legacy instance hands the whole client list to the executor |
| Legacy.LegacyShift.PrepareCluster | index.js:163-174 | the legacy opening changes the session and notifications as `Prepare` on `migration_history` says |
| Legacy.LegacyShift.Upgrade | index.js:176-190 | the rest of legacy `migrate` changes the session and notifications as `LegacyUpgradeSpec` says |
| Legacy.LegacyShift.Migrate | index.js:162-193 | legacy `migrate` changes the session and notifications as the preparation on `migration_history`, then `LegacyUpgradeSpec`, says |
| Legacy.LegacyShift.ApplyPending | index.js:182-190 | the legacy pending loop changes the session and notifications as `LegacyRunPending` says |

## Left out

- Concurrency and the promise chain: every `await` is modelled as a sequential step.
  The `EventEmitter` becomes the list of notifications emitted so far, and the debug
  output is left out.
- `clean()` (drop and recreate the keyspace) is not modelled; it touches no ledger
  logic. The legacy `clean`, `info` and `validate` are empty and are not modelled.
- `readdir` failing (a missing directory) is not modelled: the directory is a snapshot
  of its listing and contents.
- Path building (`dir + sep + filename`) is not modelled: files are looked up by
  their entry name.
- The checksum library is a function parameter `digest`. The wall clock is a function
  `clock` of the number of requests sent.
- A JavaScript migration's `require` and its exported function are opaque. Loading
  fails only when the file is missing; running is one request that the cluster
  accepts or refuses. Its effect on the tables is not modelled.
- CQL statements other than the ledger's own requests change no modelled table.
  `CREATE KEYSPACE`, `USE` and `CREATE TABLE IF NOT EXISTS` are requests that can be
  refused. Creating the ledger table is modelled: `CREATE TABLE IF NOT EXISTS` for the
  ledger adds that table when accepted. Other DDL changes no modelled table.
- Executor.Attempt: `executionTime` is `clock(q) - clock(p)` for an unconstrained
  clock, so it can be negative, as `new Date() - now` can be when the wall clock steps back.
- Only the first client of `cassandraClients` is modelled. The whole list is passed to
  a JavaScript migration's function, which is opaque here anyway.
- FileNames.DecimalValue: the version is an unbounded natural number. JavaScript's
  `parseInt` loses precision above 2^53, and the ledger column is a 32-bit `int`;
  neither limit is modelled.
- Shift.Shift.Migrate: the options' `dir` is passed as the directory snapshot rather
  than read from the options object.
- The legacy `./CqlMigration` and `./JsMigration` modules are not part of this model;
  the legacy entry point uses the current CQL and JS migration behaviour.
- `prettyName` applies `toUpperCase` to the first character for ASCII only. Names over
  `[A-z0-9_]` are ASCII, so nothing is lost for names that reach it.

## Findings

| source | as written | input that shows it | evidently intended | confidence | as-written member | corrected member |
|---|---|---|---|---|---|---|
| index.js:50-51 | `match.index` is read without a null check, so a directory entry that does not match the pattern throws a `TypeError` and aborts discovery | a directory containing only `README.md` | skip entries that do not match, as `lib/index.js:65` does | high (not executed) | Legacy.ReadmeOnly | Loader.DiscoverSpec |
| index.js:104-109 | the check loop reads `m.version` for every applied row, including rows with no definition at that slot | two applied rows, both succeeded, and one matching definition | skip slots without a definition, as `lib/index.js:146-147` does | high (not executed) | Legacy.SurplusRowsBreakLegacyGate | Reconcile.CheckPassIff |
| index.js:43-47 | the ledger rows are compared in the order the cluster returns them, with no sort by version | two matching, succeeded rows returned newest first | sort the rows by version before comparing, as `lib/index.js:52-54` does | medium (not executed): the order depends on the cluster's partitioner | Legacy.TwoRowsFetchedNewestFirst | Reconcile.FetchOrderIrrelevant |
| index.js:184 | `migrate` passes the client list to `executeMigration`, whose ledger insert calls `.execute` on the list and throws a `TypeError`: no row is recorded and the migration's own error is lost | any pending migration | record the attempt through the first client, as `lib/index.js:176` does | high (not executed) | Legacy.LegacyRunPendingWithList | Executor.AttemptSpec |
