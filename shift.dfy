/**
 * The orchestrator (`class Shift` of lib/index.js): `migrate`, `info` and `validate` as
 * pipelines over the cluster, the migration directory and the reconciler. Each public
 * method is proved equal to a specification function on the database value; the
 * lemmas below state what those functions guarantee.
 */
module Shift {
  import opened Wrappers
  import opened Model
  import opened Cluster
  import opened Loader
  import opened Reconcile
  import opened Executor

  /** The options object; a missing or empty `migrationTable` is defaulted by the constructor. */
  datatype Options = Options(keyspace: string, migrationTable: Option<string>, ensureKeyspace: bool, useKeyspace: bool)

  const DefaultTable := "migration_history"

  function MigrationTable(opts: Options): (table: string)
    ensures table != ""
    ensures opts.migrationTable.Some? && opts.migrationTable.value != "" ==> table == opts.migrationTable.value
    ensures opts.migrationTable.None? || opts.migrationTable.value == "" ==> table == DefaultTable
  {
    if opts.migrationTable.None? || opts.migrationTable.value == "" then DefaultTable else opts.migrationTable.value
  }

  /** The notifications the orchestrator emits. */
  datatype Event =
    | EnsuredKeyspace
    | UsedKeyspace
    | EnsuredMigrationTable
    | CheckedAppliedMigrations
    | AppliedMigration(version: nat, name: string, tag: string)

  function AppliedEvent(m: Migration): Event {
    AppliedMigration(m.version, m.name, TypeTag(m.kind))
  }

  function AppliedEvents(ms: seq<Migration>): (evs: seq<Event>)
    ensures |evs| == |ms| && forall j :: 0 <= j < |ms| ==> evs[j] == AppliedEvent(ms[j])
  {
    seq(|ms|, j requires 0 <= j < |ms| => AppliedEvent(ms[j]))
  }

  // ---------------------------------------------------------------------------------
  // Specification functions
  // ---------------------------------------------------------------------------------

  /** A request that is sent only when `enabled`, followed by its notification when it succeeds. */
  function OptionalStep(db: Db, rejects: nat -> bool, enabled: bool, step: Step, ev: Event): (Outcome<Error>, Db, seq<Event>) {
    if !enabled then (Pass, db, [])
    else
      var r := Perform(db, rejects, step);
      if r.0.Fail? then (r.0, r.1, []) else (Pass, r.1, [ev])
  }

  /** The opening of `migrate`: optionally ensure and select the keyspace, then ensure the migration table. */
  function Prepare(db: Db, rejects: nat -> bool, opts: Options, table: string): (Outcome<Error>, Db, seq<Event>) {
    var ensure := OptionalStep(db, rejects, opts.ensureKeyspace, EnsureKeyspace(opts.keyspace), EnsuredKeyspace);
    if ensure.0.Fail? then ensure
    else
      var use := OptionalStep(ensure.1, rejects, opts.useKeyspace, UseKeyspace(opts.keyspace), UsedKeyspace);
      if use.0.Fail? then (use.0, use.1, ensure.2 + use.2)
      else
        var t := Perform(use.1, rejects, EnsureTable(table));
        if t.0.Fail? then (t.0, t.1, ensure.2 + use.2)
        else (Pass, t.1, ensure.2 + use.2 + [EnsuredMigrationTable])
  }

  /** `getAppliedMigrations`: the ledger rows sorted by version. */
  function FetchApplied(db: Db, rejects: nat -> bool, table: string): (res: (Result<seq<Row>, Error>, Db))
    ensures res.1 == Db(db.trace + [SelectAll(table)], db.tables)
    ensures res.0.Ok? <==> Accepts(db, rejects, SelectAll(table))
    ensures res.0.Ok? ==> Ascending(res.0.value) && multiset(res.0.value) == multiset(db.tables[table])
    ensures res.0.Err? ==> res.0.error == Refused(|db.trace|, SelectAll(table))
  {
    var s := Select(db, rejects, table);
    if s.0.Ok? then
      SortByVersionSpec(s.0.value);
      (Ok(SortByVersion(s.0.value)), s.1)
    else (s.0, s.1)
  }

  /** The loop of `migrate` from index `i`: attempt each migration in order, stop at the first that throws. */
  function RunPending(db: Db, rejects: nat -> bool, clock: nat -> int, table: string, M: seq<Migration>, i: nat)
    : (Outcome<Error>, Db, seq<Event>)
    decreases |M| - i
  {
    if i >= |M| then (Pass, db, [])
    else
      var a := Attempt(db, rejects, clock, table, M[i]);
      if a.0.Fail? then (a.0, a.1, [])
      else
        var rest := RunPending(a.1, rejects, clock, table, M, i + 1);
        (rest.0, rest.1, [AppliedEvent(M[i])] + rest.2)
  }

  /** The body of `migrate` after the table is ensured: fetch, load, check, then run what is pending. */
  function UpgradeSpec(db: Db, rejects: nat -> bool, clock: nat -> int, table: string,
                       dir: Directory, digest: string -> string): (Outcome<Error>, Db, seq<Event>)
  {
    var f := FetchApplied(db, rejects, table);
    if f.0.Err? then (Fail(f.0.error), f.1, [])
    else
      var L := Discover(dir, dir.listing, digest);
      if L.Err? then (Fail(L.error), f.1, [])
      else
        var A, M := f.0.value, L.value;
        if Check(A, M).Fail? then (Check(A, M), f.1, [])
        else
          var run := RunPending(f.1, rejects, clock, table, M, |A|);
          (run.0, run.1, [CheckedAppliedMigrations] + run.2)
  }

  /** What `info()` reports on: the applied rows (none when they cannot be fetched) and the available migrations. */
  function InfoInputs(db: Db, rejects: nat -> bool, opts: Options, table: string, dir: Directory, digest: string -> string)
    : (Result<(seq<Row>, seq<Migration>), Error>, Db, seq<Event>)
  {
    var use := OptionalStep(db, rejects, opts.useKeyspace, UseKeyspace(opts.keyspace), UsedKeyspace);
    if use.0.Fail? then (Err(use.0.error), use.1, [])
    else
      var f := FetchApplied(use.1, rejects, table);
      var A := if f.0.Ok? then f.0.value else [];
      var L := Discover(dir, dir.listing, digest);
      if L.Err? then (Err(L.error), f.1, use.2)
      else (Ok((A, L.value)), f.1, use.2)
  }

  /** The `try` block of `validate`: fetch, load, check, then "nothing pending". */
  function ValidateChecks(f: Result<seq<Row>, Error>, L: Result<seq<Migration>, Error>): (Outcome<Error>, seq<Event>) {
    if f.Err? then (Fail(f.error), [])
    else if L.Err? then (Fail(L.error), [])
    else if Check(f.value, L.value).Fail? then (Check(f.value, L.value), [])
    else (Validity(f.value, L.value), [CheckedAppliedMigrations])
  }

  /** `validate(rethrowError)`. */
  function ValidateSpec(db: Db, rejects: nat -> bool, opts: Options, table: string, dir: Directory,
                        digest: string -> string, rethrow: bool): (Result<bool, Error>, Db, seq<Event>)
  {
    var use := OptionalStep(db, rejects, opts.useKeyspace, UseKeyspace(opts.keyspace), UsedKeyspace);
    if use.0.Fail? then (Err(use.0.error), use.1, [])
    else
      var f := FetchApplied(use.1, rejects, table);
      var checks := ValidateChecks(f.0, Discover(dir, dir.listing, digest));
      var r := if checks.0 == Pass then Ok(true) else if rethrow then Err(checks.0.error) else Ok(false);
      (r, f.1, use.2 + checks.1)
  }

  /**
   * The loop of `migrate` at index `i` with the session at `db`, having emitted `emitted`:
   * finishing the run from here gives what the run from `start` at `from` gives.
   */
  ghost predicate Resumes(start: Db, from: nat, db: Db, rejects: nat -> bool, clock: nat -> int, table: string,
                          M: seq<Migration>, i: nat, emitted: seq<Event>)
  {
    var here := RunPending(db, rejects, clock, table, M, i);
    RunPending(start, rejects, clock, table, M, from) == (here.0, here.1, emitted + here.2)
  }

  lemma ResumesAtStart(db: Db, from: nat, rejects: nat -> bool, clock: nat -> int, table: string, M: seq<Migration>)
    ensures Resumes(db, from, db, rejects, clock, table, M, from, [])
  {
    assert [] + RunPending(db, rejects, clock, table, M, from).2 == RunPending(db, rejects, clock, table, M, from).2;
  }

  /** A migration that passes hands over to the next index, with its event emitted. */
  lemma ResumesAfterPass(start: Db, from: nat, db: Db, rejects: nat -> bool, clock: nat -> int, table: string,
                         M: seq<Migration>, i: nat, emitted: seq<Event>)
    requires i < |M| && Attempt(db, rejects, clock, table, M[i]).0.Pass?
    requires Resumes(start, from, db, rejects, clock, table, M, i, emitted)
    ensures Resumes(start, from, Attempt(db, rejects, clock, table, M[i]).1, rejects, clock, table, M, i + 1,
                    emitted + [AppliedEvent(M[i])])
  {
    var rest := RunPending(Attempt(db, rejects, clock, table, M[i]).1, rejects, clock, table, M, i + 1);
    assert emitted + ([AppliedEvent(M[i])] + rest.2) == (emitted + [AppliedEvent(M[i])]) + rest.2;
  }

  /** A migration that fails ends the run with its outcome and no further event. */
  lemma ResumesAfterFail(start: Db, from: nat, db: Db, rejects: nat -> bool, clock: nat -> int, table: string,
                         M: seq<Migration>, i: nat, emitted: seq<Event>)
    requires i < |M| && Attempt(db, rejects, clock, table, M[i]).0.Fail?
    requires Resumes(start, from, db, rejects, clock, table, M, i, emitted)
    ensures var a := Attempt(db, rejects, clock, table, M[i]);
      RunPending(start, rejects, clock, table, M, from) == (a.0, a.1, emitted)
  {
    assert emitted + [] == emitted;
  }

  /** Past the last migration the run has passed. */
  lemma ResumesAtEnd(start: Db, from: nat, db: Db, rejects: nat -> bool, clock: nat -> int, table: string,
                     M: seq<Migration>, i: nat, emitted: seq<Event>)
    requires |M| <= i && Resumes(start, from, db, rejects, clock, table, M, i, emitted)
    ensures RunPending(start, rejects, clock, table, M, from) == (Pass, db, emitted)
  {
    assert emitted + [] == emitted;
  }

  // ---------------------------------------------------------------------------------
  // What the loop of `migrate` does
  // ---------------------------------------------------------------------------------

  /** The tables after the ledger inserts `ws`, in order; inserts into a missing table change nothing. */
  function Ledger(tables: map<string, seq<Row>>, table: string, ws: seq<Row>): map<string, seq<Row>>
    decreases |ws|
  {
    if |ws| == 0 || table !in tables then tables
    else Ledger(tables[table := Upsert(tables[table], ws[0])], table, ws[1..])
  }

  lemma LedgerCons(tables: map<string, seq<Row>>, table: string, row: Row, ws: seq<Row>)
    requires table in tables
    ensures Ledger(tables, table, [row] + ws) == Ledger(tables[table := Upsert(tables[table], row)], table, ws)
  {
    assert ([row] + ws)[1..] == ws;
  }

  /** `d` is `db` after more requests. */
  predicate TraceExtends(db: Db, d: Db) {
    |db.trace| <= |d.trace| && d.trace[..|db.trace|] == db.trace
  }

  /** The notifications announce the migrations from index `i` on, in order. */
  predicate Announced(evs: seq<Event>, M: seq<Migration>, i: nat) {
    i + |evs| <= |M| && evs == AppliedEvents(M[i..i + |evs|])
  }

  /** The ledger rows describe the migrations from index `i` on, in order. */
  predicate RowsDescribe(w: seq<Row>, M: seq<Migration>, i: nat) {
    i + |w| <= |M| && forall j :: 0 <= j < |w| ==> Records(w[j], M[i + j])
  }

  /** The first `n` ledger rows record success. */
  predicate Succeeded(w: seq<Row>, n: nat) {
    n <= |w| && forall j :: 0 <= j < n ==> w[j].success
  }

  /** How the loop ended, given the rows `w` it wrote and the `n` migrations that completed. */
  predicate Ended(db: Db, table: string, M: seq<Migration>, i: nat, w: seq<Row>, n: nat, o: Outcome<Error>, d: Db) {
    (o == Pass ==> i + n == |M| && |w| == n && d.tables == Ledger(db.tables, table, w)) &&
    (o.Fail? ==>
       |w| == n + 1 &&
       (d.tables == Ledger(db.tables, table, w) || d.tables == Ledger(db.tables, table, w[..n])))
  }

  /**
   * The loop from index `i` ran `M[i]`, `M[i+1]`, ... in order, wrote one ledger row per
   * attempted migration (each describing that migration), announced exactly the `n`
   * migrations that completed, and stopped at the first failure: the `n` completed rows
   * record success, and on failure one more row was attempted, which may or may not have
   * reached the table.
   */
  predicate PendingRun(db: Db, table: string, M: seq<Migration>, i: nat, res: (Outcome<Error>, Db, seq<Event>)) {
    TraceExtends(db, res.1) &&
    var w := Writes(res.1.trace[|db.trace|..]);
    Announced(res.2, M, i) && RowsDescribe(w, M, i) && Succeeded(w, |res.2|) &&
    Ended(db, table, M, i, w, |res.2|, res.0, res.1)
  }

  /** The first migration of the loop fails: nothing is announced, and its row may or may not have been written. */
  lemma PendingRunStops(db: Db, rejects: nat -> bool, clock: nat -> int, table: string, M: seq<Migration>, i: nat)
    requires i < |M| && Attempt(db, rejects, clock, table, M[i]).0.Fail?
    ensures PendingRun(db, table, M, i, RunPending(db, rejects, clock, table, M, i))
  {
    var a := Attempt(db, rejects, clock, table, M[i]);
    AttemptSpec(db, rejects, clock, table, M[i]);
    var row := a.1.trace[|a.1.trace| - 1].row;
    assert RunPending(db, rejects, clock, table, M, i) == (a.0, a.1, []);
    StoppedAt(db, a.1, table, M, i, row, a.0);
  }

  lemma StoppedAt(db: Db, d: Db, table: string, M: seq<Migration>, i: nat, row: Row, o: Outcome<Error>)
    requires i < |M| && o.Fail?
    requires |db.trace| <= |d.trace| && d.trace[..|db.trace|] == db.trace
    requires Writes(d.trace[|db.trace|..]) == [row] && Records(row, M[i])
    requires d.tables == db.tables || (table in db.tables && d.tables == db.tables[table := Upsert(db.tables[table], row)])
    ensures PendingRun(db, table, M, i, (o, d, []))
  {
    assert M[i..i] == [];
    assert [row][..0] == [];
    if d.tables != db.tables {
      LedgerCons(db.tables, table, row, []);
      assert [row] + [] == [row];
    }
  }

  lemma AnnouncedCons(M: seq<Migration>, i: nat, evs: seq<Event>)
    requires i < |M| && Announced(evs, M, i + 1)
    ensures Announced([AppliedEvent(M[i])] + evs, M, i)
  {
    assert [AppliedEvent(M[i])] + evs == AppliedEvents(M[i..i + 1 + |evs|]);
  }

  lemma RowsCons(M: seq<Migration>, i: nat, row: Row, w: seq<Row>, n: nat)
    requires i < |M| && Records(row, M[i]) && row.success
    requires RowsDescribe(w, M, i + 1) && Succeeded(w, n)
    ensures RowsDescribe([row] + w, M, i) && Succeeded([row] + w, n + 1)
  {
    var ws := [row] + w;
    forall j | 0 <= j < |ws|
      ensures Records(ws[j], M[i + j])
    {
      if j > 0 {
        assert ws[j] == w[j - 1] && M[i + j] == M[(i + 1) + (j - 1)];
      }
    }
    forall j | 0 <= j < n + 1
      ensures ws[j].success
    {
      if j > 0 {
        assert ws[j] == w[j - 1];
      }
    }
  }

  lemma EndedCons(db: Db, mid: Db, table: string, M: seq<Migration>, i: nat, row: Row, w: seq<Row>, n: nat,
                  o: Outcome<Error>, d: Db)
    requires table in db.tables && mid.tables == db.tables[table := Upsert(db.tables[table], row)]
    requires Ended(mid, table, M, i + 1, w, n, o, d)
    ensures Ended(db, table, M, i, [row] + w, n + 1, o, d)
  {
    LedgerCons(db.tables, table, row, w);
    if o.Fail? {
      assert ([row] + w)[..n + 1] == [row] + w[..n];
      LedgerCons(db.tables, table, row, w[..n]);
    }
  }

  /** The ledger inserts from `db` to `d` through `mid` are the one row written before `mid`, then those after it. */
  lemma WritesThrough(db: Db, mid: Db, d: Db, row: Row)
    requires |db.trace| < |mid.trace| && mid.trace[..|db.trace|] == db.trace
    requires Writes(mid.trace[|db.trace|..]) == [row] && TraceExtends(mid, d)
    ensures TraceExtends(db, d)
    ensures Writes(d.trace[|db.trace|..]) == [row] + Writes(d.trace[|mid.trace|..])
  {
    var p, P1 := |db.trace|, |mid.trace|;
    assert d.trace[..p] == d.trace[..P1][..p];
    assert d.trace[p..] == mid.trace[p..] + d.trace[P1..];
    WritesAppend(mid.trace[p..], d.trace[P1..]);
  }

  /** A successful first migration followed by a run of the rest is a run from `i`. */
  lemma PendingRunCons(db: Db, mid: Db, table: string, M: seq<Migration>, i: nat, row: Row,
                       rest: (Outcome<Error>, Db, seq<Event>))
    requires i < |M|
    requires |db.trace| < |mid.trace| && mid.trace[..|db.trace|] == db.trace
    requires Writes(mid.trace[|db.trace|..]) == [row] && Records(row, M[i]) && row.success
    requires table in db.tables && mid.tables == db.tables[table := Upsert(db.tables[table], row)]
    requires PendingRun(mid, table, M, i + 1, rest)
    ensures PendingRun(db, table, M, i, (rest.0, rest.1, [AppliedEvent(M[i])] + rest.2))
  {
    var w' := Writes(rest.1.trace[|mid.trace|..]);
    WritesThrough(db, mid, rest.1, row);
    AnnouncedCons(M, i, rest.2);
    RowsCons(M, i, row, w', |rest.2|);
    EndedCons(db, mid, table, M, i, row, w', |rest.2|, rest.0, rest.1);
  }

  lemma {:induction false} RunPendingSpec(db: Db, rejects: nat -> bool, clock: nat -> int, table: string,
                                          M: seq<Migration>, i: nat)
    requires i <= |M|
    ensures PendingRun(db, table, M, i, RunPending(db, rejects, clock, table, M, i))
    decreases |M| - i
  {
    if i == |M| {
      assert RunPending(db, rejects, clock, table, M, i).1.trace[|db.trace|..] == [];
      assert M[i..i] == [];
    } else if Attempt(db, rejects, clock, table, M[i]).0.Fail? {
      PendingRunStops(db, rejects, clock, table, M, i);
    } else {
      var a := Attempt(db, rejects, clock, table, M[i]);
      AttemptSpec(db, rejects, clock, table, M[i]);
      RunPendingSpec(a.1, rejects, clock, table, M, i + 1);
      PendingRunCons(db, a.1, table, M, i, a.1.trace[|a.1.trace| - 1].row,
                     RunPending(a.1, rejects, clock, table, M, i + 1));
    }
  }

  // ---------------------------------------------------------------------------------
  // What migrate, info and validate guarantee
  // ---------------------------------------------------------------------------------

  /**
   * When the applied rows and the available migrations disagree (or the last applied
   * migration failed), `migrate` stops with the gate's error right after reading the
   * ledger: it runs no migration and writes no row.
   */
  lemma MigrateStopsAtGate(db: Db, rejects: nat -> bool, clock: nat -> int, table: string, dir: Directory,
                           digest: string -> string)
    requires FetchApplied(db, rejects, table).0.Ok? && Discover(dir, dir.listing, digest).Ok?
    requires !Clean(FetchApplied(db, rejects, table).0.value, Discover(dir, dir.listing, digest).value)
    ensures var res := UpgradeSpec(db, rejects, clock, table, dir, digest);
      var A, M := FetchApplied(db, rejects, table).0.value, Discover(dir, dir.listing, digest).value;
      res.0 == Check(A, M) && res.0.Fail? &&
      res.1 == Db(db.trace + [SelectAll(table)], db.tables) && res.2 == []
  {
    CheckPassIff(FetchApplied(db, rejects, table).0.value, Discover(dir, dir.listing, digest).value);
  }

  /**
   * When the gate passes, `migrate` announces the check and then runs exactly the
   * migrations after the ledger's length, in order (nothing at all when the ledger is at
   * least as long as the directory): the migrations already recorded are never run again.
   */
  lemma MigrateRunsPending(db: Db, rejects: nat -> bool, clock: nat -> int, table: string, dir: Directory,
                           digest: string -> string)
    requires FetchApplied(db, rejects, table).0.Ok? && Discover(dir, dir.listing, digest).Ok?
    requires Clean(FetchApplied(db, rejects, table).0.value, Discover(dir, dir.listing, digest).value)
    ensures var res := UpgradeSpec(db, rejects, clock, table, dir, digest);
      var A, M := FetchApplied(db, rejects, table).0.value, Discover(dir, dir.listing, digest).value;
      var fetched := Db(db.trace + [SelectAll(table)], db.tables);
      |res.2| >= 1 && res.2[0] == CheckedAppliedMigrations &&
      (|A| >= |M| ==> res == (Pass, fetched, [CheckedAppliedMigrations])) &&
      (|A| <= |M| ==> PendingRun(fetched, table, M, |A|, (res.0, res.1, res.2[1..])))
  {
    var A, M := FetchApplied(db, rejects, table).0.value, Discover(dir, dir.listing, digest).value;
    CheckPassIff(A, M);
    if |A| <= |M| {
      var fetched := Db(db.trace + [SelectAll(table)], db.tables);
      RunPendingSpec(fetched, rejects, clock, table, M, |A|);
      var run := RunPending(fetched, rejects, clock, table, M, |A|);
      assert ([CheckedAppliedMigrations] + run.2)[1..] == run.2;
    }
    if |A| >= |M| {
      assert [CheckedAppliedMigrations] + [] == [CheckedAppliedMigrations];
    }
  }

  /**
   * `validate` answers true exactly when the keyspace could be selected, the ledger read,
   * the directory loaded, the gate passes and no available migration is left to apply;
   * without `rethrowError` every other failure after the keyspace step becomes false.
   * It never changes a table.
   */
  lemma ValidateMeaning(db: Db, rejects: nat -> bool, opts: Options, table: string, dir: Directory,
                        digest: string -> string, rethrow: bool)
    ensures var res := ValidateSpec(db, rejects, opts, table, dir, digest, rethrow);
      var use := OptionalStep(db, rejects, opts.useKeyspace, UseKeyspace(opts.keyspace), UsedKeyspace);
      var f := FetchApplied(use.1, rejects, table);
      var L := Discover(dir, dir.listing, digest);
      res.1.tables == db.tables &&
      (res.0 == Ok(true) <==>
         use.0 == Pass && f.0.Ok? && L.Ok? && Clean(f.0.value, L.value) && |L.value| <= |f.0.value|) &&
      (!rethrow ==> (res.0.Err? <==> use.0.Fail?))
  {
    var use := OptionalStep(db, rejects, opts.useKeyspace, UseKeyspace(opts.keyspace), UsedKeyspace);
    var f := FetchApplied(use.1, rejects, table);
    var L := Discover(dir, dir.listing, digest);
    if f.0.Ok? && L.Ok? {
      ValidityIff(f.0.value, L.value);
    }
  }

  /** The two modes of `validate` send the same requests and agree on a true answer; they differ only in how a failure is reported. */
  lemma ValidateModesAgree(db: Db, rejects: nat -> bool, opts: Options, table: string, dir: Directory,
                           digest: string -> string)
    ensures var quiet := ValidateSpec(db, rejects, opts, table, dir, digest, false);
      var loud := ValidateSpec(db, rejects, opts, table, dir, digest, true);
      quiet.1 == loud.1 && quiet.2 == loud.2 &&
      (quiet.0 == Ok(true) <==> loud.0 == Ok(true)) &&
      (quiet.0 == Ok(false) <==> loud.0.Err? && !OptionalStep(db, rejects, opts.useKeyspace, UseKeyspace(opts.keyspace), UsedKeyspace).0.Fail?)
  {
  }

  /** `info` changes no table, and reports on the sorted ledger, or on no applied rows when the ledger cannot be read. */
  lemma InfoReadsOnly(db: Db, rejects: nat -> bool, opts: Options, table: string, dir: Directory, digest: string -> string)
    ensures var res := InfoInputs(db, rejects, opts, table, dir, digest);
      var use := OptionalStep(db, rejects, opts.useKeyspace, UseKeyspace(opts.keyspace), UsedKeyspace);
      res.1.tables == db.tables &&
      (res.0.Ok? ==>
        use.0 == Pass && res.0.value.1 == Discover(dir, dir.listing, digest).value &&
        Ascending(res.0.value.0) &&
        (Accepts(use.1, rejects, SelectAll(table)) ==> multiset(res.0.value.0) == multiset(db.tables[table])) &&
        (!Accepts(use.1, rejects, SelectAll(table)) ==> res.0.value.0 == []))
  {
  }

  // ---------------------------------------------------------------------------------
  // The orchestrator
  // ---------------------------------------------------------------------------------

  class Shift {
    /** the first client of `cassandraClients` */
    const session: Session
    const opts: Options
    /** the resolved `opts.migrationTable` */
    const table: string
    /** the checksum library */
    const digest: string -> string
    /** the notifications emitted so far */
    var events: seq<Event>

    constructor (session: Session, opts: Options, digest: string -> string)
      ensures this.session == session && this.opts == opts && this.digest == digest
      ensures table == MigrationTable(opts) && events == []
    {
      this.session := session;
      this.opts := opts;
      this.table := MigrationTable(opts);
      this.digest := digest;
      this.events := [];
    }

    method Emit(ev: Event)
      modifies this
      ensures events == old(events) + [ev]
    {
      events := events + [ev];
    }

    method OptionalRequest(enabled: bool, step: Step, ev: Event) returns (o: Outcome<Error>)
      modifies this, session
      ensures var spec := OptionalStep(old(session.State()), session.rejects, enabled, step, ev);
        o == spec.0 && session.State() == spec.1 && events == old(events) + spec.2
    {
      o := Pass;
      if enabled {
        o := session.Execute(step);
        if o.Pass? {
          Emit(ev);
        }
      }
    }

    method GetAppliedMigrations() returns (r: Result<seq<Row>, Error>)
      modifies session
      ensures (r, session.State()) == FetchApplied(old(session.State()), session.rejects, table)
    {
      r := session.SelectRows(table);
      if r.Ok? {
        r := Ok(SortByVersion(r.value));
      }
    }

    /** The loop of `migrate`: execute the migrations from index `from` in order, emitting one notification per success. */
    method ApplyPending(M: seq<Migration>, from: nat, clock: nat -> int) returns (o: Outcome<Error>)
      modifies this, session
      ensures var spec := RunPending(old(session.State()), session.rejects, clock, table, M, from);
        o == spec.0 && session.State() == spec.1 && events == old(events) + spec.2
    {
      ghost var start := session.State();
      ghost var emitted: seq<Event> := [];
      var i := from;
      ResumesAtStart(start, from, session.rejects, clock, table, M);
      while i < |M|
        invariant events == old(events) + emitted
        invariant Resumes(start, from, session.State(), session.rejects, clock, table, M, i, emitted)
      {
        var m := M[i];
        ghost var before := session.State();
        o := ExecuteMigration(session, clock, table, m);
        if o.Fail? {
          ResumesAfterFail(start, from, before, session.rejects, clock, table, M, i, emitted);
          return;
        }
        ResumesAfterPass(start, from, before, session.rejects, clock, table, M, i, emitted);
        Emit(AppliedEvent(m));
        emitted := emitted + [AppliedEvent(m)];
        i := i + 1;
      }
      ResumesAtEnd(start, from, session.State(), session.rejects, clock, table, M, i, emitted);
      o := Pass;
    }

    method PrepareCluster() returns (o: Outcome<Error>)
      modifies this, session
      ensures var spec := Prepare(old(session.State()), session.rejects, opts, table);
        o == spec.0 && session.State() == spec.1 && events == old(events) + spec.2
    {
      o := OptionalRequest(opts.ensureKeyspace, EnsureKeyspace(opts.keyspace), EnsuredKeyspace);
      if o.Fail? {
        return;
      }
      o := OptionalRequest(opts.useKeyspace, UseKeyspace(opts.keyspace), UsedKeyspace);
      if o.Fail? {
        return;
      }
      o := session.Execute(EnsureTable(table));
      if o.Fail? {
        return;
      }
      Emit(EnsuredMigrationTable);
    }

    method Upgrade(dir: Directory, clock: nat -> int) returns (o: Outcome<Error>)
      modifies this, session
      ensures var spec := UpgradeSpec(old(session.State()), session.rejects, clock, table, dir, digest);
        o == spec.0 && session.State() == spec.1 && events == old(events) + spec.2
    {
      var applied := GetAppliedMigrations();
      if applied.Err? {
        return Fail(applied.error);
      }
      var available := LoadAvailableMigrations(dir, digest);
      if available.Err? {
        return Fail(available.error);
      }
      o := CheckAppliedMigrations(applied.value, available.value);
      if o.Fail? {
        return;
      }
      Emit(CheckedAppliedMigrations);
      o := ApplyPending(available.value, |applied.value|, clock);
    }

    /** `migrate()`: the opening, then (when it succeeds) the upgrade proper. */
    method Migrate(dir: Directory, clock: nat -> int) returns (o: Outcome<Error>)
      modifies this, session
      ensures var pre := Prepare(old(session.State()), session.rejects, opts, table);
        if pre.0.Fail? then o == pre.0 && session.State() == pre.1 && events == old(events) + pre.2
        else
          var up := UpgradeSpec(pre.1, session.rejects, clock, table, dir, digest);
          o == up.0 && session.State() == up.1 && events == old(events) + pre.2 + up.2
    {
      o := PrepareCluster();
      if o.Fail? {
        return;
      }
      o := Upgrade(dir, clock);
    }

    method Info(dir: Directory) returns (r: Result<seq<SlotReport>, Error>)
      modifies this, session
      ensures var spec := InfoInputs(old(session.State()), session.rejects, opts, table, dir, digest);
        session.State() == spec.1 && events == old(events) + spec.2 &&
        (spec.0.Err? ==> r == Err(spec.0.error)) &&
        (spec.0.Ok? ==>
          var A, M := spec.0.value.0, spec.0.value.1;
          r.Ok? && |r.value| == Max(|A|, |M|) &&
          forall i :: 0 <= i < |r.value| ==> ReportsSlot(A, M, i, r.value[i]))
    {
      var o := OptionalRequest(opts.useKeyspace, UseKeyspace(opts.keyspace), UsedKeyspace);
      if o.Fail? {
        return Err(o.error);
      }
      var fetched := GetAppliedMigrations();
      var applied := if fetched.Ok? then fetched.value else [];
      var available := LoadAvailableMigrations(dir, digest);
      if available.Err? {
        return Err(available.error);
      }
      var info := BuildReport(applied, available.value);
      return Ok(info);
    }

    /** The `try` block of `validate`: its outcome before `rethrowError` is consulted. */
    method ValidateTry(dir: Directory) returns (err: Outcome<Error>)
      modifies this, session
      ensures var f := FetchApplied(old(session.State()), session.rejects, table);
        var checks := ValidateChecks(f.0, Discover(dir, dir.listing, digest));
        err == checks.0 && session.State() == f.1 && events == old(events) + checks.1
    {
      var applied := GetAppliedMigrations();
      if applied.Err? {
        return Fail(applied.error);
      }
      var available := LoadAvailableMigrations(dir, digest);
      if available.Err? {
        return Fail(available.error);
      }
      err := CheckAppliedMigrations(applied.value, available.value);
      if err.Pass? {
        Emit(CheckedAppliedMigrations);
        if |available.value| > |applied.value| {
          err := Fail(Incomplete(|applied.value|, |available.value|));
        }
      }
    }

    method Validate(dir: Directory, rethrowError: bool) returns (r: Result<bool, Error>)
      modifies this, session
      ensures var spec := ValidateSpec(old(session.State()), session.rejects, opts, table, dir, digest, rethrowError);
        r == spec.0 && session.State() == spec.1 && events == old(events) + spec.2
    {
      var o := OptionalRequest(opts.useKeyspace, UseKeyspace(opts.keyspace), UsedKeyspace);
      if o.Fail? {
        return Err(o.error);
      }
      var err := ValidateTry(dir);
      if err.Pass? {
        return Ok(true);
      }
      if rethrowError {
        return Err(err.error);
      }
      return Ok(false);
    }
  }
}
