/**
 * Executing one migration and recording the attempt: `CqlMigration.execute`, the opaque
 * call of a JS migration, and `executeMigration`, which always writes a ledger row before
 * re-throwing the migration's error.
 */
module Executor {
  import opened Wrappers
  import opened Model
  import opened Cluster
  import CqlScript

  /** The requests that send the given statements. */
  function StatementSteps(stmts: seq<string>): (steps: seq<Step>)
    ensures |steps| == |stmts|
    ensures forall j :: 0 <= j < |stmts| ==> steps[j] == Statement(stmts[j])
  {
    seq(|stmts|, j requires 0 <= j < |stmts| => Statement(stmts[j]))
  }

  /** Sending statements one at a time, each awaited, stopping at the first that fails. */
  function RunStatements(db: Db, rejects: nat -> bool, stmts: seq<string>): (Outcome<Error>, Db)
    decreases |stmts|
  {
    if |stmts| == 0 then (Pass, db)
    else
      var first := Perform(db, rejects, Statement(stmts[0]));
      if first.0.Fail? then first
      else RunStatements(first.1, rejects, stmts[1..])
  }

  /**
   * `res` is the result of sending the first `n` statements: they were sent in order, all
   * but the last of them were carried out, the run passed exactly when all statements were
   * sent and carried out, and otherwise it failed with the error of statement `n - 1`.
   */
  predicate SentPrefix(db: Db, rejects: nat -> bool, stmts: seq<string>, res: (Outcome<Error>, Db), n: int) {
    var p := |db.trace|;
    0 <= n <= |stmts| &&
    res.1.tables == db.tables &&
    res.1.trace == db.trace + StatementSteps(stmts[..n]) &&
    (forall k :: p <= k < p + n - 1 ==> !rejects(k)) &&
    (res.0 == Pass <==> n == |stmts| && (n == 0 || !rejects(p + n - 1))) &&
    (res.0.Fail? ==> n > 0 && rejects(p + n - 1) && res.0 == Fail(Refused(p + n - 1, Statement(stmts[n - 1]))))
  }

  /**
   * The statements are sent in order; the run stops at the first refused one, whose error
   * it returns, and later statements are never sent. Statements do not touch the ledger.
   */
  lemma {:induction false} RunStatementsStops(db: Db, rejects: nat -> bool, stmts: seq<string>)
    ensures exists n :: SentPrefix(db, rejects, stmts, RunStatements(db, rejects, stmts), n)
    decreases |stmts|
  {
    var res := RunStatements(db, rejects, stmts);
    if |stmts| == 0 {
      assert SentPrefix(db, rejects, stmts, res, 0);
    } else {
      var first := Perform(db, rejects, Statement(stmts[0]));
      if first.0.Fail? {
        assert SentPrefix(db, rejects, stmts, res, 1);
      } else {
        var d1 := first.1;
        RunStatementsStops(d1, rejects, stmts[1..]);
        var n' :| SentPrefix(d1, rejects, stmts[1..], res, n');
        SentPrefixCons(db, d1, rejects, stmts, res, n');
      }
    }
  }

  /** A first statement carried out, followed by a prefix of the rest, is a prefix of the whole. */
  lemma SentPrefixCons(db: Db, d1: Db, rejects: nat -> bool, stmts: seq<string>, res: (Outcome<Error>, Db), n': int)
    requires |stmts| > 0 && !rejects(|db.trace|) && d1 == Db(db.trace + [Statement(stmts[0])], db.tables)
    requires SentPrefix(d1, rejects, stmts[1..], res, n')
    ensures SentPrefix(db, rejects, stmts, res, n' + 1)
  {
    var p, n := |db.trace|, n' + 1;
    assert StatementSteps(stmts[..n]) == [Statement(stmts[0])] + StatementSteps(stmts[1..][..n']);
    assert res.1.trace == db.trace + StatementSteps(stmts[..n]);
    assert forall k :: p <= k < p + n - 1 ==> !rejects(k);
    if n' > 0 {
      assert stmts[1..][n' - 1] == stmts[n - 1];
    }
  }

  /** `migration.execute(clients)`: a CQL migration's statements, or one call of a JS migration's function. */
  function Run(db: Db, rejects: nat -> bool, m: Migration): (Outcome<Error>, Db) {
    match m.kind
    case Cql => RunStatements(db, rejects, CqlScript.Split(m.source))
    case Js => Perform(db, rejects, RunModule(m.version))
  }

  /** The ledger row recording an attempt of `m`. */
  function AttemptRow(m: Migration, installedOn: int, executionTime: int, success: bool): (row: Row)
    ensures Records(row, m) && row.success == success
  {
    Row(m.version, m.name, TypeTag(m.kind), m.checksum, installedOn, executionTime, success)
  }

  /**
   * `executeMigration`: run the migration, then insert its row (timed with the clock read
   * before and after the run), then re-throw the migration's error if it failed. If the
   * insert itself fails, that error is what propagates.
   */
  function Attempt(db: Db, rejects: nat -> bool, clock: nat -> int, table: string, m: Migration): (Outcome<Error>, Db) {
    var run := Run(db, rejects, m);
    var started := clock(|db.trace|);
    var row := AttemptRow(m, started, clock(|run.1.trace|) - started, run.0.Pass?);
    var insert := Perform(run.1, rejects, Insert(table, row));
    (if insert.0.Fail? then insert.0 else run.0, insert.1)
  }

  /** The rows of the ledger inserts among the requests, in order. */
  function Writes(trace: seq<Step>): seq<Row>
    decreases |trace|
  {
    if |trace| == 0 then []
    else (if trace[0].Insert? then [trace[0].row] else []) + Writes(trace[1..])
  }

  lemma {:induction false} WritesAppend(a: seq<Step>, b: seq<Step>)
    ensures Writes(a + b) == Writes(a) + Writes(b)
    decreases |a|
  {
    if |a| > 0 {
      WritesAppend(a[1..], b);
      assert (a + b)[0] == a[0];
      assert Writes(a) == (if a[0].Insert? then [a[0].row] else []) + Writes(a[1..]);
      assert (a + b)[1..] == a[1..] + b;
    } else {
      assert a + b == b;
    }
  }

  /** Migration work sends no ledger insert. */
  lemma {:induction false} WritesOfWork(steps: seq<Step>)
    requires forall k :: 0 <= k < |steps| ==> IsMigrationWork(steps[k])
    ensures Writes(steps) == []
    decreases |steps|
  {
    if |steps| > 0 {
      WritesOfWork(steps[1..]);
    }
  }

  /** What one run of a migration does: its own requests only, successful exactly when none was refused. */
  lemma RunSpec(db: Db, rejects: nat -> bool, m: Migration)
    ensures var res := Run(db, rejects, m);
      var p := |db.trace|;
      res.1.tables == db.tables &&
      p < |res.1.trace| && res.1.trace[..p] == db.trace &&
      (forall k :: p <= k < |res.1.trace| ==> IsMigrationWork(res.1.trace[k])) &&
      (res.0 == Pass <==> forall k :: p <= k < |res.1.trace| ==> !rejects(k)) &&
      (res.0.Fail? ==>
         res.0.error.Refused? && p <= res.0.error.at < |res.1.trace| && IsMigrationWork(res.0.error.step))
  {
    var res := Run(db, rejects, m);
    var p := |db.trace|;
    if m.kind == Cql {
      var stmts := CqlScript.Split(m.source);
      RunStatementsStops(db, rejects, stmts);
      var n :| SentPrefix(db, rejects, stmts, res, n);
      forall k | p <= k < |res.1.trace| ensures IsMigrationWork(res.1.trace[k]) {
        assert res.1.trace[k] == StatementSteps(stmts[..n])[k - p];
      }
    }
  }

  /**
   * One attempt sends the migration's own requests and then exactly one ledger insert: a
   * row recording this migration, timed from the clock, whose success flag says whether the
   * run went through. When the insert is carried out the ledger gains that row (an upsert on
   * its version) before anything is re-thrown, and a failed run then re-throws its own error;
   * when the insert is refused nothing is recorded and the insert's error propagates.
   */
  lemma AttemptSpec(db: Db, rejects: nat -> bool, clock: nat -> int, table: string, m: Migration)
    ensures var res := Attempt(db, rejects, clock, table, m);
      var p, q := |db.trace|, |res.1.trace| - 1;
      p < q && res.1.trace[..p] == db.trace &&
      (forall k :: p <= k < q ==> IsMigrationWork(res.1.trace[k])) &&
      res.1.trace[q].Insert? && res.1.trace[q].table == table &&
      Writes(res.1.trace[p..]) == [res.1.trace[q].row] &&
      var row := res.1.trace[q].row;
      Records(row, m) &&
      row.installedOn == clock(p) && row.executionTime == clock(q) - clock(p) &&
      (row.success <==> forall k :: p <= k < q ==> !rejects(k)) &&
      (var written := !rejects(q) && table in db.tables;
       (written ==> res.1.tables == db.tables[table := Upsert(db.tables[table], row)]) &&
       (!written ==> res.1.tables == db.tables && res.0 == Fail(Refused(q, Insert(table, row)))) &&
       (res.0 == Pass <==> written && row.success) &&
       (written && !row.success ==>
          res.0.Fail? && res.0.error.Refused? && p <= res.0.error.at < q && IsMigrationWork(res.0.error.step)))
  {
    var run := Run(db, rejects, m);
    RunSpec(db, rejects, m);
    var res := Attempt(db, rejects, clock, table, m);
    var p, q := |db.trace|, |run.1.trace|;
    assert res.1.trace == run.1.trace + [res.1.trace[q]];
    assert res.1.trace[p..] == run.1.trace[p..] + [res.1.trace[q]];
    WritesAppend(run.1.trace[p..], [res.1.trace[q]]);
    WritesOfWork(run.1.trace[p..]);
  }

  /** `CqlMigration.execute`: split the script and send the statements one by one, stopping at the first failure. */
  method ExecuteScript(session: Session, script: string) returns (o: Outcome<Error>)
    modifies session
    ensures (o, session.State()) == RunStatements(old(session.State()), session.rejects, CqlScript.Split(script))
  {
    var statements := CqlScript.Split(script);
    var i := 0;
    while i < |statements|
      invariant 0 <= i <= |statements|
      invariant RunStatements(old(session.State()), session.rejects, statements)
             == RunStatements(session.State(), session.rejects, statements[i..])
    {
      assert statements[i..][1..] == statements[i + 1..];
      o := session.Execute(Statement(statements[i]));
      if o.Fail? {
        return;
      }
      i := i + 1;
    }
    o := Pass;
  }

  /** `migration.execute(cassandraClients)`. */
  method RunMigration(session: Session, m: Migration) returns (o: Outcome<Error>)
    modifies session
    ensures (o, session.State()) == Run(old(session.State()), session.rejects, m)
  {
    match m.kind {
      case Cql =>
        o := ExecuteScript(session, m.source);
      case Js =>
        o := session.Execute(RunModule(m.version));
    }
  }

  /** `executeMigration`, with the wall clock read before and after the run. */
  method ExecuteMigration(session: Session, clock: nat -> int, table: string, m: Migration) returns (o: Outcome<Error>)
    modifies session
    ensures (o, session.State()) == Attempt(old(session.State()), session.rejects, clock, table, m)
  {
    var now := clock(|session.trace|);
    var run := RunMigration(session, m);
    var success := run.Pass?;
    var row := AttemptRow(m, now, clock(|session.trace|) - now, success);
    var insert := session.Execute(Insert(table, row));
    if insert.Fail? {
      return insert;
    }
    if !success {
      return run;
    }
    return Pass;
  }
}
