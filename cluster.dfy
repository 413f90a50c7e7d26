/**
 * The database as the engine sees it through its first client: every request it receives
 * (in order) and the rows of its tables. Whether a request succeeds is decided by an oracle
 * on the request's position, which stands for everything the engine cannot see (the
 * network, the server, the content of other tables).
 */
module Cluster {
  import opened Wrappers
  import opened Model

  datatype Db = Db(trace: seq<Step>, tables: map<string, seq<Row>>)

  /** No two rows of a table share a version: `version` is the primary key. */
  predicate DistinctVersions(rows: seq<Row>) {
    forall i, j :: 0 <= i < j < |rows| ==> rows[i].version != rows[j].version
  }

  predicate HasVersion(rows: seq<Row>, v: int) {
    exists i :: 0 <= i < |rows| && rows[i].version == v
  }

  /** An INSERT on the primary key: it replaces the row with the same version, or adds one. */
  function Upsert(rows: seq<Row>, row: Row): (r: seq<Row>)
    decreases |rows|
  {
    if |rows| == 0 then [row]
    else if rows[0].version == row.version then [row] + rows[1..]
    else [rows[0]] + Upsert(rows[1..], row)
  }

  /** After an insert the table holds the new row, keeps its rows of other versions, and holds nothing else. */
  lemma {:induction false} UpsertContents(rows: seq<Row>, row: Row)
    ensures row in Upsert(rows, row)
    ensures forall r :: r in rows && r.version != row.version ==> r in Upsert(rows, row)
    ensures forall r :: r in Upsert(rows, row) ==> r == row || r in rows
    decreases |rows|
  {
    if |rows| > 0 && rows[0].version != row.version {
      UpsertContents(rows[1..], row);
    }
  }

  /** Inserting a new version appends the row at the end; inserting a known one keeps the row count. */
  lemma {:induction false} UpsertShape(rows: seq<Row>, row: Row)
    ensures !HasVersion(rows, row.version) ==> Upsert(rows, row) == rows + [row]
    ensures HasVersion(rows, row.version) ==> |Upsert(rows, row)| == |rows|
    decreases |rows|
  {
    if |rows| > 0 && rows[0].version != row.version {
      var tail := rows[1..];
      UpsertShape(tail, row);
      if HasVersion(rows, row.version) {
        var k :| 0 <= k < |rows| && rows[k].version == row.version;
        assert tail[k - 1].version == row.version;
      }
    }
  }

  /** An insert keeps one row per version. */
  lemma {:induction false} UpsertKeepsKey(rows: seq<Row>, row: Row)
    requires DistinctVersions(rows)
    ensures DistinctVersions(Upsert(rows, row))
    decreases |rows|
  {
    var u := Upsert(rows, row);
    if |rows| > 0 && rows[0].version != row.version {
      var tail := rows[1..];
      UpsertKeepsKey(tail, row);
      UpsertContents(tail, row);
      forall j | 1 <= j < |u| ensures u[0].version != u[j].version {
        assert u[j] in Upsert(tail, row);
        if u[j] != row {
          var k :| 0 <= k < |tail| && tail[k] == u[j];
          assert rows[k + 1] == u[j];
        }
      }
    } else if |rows| > 0 {
      assert forall i :: 0 <= i < |u| ==> u[i].version == rows[i].version;
    }
  }

  /** Whether the cluster carries out a request: it is not refused, and the table it reads or writes exists. */
  predicate Accepts(db: Db, rejects: nat -> bool, step: Step) {
    !rejects(|db.trace|) &&
    match step
    case SelectAll(t) => t in db.tables
    case Insert(t, _) => t in db.tables
    case _ => true
  }

  /** What a carried-out request does to the tables; statements of migrations touch no ledger table. */
  function Effect(tables: map<string, seq<Row>>, step: Step): map<string, seq<Row>> {
    match step
    case EnsureTable(t) => if t in tables then tables else tables[t := []]
    case Insert(t, row) => if t in tables then tables[t := Upsert(tables[t], row)] else tables
    case _ => tables
  }

  /** Sending one request: it is always recorded, and takes effect only when carried out. */
  function Perform(db: Db, rejects: nat -> bool, step: Step): (res: (Outcome<Error>, Db))
    ensures res.1.trace == db.trace + [step]
    ensures res.0 == Pass <==> Accepts(db, rejects, step)
    ensures res.0.Fail? ==> res.0.error == Refused(|db.trace|, step) && res.1.tables == db.tables
  {
    if Accepts(db, rejects, step) then (Pass, Db(db.trace + [step], Effect(db.tables, step)))
    else (Fail(Refused(|db.trace|, step)), Db(db.trace + [step], db.tables))
  }

  /** `SELECT * FROM table`: the rows in the order the cluster returns them. */
  function Select(db: Db, rejects: nat -> bool, table: string): (res: (Result<seq<Row>, Error>, Db))
    ensures res.1 == Db(db.trace + [SelectAll(table)], db.tables)
    ensures res.0.Ok? <==> Accepts(db, rejects, SelectAll(table))
    ensures res.0.Ok? ==> res.0.value == db.tables[table]
  {
    var step := SelectAll(table);
    if Accepts(db, rejects, step) then (Ok(db.tables[table]), Db(db.trace + [step], db.tables))
    else (Err(Refused(|db.trace|, step)), Db(db.trace + [step], db.tables))
  }

  /** The first client of the client list: the only one the engine sends requests to. */
  class Session {
    var trace: seq<Step>
    var tables: map<string, seq<Row>>
    const rejects: nat -> bool

    function State(): Db
      reads this
    {
      Db(trace, tables)
    }

    constructor (rejects: nat -> bool, tables: map<string, seq<Row>>)
      ensures State() == Db([], tables) && this.rejects == rejects
    {
      this.trace := [];
      this.tables := tables;
      this.rejects := rejects;
    }

    /** `client.execute(request)`, awaited: completes or throws. */
    method Execute(step: Step) returns (o: Outcome<Error>)
      modifies this
      ensures (o, State()) == Perform(old(State()), rejects, step)
    {
      var res := Perform(State(), rejects, step);
      o := res.0;
      trace, tables := res.1.trace, res.1.tables;
    }

    /** `(await client.execute("SELECT * FROM table")).rows`. */
    method SelectRows(table: string) returns (r: Result<seq<Row>, Error>)
      modifies this
      ensures (r, State()) == Select(old(State()), rejects, table)
    {
      var res := Select(State(), rejects, table);
      r := res.0;
      trace, tables := res.1.trace, res.1.tables;
    }
  }
}
