/**
 * The values shared by every part of the engine: migration descriptors, rows of the
 * migration table, the requests sent to the cluster and the errors that can be thrown.
 */
module Model {
  import opened Wrappers

  /** The two migration formats, selected by the file extension. */
  datatype Kind = Js | Cql

  /** The `type` tag a migration carries and writes into its ledger row. */
  function TypeTag(k: Kind): (tag: string)
    ensures tag == "JS" || tag == "CQL"
    ensures tag == "CQL" <==> k == Cql
    ensures tag == "JS" <==> k == Js
  {
    match k
    case Js => "JS"
    case Cql => "CQL"
  }

  /**
   * An available migration once loaded: version and display name from the file name,
   * the format, the checksum of the loaded text and the text itself.
   */
  datatype Migration = Migration(version: nat, name: string, kind: Kind, checksum: string, source: string)

  /** One row of the migration table (the ledger). */
  datatype Row = Row(
    version: int,
    name: string,
    tag: string,
    checksum: string,
    installedOn: int,
    executionTime: int,
    success: bool)

  /** A ledger row and a descriptor agree on the three fields the reconciler compares. */
  predicate Agree(row: Row, m: Migration) {
    row.version == m.version && row.name == m.name && row.checksum == m.checksum
  }

  /** A ledger row records an attempt of exactly this migration. */
  predicate Records(row: Row, m: Migration) {
    Agree(row, m) && row.tag == TypeTag(m.kind)
  }

  /** A request sent to the cluster (the first client of the client list). */
  datatype Step =
    | EnsureKeyspace(keyspace: string)
    | UseKeyspace(keyspace: string)
    | EnsureTable(table: string)
    | SelectAll(table: string)
    | Insert(table: string, row: Row)
    | Statement(cql: string)
    /** the invocation of a JS migration's exported function, taken as one opaque request */
    | RunModule(version: nat)

  /** A request that belongs to a migration's own work (as opposed to bookkeeping). */
  predicate IsMigrationWork(s: Step) {
    s.Statement? || s.RunModule?
  }

  datatype Error =
    /** the last ledger row records a failure: "failed, fix manually before retrying" */
    | Halted(version: int, name: string)
    | VersionMismatch(applied: int, defined: int)
    | NameMismatch(appliedName: string, definedName: string)
    | ChecksumMismatch(appliedChecksum: string, definedChecksum: string)
    /** validate: "Applied a out of m migrations" */
    | Incomplete(appliedCount: nat, availableCount: nat)
    /** reading a migration file (or importing a JS unit) failed */
    | Unreadable(file: string)
    /** prettyName read the first character of an empty name (a TypeError) */
    | EmptyName(file: string)
    /** legacy loader read `.index` of a failed match (a TypeError) */
    | Unmatched(file: string)
    /** legacy check read a field of a missing definition (a TypeError) */
    | MissingDefinition(index: nat)
    /** legacy executor called `execute` on the client list (a TypeError) */
    | NotAFunction
    /** the cluster refused request number `at` */
    | Refused(at: nat, step: Step)
}
