/**
 * The earlier entry point (index.js): the same engine with a fixed ledger table, no sort
 * of the ledger, the raw filename segment as the name, no guard for file names that do
 * not match, no guard for applied rows beyond the available migrations, and the whole
 * client list handed to `executeMigration`.
 */
module Legacy {
  import opened Wrappers
  import opened Model
  import opened Cluster
  import opened FileNames
  import opened Loader
  import opened Reconcile
  import opened Executor
  import opened Shift

  // ---------------------------------------------------------------------------------
  // Discovery
  // ---------------------------------------------------------------------------------

  /**
   * `loadAvailableMigration` of index.js: the result of the match is dereferenced without
   * a null check, so a name that does not match throws; the name is the raw segment.
   */
  function LegacyLoadOne(dir: Directory, f: string, digest: string -> string): Result<Migration, Error> {
    match Parse(f)
    case None => Err(Unmatched(f))
    case Some(p) =>
      if f !in dir.files then Err(Unreadable(f))
      else
        var text := dir.files[f];
        Ok(Migration(DecimalValue(p.digits), p.stem, p.kind, digest(text), text))
  }

  /** `loadAvailableMigrations` of index.js over the names `names`, in order, stopping at the first that throws. */
  function LegacyDiscover(dir: Directory, names: seq<string>, digest: string -> string): Result<seq<Migration>, Error>
    decreases |names|
  {
    if |names| == 0 then Ok([])
    else
      match LegacyDiscover(dir, names[..|names| - 1], digest)
      case Err(e) => Err(e)
      case Ok(ms) =>
        match LegacyLoadOne(dir, names[|names| - 1], digest)
        case Err(e) => Err(e)
        case Ok(m) => Ok(ms + [m])
  }

  /** A name the legacy loader can turn into a migration: it matches the pattern and its file can be read. */
  predicate LegacyLoadable(dir: Directory, f: string) {
    Parse(f).Some? && f in dir.files
  }

  lemma LegacyLoadOneOk(dir: Directory, f: string, digest: string -> string)
    ensures LegacyLoadOne(dir, f, digest).Ok? <==> LegacyLoadable(dir, f)
  {
  }

  /** The legacy loader succeeds exactly when every listed name matches the pattern and can be read. */
  lemma {:induction false} LegacyDiscoverOk(dir: Directory, names: seq<string>, digest: string -> string)
    ensures LegacyDiscover(dir, names, digest).Ok? <==> forall f :: f in names ==> LegacyLoadable(dir, f)
    decreases |names|
  {
    if |names| > 0 {
      var init, last := names[..|names| - 1], names[|names| - 1];
      LegacyDiscoverOk(dir, init, digest);
      LegacyLoadOneOk(dir, last, digest);
      assert names == init + [last];
    }
  }

  /** The migrations each listed name loads to, position by position. */
  predicate LoadsTo(dir: Directory, names: seq<string>, ms: seq<Migration>, digest: string -> string) {
    |ms| == |names| && forall k :: 0 <= k < |names| ==> LegacyLoadOne(dir, names[k], digest) == Ok(ms[k])
  }

  lemma LoadsToSnoc(dir: Directory, names: seq<string>, ms: seq<Migration>, digest: string -> string)
    requires |names| > 0 && |ms| == |names|
    requires LoadsTo(dir, names[..|names| - 1], ms[..|ms| - 1], digest)
    requires LegacyLoadOne(dir, names[|names| - 1], digest) == Ok(ms[|ms| - 1])
    ensures LoadsTo(dir, names, ms, digest)
  {
    forall k | 0 <= k < |names| - 1
      ensures LegacyLoadOne(dir, names[k], digest) == Ok(ms[k])
    {
      assert names[..|names| - 1][k] == names[k] && ms[..|ms| - 1][k] == ms[k];
    }
  }

  /** When it succeeds, the legacy loader yields one migration per listed name, in listing order. */
  lemma {:induction false} LegacyDiscoverContents(dir: Directory, names: seq<string>, digest: string -> string)
    requires LegacyDiscover(dir, names, digest).Ok?
    ensures LoadsTo(dir, names, LegacyDiscover(dir, names, digest).value, digest)
    decreases |names|
  {
    if |names| > 0 {
      var init, last := names[..|names| - 1], names[|names| - 1];
      LegacyDiscoverContents(dir, init, digest);
      var mi := LegacyDiscover(dir, init, digest).value;
      var m := LegacyLoadOne(dir, last, digest).value;
      var ms := LegacyDiscover(dir, names, digest).value;
      assert ms == mi + [m];
      assert ms[..|ms| - 1] == mi;
      LoadsToSnoc(dir, names, ms, digest);
    }
  }

  /**
   * Where both loaders accept a file they read the same migration, except that the legacy
   * one keeps the raw segment as the name where the current one makes it readable.
   */
  lemma LegacyKeepsRawName(dir: Directory, f: string, digest: string -> string)
    requires LegacyLoadOne(dir, f, digest).Ok? && LoadOne(dir, f, digest).Ok? && LoadOne(dir, f, digest).value.Some?
    ensures var old_, new_ := LegacyLoadOne(dir, f, digest).value, LoadOne(dir, f, digest).value.value;
      old_.name == Parse(f).value.stem && Some(new_.name) == PrettyName(Parse(f).value.stem) &&
      old_.version == new_.version && old_.kind == new_.kind &&
      old_.checksum == new_.checksum && old_.source == new_.source
  {
    WordCharsAreAscii(Parse(f).value.stem);
  }

  /**
   * Any listing with a stray name (one that does not match the pattern) makes the legacy
   * loader throw, where the current loader skips that name.
   */
  lemma StrayNameBreaksLegacyDiscovery(dir: Directory, digest: string -> string, k: nat)
    requires k < |dir.listing| && Parse(dir.listing[k]).None?
    ensures LegacyDiscover(dir, dir.listing, digest).Err?
    ensures Accepted(dir.listing) == Accepted(dir.listing[..k]) + Accepted(dir.listing[k + 1..])
  {
    LegacyDiscoverOk(dir, dir.listing, digest);
    assert dir.listing[k] in dir.listing && !LegacyLoadable(dir, dir.listing[k]);
    AcceptedSkips(dir.listing, k);
  }

  lemma {:induction false} AcceptedSkips(names: seq<string>, k: nat)
    requires k < |names| && Parse(names[k]).None?
    ensures Accepted(names) == Accepted(names[..k]) + Accepted(names[k + 1..])
    decreases |names|
  {
    var init, last := names[..|names| - 1], names[|names| - 1];
    if k == |names| - 1 {
      assert names[..k] == init;
      assert names[k + 1..] == [];
    } else {
      AcceptedSkips(init, k);
      assert init[..k] == names[..k];
      assert names[k + 1..] == init[k + 1..] + [last];
      AcceptedAppend(init[k + 1..], last);
    }
  }

  lemma AcceptedAppend(names: seq<string>, last: string)
    ensures Accepted(names + [last]) == Accepted(names) + (if Parse(last).Some? then [last] else [])
  {
    assert (names + [last])[..|names|] == names;
  }

  /** One directory that shows it: a lone README makes the legacy loader throw and the current loader return nothing. */
  lemma ReadmeOnly(digest: string -> string)
    ensures var dir := Directory(["README.md"], map[]);
      LegacyDiscover(dir, dir.listing, digest) == Err(Unmatched("README.md")) &&
      Discover(dir, dir.listing, digest) == Ok([])
  {
    var dir := Directory(["README.md"], map[]);
    assert DigitRunEnd("README.md", 0) == 0;
    assert dir.listing[..0] == [];
  }

  method LegacyLoadAvailableMigrations(dir: Directory, digest: string -> string) returns (r: Result<seq<Migration>, Error>)
    ensures r == LegacyDiscover(dir, dir.listing, digest)
  {
    var migrations: seq<Migration> := [];
    var i := 0;
    while i < |dir.listing|
      invariant 0 <= i <= |dir.listing|
      invariant LegacyDiscover(dir, dir.listing[..i], digest) == Ok(migrations)
    {
      var file := dir.listing[i];
      var m := LegacyLoadOne(dir, file, digest);
      LegacyDiscoverStep(dir, dir.listing, i, migrations, digest);
      if m.Err? {
        LegacyDiscoverStopsAtError(dir, dir.listing, i + 1, digest);
        return Err(m.error);
      }
      migrations := migrations + [m.value];
      i := i + 1;
    }
    assert dir.listing[..i] == dir.listing;
    return Ok(migrations);
  }

  /** Extending the listed prefix by one name either fails with that name's error or appends its migration. */
  lemma LegacyDiscoverStep(dir: Directory, names: seq<string>, i: nat, ms: seq<Migration>, digest: string -> string)
    requires i < |names| && LegacyDiscover(dir, names[..i], digest) == Ok(ms)
    ensures LegacyDiscover(dir, names[..i + 1], digest) ==
      match LegacyLoadOne(dir, names[i], digest)
      case Err(e) => Err(e)
      case Ok(m) => Ok(ms + [m])
  {
    assert names[..i + 1][..i] == names[..i];
  }

  lemma {:induction false} LegacyDiscoverStopsAtError(dir: Directory, names: seq<string>, n: nat, digest: string -> string)
    requires n <= |names| && LegacyDiscover(dir, names[..n], digest).Err?
    ensures LegacyDiscover(dir, names, digest) == LegacyDiscover(dir, names[..n], digest)
    decreases |names| - n
  {
    if n < |names| {
      assert names[..n + 1][..n] == names[..n];
      LegacyDiscoverStopsAtError(dir, names, n + 1, digest);
    } else {
      assert names[..n] == names;
    }
  }

  // ---------------------------------------------------------------------------------
  // The gate
  // ---------------------------------------------------------------------------------

  /** The comparison loop of index.js from slot `i`: an applied row without a definition dereferences a missing entry. */
  function LegacyCheckFrom(A: seq<Row>, M: seq<Migration>, i: nat): Outcome<Error>
    decreases |A| - i
  {
    if i >= |A| then Pass
    else if i >= |M| then Fail(MissingDefinition(i))
    else if CompareSlot(A[i], M[i]).Fail? then CompareSlot(A[i], M[i])
    else LegacyCheckFrom(A, M, i + 1)
  }

  /** `checkAppliedMigrations` of index.js. */
  function LegacyCheck(A: seq<Row>, M: seq<Migration>): Outcome<Error> {
    if |A| == 0 then Pass
    else if !A[|A| - 1].success then Fail(Halted(A[|A| - 1].version, A[|A| - 1].name))
    else LegacyCheckFrom(A, M, 0)
  }

  lemma {:induction false} LegacyCheckFromAgrees(A: seq<Row>, M: seq<Migration>, i: nat)
    requires |A| <= |M|
    ensures LegacyCheckFrom(A, M, i) == CheckFrom(A, M, i)
    decreases |A| - i
  {
    if i < |A| {
      LegacyCheckFromAgrees(A, M, i + 1);
    }
  }

  /** While every applied row has a definition, the legacy gate and the current one give the same verdict and the same error. */
  lemma LegacyCheckAgrees(A: seq<Row>, M: seq<Migration>)
    requires |A| <= |M|
    ensures LegacyCheck(A, M) == Check(A, M)
  {
    LegacyCheckFromAgrees(A, M, 0);
  }

  lemma {:induction false} LegacyCheckFromSurplus(A: seq<Row>, M: seq<Migration>, i: nat)
    requires |M| < |A| && i <= |M|
    requires forall l :: i <= l < |M| ==> Agree(A[l], M[l])
    ensures LegacyCheckFrom(A, M, i) == Fail(MissingDefinition(|M|))
    decreases |M| - i
  {
    if i < |M| {
      LegacyCheckFromSurplus(A, M, i + 1);
    }
  }

  /**
   * More applied rows than available migrations, all consistent and the last successful:
   * the current gate lets this through, the legacy one throws at the first row without a
   * definition.
   */
  lemma SurplusRowsBreakLegacyGate(A: seq<Row>, M: seq<Migration>)
    requires |M| < |A| && Clean(A, M)
    ensures LegacyCheck(A, M) == Fail(MissingDefinition(|M|))
    ensures Check(A, M) == Pass
  {
    LegacyCheckFromSurplus(A, M, 0);
    CheckPassIff(A, M);
  }

  lemma {:induction false} LegacyCheckFromSurplusFails(A: seq<Row>, M: seq<Migration>, i: nat)
    requires |M| < |A| && i <= |M|
    ensures LegacyCheckFrom(A, M, i).Fail?
    decreases |M| - i
  {
    if i < |M| {
      LegacyCheckFromSurplusFails(A, M, i + 1);
    }
  }

  /** With more applied rows than available migrations the legacy gate never passes, whatever the rows hold. */
  lemma SurplusRowsNeverPassLegacyGate(A: seq<Row>, M: seq<Migration>)
    requires |M| < |A|
    ensures LegacyCheck(A, M).Fail?
  {
    LegacyCheckFromSurplusFails(A, M, 0);
  }

  /** Rows with pairwise distinct versions: a version determines its row. */
  lemma DistinctVersionsDetermine(A: seq<Row>)
    requires DistinctVersions(A)
    ensures KeyDetermines(A)
  {
    forall x, y | x in A && y in A && x.version == y.version ensures x == y {
      var i :| 0 <= i < |A| && A[i] == x;
      var j :| 0 <= j < |A| && A[j] == y;
      assert i == j;
    }
  }

  /** A ledger fetched in ascending order is its own sort. */
  lemma AscendingFetchIsSorted(A: seq<Row>)
    requires DistinctVersions(A) && Ascending(A)
    ensures SortByVersion(A) == A
  {
    SortByVersionSpec(A);
    DistinctVersionsDetermine(A);
    AscendingArrangementUnique(A, SortByVersion(A));
  }

  /** A fetch out of version order has a slot whose version differs from the sorted ledger's. */
  lemma UnsortedFetchMisplacesAVersion(A: seq<Row>) returns (i: nat)
    requires DistinctVersions(A) && !Ascending(A)
    ensures i < |A| == |SortByVersion(A)|
    ensures A[i].version != SortByVersion(A)[i].version
  {
    SortByVersionSpec(A);
    var S := SortByVersion(A);
    assert |S| == |multiset(S)| == |multiset(A)| == |A|;
    assert S != A;
    i :| 0 <= i < |A| && S[i] != A[i];
    assert S[i] in multiset(A);
    DistinctVersionsDetermine(A);
  }

  /**
   * index.js compares the ledger in the order the cluster returns it. When the rows sorted
   * by version pass the gate and every applied row has a definition, the legacy gate passes
   * exactly when the fetch already came back in ascending version order: any other order
   * fails it, although the current gate, which sorts first, lets the same rows through.
   */
  lemma LegacyGateNeedsAscendingFetch(A: seq<Row>, M: seq<Migration>)
    requires DistinctVersions(A) && |A| <= |M| && Clean(SortByVersion(A), M)
    ensures Check(SortByVersion(A), M) == Pass
    ensures LegacyCheck(A, M) == Pass <==> Ascending(A)
  {
    CheckPassIff(SortByVersion(A), M);
    LegacyCheckAgrees(A, M);
    CheckPassIff(A, M);
    if Ascending(A) {
      AscendingFetchIsSorted(A);
    } else {
      var i := UnsortedFetchMisplacesAVersion(A);
      assert Agree(SortByVersion(A)[i], M[i]);
      assert !Agree(A[i], M[i]);
    }
  }

  /** Two applied rows fetched newest first: the legacy gate reports a version mismatch at slot 0. */
  lemma TwoRowsFetchedNewestFirst(r1: Row, r2: Row, m1: Migration, m2: Migration)
    requires Agree(r1, m1) && Agree(r2, m2) && r1.version < r2.version && r1.success && r2.success
    ensures Check(SortByVersion([r2, r1]), [m1, m2]) == Pass
    ensures LegacyCheck([r2, r1], [m1, m2]) == Fail(VersionMismatch(r2.version, m1.version))
  {
    assert [r2, r1][1..] == [r1] && [r1][1..] == [];
    assert SortByVersion([r1]) == [r1];
    assert InsertByVersion(r2, [r1]) == [r1] + InsertByVersion(r2, []) == [r1, r2];
    assert SortByVersion([r2, r1]) == [r1, r2];
    assert Clean([r1, r2], [m1, m2]);
    CheckPassIff([r1, r2], [m1, m2]);
  }

  method LegacyCheckAppliedMigrations(A: seq<Row>, M: seq<Migration>) returns (o: Outcome<Error>)
    ensures o == LegacyCheck(A, M)
  {
    if |A| == 0 {
      return Pass;
    }
    var last := A[|A| - 1];
    if !last.success {
      return Fail(Halted(last.version, last.name));
    }
    var i := 0;
    while i < |A|
      invariant 0 <= i <= |A|
      invariant LegacyCheck(A, M) == LegacyCheckFrom(A, M, i)
    {
      if i >= |M| {
        return Fail(MissingDefinition(i));
      }
      var am, m := A[i], M[i];
      if am.version != m.version {
        return Fail(VersionMismatch(am.version, m.version));
      }
      if am.name != m.name {
        return Fail(NameMismatch(am.name, m.name));
      }
      if am.checksum != m.checksum {
        return Fail(ChecksumMismatch(am.checksum, m.checksum));
      }
      i := i + 1;
    }
    return Pass;
  }

  // ---------------------------------------------------------------------------------
  // Executing one migration
  // ---------------------------------------------------------------------------------

  /** What `executeMigration` of index.js receives as its client: one client, or the whole list. */
  datatype ClientRef = OneClient | ClientList

  /**
   * `executeMigration` of index.js: run the migration, then send the ledger insert through
   * the client it was given. A list has no `execute`, so that call throws a type error in
   * place of the insert and of the migration's own error.
   */
  function LegacyAttempt(db: Db, rejects: nat -> bool, clock: nat -> int, client: ClientRef, m: Migration)
    : (Outcome<Error>, Db)
  {
    var run := Run(db, rejects, m);
    var started := clock(|db.trace|);
    var row := AttemptRow(m, started, clock(|run.1.trace|) - started, run.0.Pass?);
    match client
    case ClientList => (Fail(NotAFunction), run.1)
    case OneClient =>
      var insert := Perform(run.1, rejects, Insert(DefaultTable, row));
      (if insert.0.Fail? then insert.0 else run.0, insert.1)
  }

  /** Given one client, the legacy `executeMigration` is the current one on the default table. */
  lemma LegacyAttemptOneClient(db: Db, rejects: nat -> bool, clock: nat -> int, m: Migration)
    ensures LegacyAttempt(db, rejects, clock, OneClient, m) == Attempt(db, rejects, clock, DefaultTable, m)
  {
  }

  /**
   * Given the client list, as index.js does, the migration runs but no ledger row is sent,
   * no table changes and the call always throws the type error, whether the migration
   * succeeded or not.
   */
  lemma LegacyAttemptWithList(db: Db, rejects: nat -> bool, clock: nat -> int, m: Migration)
    ensures var res := LegacyAttempt(db, rejects, clock, ClientList, m);
      var p := |db.trace|;
      res.0 == Fail(NotAFunction) && res.1.tables == db.tables &&
      p <= |res.1.trace| && res.1.trace[..p] == db.trace && Writes(res.1.trace[p..]) == []
  {
    RunSpec(db, rejects, m);
    var res := Run(db, rejects, m);
    WritesOfWork(res.1.trace[|db.trace|..]);
  }

  method LegacyExecuteMigration(session: Session, clock: nat -> int, client: ClientRef, m: Migration)
    returns (o: Outcome<Error>)
    modifies session
    ensures (o, session.State()) == LegacyAttempt(old(session.State()), session.rejects, clock, client, m)
  {
    var now := clock(|session.trace|);
    var run := RunMigration(session, m);
    var row := AttemptRow(m, now, clock(|session.trace|) - now, run.Pass?);
    match client {
      case ClientList =>
        return Fail(NotAFunction);
      case OneClient =>
        var insert := session.Execute(Insert(DefaultTable, row));
        if insert.Fail? {
          return insert;
        }
        return run;
    }
  }

  // ---------------------------------------------------------------------------------
  // migrate
  // ---------------------------------------------------------------------------------

  /** The loop of the legacy `migrate` from index `i`, executing through `client`. */
  function LegacyRunPending(db: Db, rejects: nat -> bool, clock: nat -> int, client: ClientRef, M: seq<Migration>, i: nat)
    : (Outcome<Error>, Db, seq<Event>)
    decreases |M| - i
  {
    if i >= |M| then (Pass, db, [])
    else
      var a := LegacyAttempt(db, rejects, clock, client, M[i]);
      if a.0.Fail? then (a.0, a.1, [])
      else
        var rest := LegacyRunPending(a.1, rejects, clock, client, M, i + 1);
        (rest.0, rest.1, [AppliedEvent(M[i])] + rest.2)
  }

  /** With one client the legacy loop is the current loop on the default table, so `RunPendingSpec` describes it. */
  lemma {:induction false} LegacyRunPendingOneClient(db: Db, rejects: nat -> bool, clock: nat -> int, M: seq<Migration>, i: nat)
    ensures LegacyRunPending(db, rejects, clock, OneClient, M, i) == RunPending(db, rejects, clock, DefaultTable, M, i)
    decreases |M| - i
  {
    if i < |M| {
      LegacyAttemptOneClient(db, rejects, clock, M[i]);
      var a := Attempt(db, rejects, clock, DefaultTable, M[i]);
      LegacyRunPendingOneClient(a.1, rejects, clock, M, i + 1);
    }
  }

  /**
   * With the client list, the legacy loop runs the first pending migration, then throws
   * the type error: nothing is announced and no ledger row is sent.
   */
  lemma LegacyRunPendingWithList(db: Db, rejects: nat -> bool, clock: nat -> int, M: seq<Migration>, i: nat)
    requires i < |M|
    ensures var res := LegacyRunPending(db, rejects, clock, ClientList, M, i);
      var p := |db.trace|;
      res.0 == Fail(NotAFunction) && res.2 == [] && res.1.tables == db.tables &&
      p <= |res.1.trace| && res.1.trace[..p] == db.trace && Writes(res.1.trace[p..]) == []
  {
    LegacyAttemptWithList(db, rejects, clock, M[i]);
  }

  /** The legacy `migrate` after the table is ensured: the ledger in fetch order, the legacy loader and gate, then the loop. */
  function LegacyUpgradeSpec(db: Db, rejects: nat -> bool, clock: nat -> int, client: ClientRef,
                             dir: Directory, digest: string -> string): (Outcome<Error>, Db, seq<Event>)
  {
    var f := Select(db, rejects, DefaultTable);
    if f.0.Err? then (Fail(f.0.error), f.1, [])
    else
      var L := LegacyDiscover(dir, dir.listing, digest);
      if L.Err? then (Fail(L.error), f.1, [])
      else
        var A, M := f.0.value, L.value;
        if LegacyCheck(A, M).Fail? then (LegacyCheck(A, M), f.1, [])
        else
          var run := LegacyRunPending(f.1, rejects, clock, client, M, |A|);
          (run.0, run.1, [CheckedAppliedMigrations] + run.2)
  }

  /**
   * The legacy `migrate` as index.js calls it never writes a ledger row after reading the
   * ledger, and once the gate passes it succeeds exactly when nothing is pending.
   */
  lemma LegacyMigrateNeverRecords(db: Db, rejects: nat -> bool, clock: nat -> int, dir: Directory, digest: string -> string)
    ensures var res := LegacyUpgradeSpec(db, rejects, clock, ClientList, dir, digest);
      var f := Select(db, rejects, DefaultTable);
      var L := LegacyDiscover(dir, dir.listing, digest);
      var p := |db.trace| + 1;
      p <= |res.1.trace| && res.1.trace[..p] == f.1.trace && Writes(res.1.trace[p..]) == [] &&
      res.1.tables == db.tables &&
      (f.0.Ok? && L.Ok? && LegacyCheck(f.0.value, L.value).Pass? ==>
         (res.0 == Pass <==> |L.value| <= |f.0.value|) &&
         (|f.0.value| < |L.value| ==> res.0 == Fail(NotAFunction)))
  {
    var res := LegacyUpgradeSpec(db, rejects, clock, ClientList, dir, digest);
    var f := Select(db, rejects, DefaultTable);
    var L := LegacyDiscover(dir, dir.listing, digest);
    var p := |db.trace| + 1;
    if f.0.Ok? && L.Ok? && LegacyCheck(f.0.value, L.value).Pass? && |f.0.value| < |L.value| {
      LegacyRunPendingWithList(f.1, rejects, clock, L.value, |f.0.value|);
    } else {
      assert res.1 == f.1;
      assert res.1.trace[p..] == [];
    }
  }

  /** The legacy `Shift`. */
  class LegacyShift {
    /** the first client of `cassandraClients` */
    const session: Session
    /** what `migrate` hands to `executeMigration`: `cassandraClients` itself */
    const client: ClientRef
    const opts: Options
    const digest: string -> string
    var events: seq<Event>

    constructor (session: Session, opts: Options, digest: string -> string)
      ensures this.session == session && this.opts == opts && this.digest == digest
      ensures client == ClientList && events == []
    {
      this.session := session;
      this.client := ClientList;
      this.opts := opts;
      this.digest := digest;
      this.events := [];
    }

    method PrepareCluster() returns (o: Outcome<Error>)
      modifies this, session
      ensures var spec := Prepare(old(session.State()), session.rejects, opts, DefaultTable);
        o == spec.0 && session.State() == spec.1 && events == old(events) + spec.2
    {
      o := Pass;
      if opts.ensureKeyspace {
        o := session.Execute(EnsureKeyspace(opts.keyspace));
        if o.Fail? {
          return;
        }
        events := events + [EnsuredKeyspace];
      }
      if opts.useKeyspace {
        o := session.Execute(UseKeyspace(opts.keyspace));
        if o.Fail? {
          return;
        }
        events := events + [UsedKeyspace];
      }
      o := session.Execute(EnsureTable(DefaultTable));
      if o.Fail? {
        return;
      }
      events := events + [EnsuredMigrationTable];
    }

    method ApplyPending(M: seq<Migration>, from: nat, clock: nat -> int) returns (o: Outcome<Error>)
      modifies this, session
      ensures var spec := LegacyRunPending(old(session.State()), session.rejects, clock, client, M, from);
        o == spec.0 && session.State() == spec.1 && events == old(events) + spec.2
    {
      ghost var start := session.State();
      ghost var emitted: seq<Event> := [];
      var i := from;
      LegacyResumesAtStart(start, from, session.rejects, clock, client, M);
      while i < |M|
        invariant events == old(events) + emitted
        invariant LegacyResumes(start, from, session.State(), session.rejects, clock, client, M, i, emitted)
      {
        var m := M[i];
        ghost var before := session.State();
        o := LegacyExecuteMigration(session, clock, client, m);
        if o.Fail? {
          LegacyResumesAfterFail(start, from, before, session.rejects, clock, client, M, i, emitted);
          return;
        }
        LegacyResumesAfterPass(start, from, before, session.rejects, clock, client, M, i, emitted);
        events := events + [AppliedEvent(m)];
        emitted := emitted + [AppliedEvent(m)];
        i := i + 1;
      }
      LegacyResumesAtEnd(start, from, session.State(), session.rejects, clock, client, M, i, emitted);
      o := Pass;
    }

    method Upgrade(dir: Directory, clock: nat -> int) returns (o: Outcome<Error>)
      modifies this, session
      ensures var spec := LegacyUpgradeSpec(old(session.State()), session.rejects, clock, client, dir, digest);
        o == spec.0 && session.State() == spec.1 && events == old(events) + spec.2
    {
      var applied := session.SelectRows(DefaultTable);
      if applied.Err? {
        return Fail(applied.error);
      }
      var available := LegacyLoadAvailableMigrations(dir, digest);
      if available.Err? {
        return Fail(available.error);
      }
      o := LegacyCheckAppliedMigrations(applied.value, available.value);
      if o.Fail? {
        return;
      }
      events := events + [CheckedAppliedMigrations];
      o := ApplyPending(available.value, |applied.value|, clock);
    }

    /** `migrate()` of index.js: the opening, then (when it succeeds) the upgrade proper. */
    method Migrate(dir: Directory, clock: nat -> int) returns (o: Outcome<Error>)
      modifies this, session
      ensures var pre := Prepare(old(session.State()), session.rejects, opts, DefaultTable);
        if pre.0.Fail? then o == pre.0 && session.State() == pre.1 && events == old(events) + pre.2
        else
          var up := LegacyUpgradeSpec(pre.1, session.rejects, clock, client, dir, digest);
          o == up.0 && session.State() == up.1 && events == old(events) + pre.2 + up.2
    {
      o := PrepareCluster();
      if o.Fail? {
        return;
      }
      o := Upgrade(dir, clock);
    }
  }

  /** The legacy loop at index `i` with the session at `db`, having emitted `emitted`. */
  ghost predicate LegacyResumes(start: Db, from: nat, db: Db, rejects: nat -> bool, clock: nat -> int, client: ClientRef,
                                M: seq<Migration>, i: nat, emitted: seq<Event>)
  {
    var here := LegacyRunPending(db, rejects, clock, client, M, i);
    LegacyRunPending(start, rejects, clock, client, M, from) == (here.0, here.1, emitted + here.2)
  }

  lemma LegacyResumesAtStart(db: Db, from: nat, rejects: nat -> bool, clock: nat -> int, client: ClientRef, M: seq<Migration>)
    ensures LegacyResumes(db, from, db, rejects, clock, client, M, from, [])
  {
    var run := LegacyRunPending(db, rejects, clock, client, M, from);
    assert [] + run.2 == run.2;
  }

  lemma LegacyResumesAfterPass(start: Db, from: nat, db: Db, rejects: nat -> bool, clock: nat -> int, client: ClientRef,
                               M: seq<Migration>, i: nat, emitted: seq<Event>)
    requires i < |M| && LegacyAttempt(db, rejects, clock, client, M[i]).0.Pass?
    requires LegacyResumes(start, from, db, rejects, clock, client, M, i, emitted)
    ensures LegacyResumes(start, from, LegacyAttempt(db, rejects, clock, client, M[i]).1, rejects, clock, client, M, i + 1,
                          emitted + [AppliedEvent(M[i])])
  {
    var rest := LegacyRunPending(LegacyAttempt(db, rejects, clock, client, M[i]).1, rejects, clock, client, M, i + 1);
    assert emitted + ([AppliedEvent(M[i])] + rest.2) == (emitted + [AppliedEvent(M[i])]) + rest.2;
  }

  lemma LegacyResumesAfterFail(start: Db, from: nat, db: Db, rejects: nat -> bool, clock: nat -> int, client: ClientRef,
                               M: seq<Migration>, i: nat, emitted: seq<Event>)
    requires i < |M| && LegacyAttempt(db, rejects, clock, client, M[i]).0.Fail?
    requires LegacyResumes(start, from, db, rejects, clock, client, M, i, emitted)
    ensures var a := LegacyAttempt(db, rejects, clock, client, M[i]);
      LegacyRunPending(start, rejects, clock, client, M, from) == (a.0, a.1, emitted)
  {
    assert emitted + [] == emitted;
  }

  lemma LegacyResumesAtEnd(start: Db, from: nat, db: Db, rejects: nat -> bool, clock: nat -> int, client: ClientRef,
                           M: seq<Migration>, i: nat, emitted: seq<Event>)
    requires |M| <= i && LegacyResumes(start, from, db, rejects, clock, client, M, i, emitted)
    ensures LegacyRunPending(start, rejects, clock, client, M, from) == (Pass, db, emitted)
  {
    assert emitted + [] == emitted;
  }
}
