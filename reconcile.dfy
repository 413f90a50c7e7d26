/**
 * Reconciliation of the ledger (applied rows, A) with the available migrations (M):
 * the order the ledger is read in, the per-slot state shown by `info`, the consistency
 * gate that `migrate` and `validate` pass through, and the slot report.
 */
module Reconcile {
  import opened Wrappers
  import opened Model
  import Cluster

  // ---------------------------------------------------------------------------------
  // Reading the ledger in version order
  // ---------------------------------------------------------------------------------

  predicate Ascending(rows: seq<Row>) {
    forall i, j :: 0 <= i < j < |rows| ==> rows[i].version <= rows[j].version
  }

  /** Places `x` before the first row whose version is not smaller (so equal versions keep their input order). */
  function InsertByVersion(x: Row, sorted: seq<Row>): seq<Row>
    decreases |sorted|
  {
    if |sorted| == 0 || x.version <= sorted[0].version then [x] + sorted
    else [sorted[0]] + InsertByVersion(x, sorted[1..])
  }

  /** `rows.sort((r1, r2) => r1.version - r2.version)`: a stable sort by version. */
  function SortByVersion(rows: seq<Row>): seq<Row>
    decreases |rows|
  {
    if |rows| == 0 then [] else InsertByVersion(rows[0], SortByVersion(rows[1..]))
  }

  /** Inserting adds exactly `x` to the rows. */
  lemma {:induction false} InsertByVersionPermutes(x: Row, sorted: seq<Row>)
    ensures multiset(InsertByVersion(x, sorted)) == multiset(sorted) + multiset{x}
    decreases |sorted|
  {
    if |sorted| > 0 && x.version > sorted[0].version {
      InsertByVersionPermutes(x, sorted[1..]);
      assert sorted == [sorted[0]] + sorted[1..];
    }
  }

  /** A row no later than every row of an ascending list can go in front. */
  lemma AscendingCons(a: Row, s: seq<Row>)
    requires Ascending(s)
    requires forall y :: y in s ==> a.version <= y.version
    ensures Ascending([a] + s)
  {
    var u := [a] + s;
    forall i, j | 0 <= i < j < |u| ensures u[i].version <= u[j].version {
      if i == 0 {
        assert u[j] in s;
      } else {
        assert u[i] == s[i - 1] && u[j] == s[j - 1];
      }
    }
  }

  /** Inserting into an ascending list keeps it ascending. */
  lemma {:induction false} InsertByVersionAscending(x: Row, sorted: seq<Row>)
    requires Ascending(sorted)
    ensures Ascending(InsertByVersion(x, sorted))
    decreases |sorted|
  {
    if |sorted| == 0 || x.version <= sorted[0].version {
      forall y | y in sorted ensures x.version <= y.version {
        var k :| 0 <= k < |sorted| && sorted[k] == y;
        assert sorted[0].version <= sorted[k].version;
      }
      AscendingCons(x, sorted);
    } else {
      var tail := sorted[1..];
      InsertByVersionAscending(x, tail);
      InsertByVersionPermutes(x, tail);
      forall y | y in InsertByVersion(x, tail) ensures sorted[0].version <= y.version {
        assert y in multiset(InsertByVersion(x, tail));
        if y != x {
          assert y in multiset(tail);
          var k :| 0 <= k < |tail| && tail[k] == y;
          assert sorted[k + 1] == y;
        }
      }
      AscendingCons(sorted[0], InsertByVersion(x, tail));
    }
  }

  /** The applied rows come back in ascending version order and are a permutation of the rows fetched. */
  lemma {:induction false} SortByVersionSpec(rows: seq<Row>)
    ensures Ascending(SortByVersion(rows))
    ensures multiset(SortByVersion(rows)) == multiset(rows)
    decreases |rows|
  {
    if |rows| > 0 {
      SortByVersionSpec(rows[1..]);
      InsertByVersionPermutes(rows[0], SortByVersion(rows[1..]));
      InsertByVersionAscending(rows[0], SortByVersion(rows[1..]));
      assert rows == [rows[0]] + rows[1..];
    }
  }

  /** Rows that share a version are the same row. */
  predicate KeyDetermines(rows: seq<Row>) {
    forall x, y :: x in rows && y in rows && x.version == y.version ==> x == y
  }

  /** Two ascending arrangements of the same non-empty rows start with the same row. */
  lemma AscendingHeadsEqual(a: seq<Row>, b: seq<Row>)
    requires Ascending(a) && Ascending(b) && multiset(a) == multiset(b) && KeyDetermines(a)
    requires |a| > 0
    ensures |b| > 0 && a[0] == b[0]
  {
    assert a[0] in multiset(b);
    var j :| 0 <= j < |b| && b[j] == a[0];
    assert b[0] in multiset(a);
    var i :| 0 <= i < |a| && a[i] == b[0];
    assert a[0].version <= a[i].version;
    assert b[0].version <= b[j].version;
  }

  lemma TailsPermute(a: seq<Row>, b: seq<Row>)
    requires |a| > 0 && |b| > 0 && a[0] == b[0] && multiset(a) == multiset(b)
    ensures multiset(a[1..]) == multiset(b[1..])
  {
    assert a == [a[0]] + a[1..] && b == [b[0]] + b[1..];
    assert multiset(a[1..]) == multiset(a) - multiset{a[0]};
    assert multiset(b[1..]) == multiset(b) - multiset{b[0]};
  }

  lemma TailKeeps(a: seq<Row>)
    requires |a| > 0
    ensures Ascending(a) ==> Ascending(a[1..])
    ensures KeyDetermines(a) ==> KeyDetermines(a[1..])
  {
    forall x | x in a[1..] ensures x in a {
    }
  }

  /** Two ascending arrangements of the same rows, where a version determines its row, are identical. */
  lemma {:induction false} AscendingArrangementUnique(a: seq<Row>, b: seq<Row>)
    requires Ascending(a) && Ascending(b) && multiset(a) == multiset(b) && KeyDetermines(a)
    ensures a == b
    decreases |a|
  {
    if |a| == 0 {
      assert |b| == |multiset(b)| == 0;
    } else {
      AscendingHeadsEqual(a, b);
      TailsPermute(a, b);
      var a', b' := a[1..], b[1..];
      TailKeeps(a);
      TailKeeps(b);
      AscendingArrangementUnique(a', b');
      assert a == [a[0]] + a' && b == [b[0]] + b';
    }
  }

  /**
   * The order in which the cluster returns the ledger rows does not matter: since the
   * version is the primary key, any two orders of the same rows sort to the same list.
   */
  lemma FetchOrderIrrelevant(p: seq<Row>, q: seq<Row>)
    requires Cluster.DistinctVersions(p) && multiset(p) == multiset(q)
    ensures SortByVersion(p) == SortByVersion(q)
  {
    SortByVersionSpec(p);
    SortByVersionSpec(q);
    var sp, sq := SortByVersion(p), SortByVersion(q);
    forall x, y | x in sp && y in sp && x.version == y.version ensures x == y {
      assert x in multiset(p) && y in multiset(p);
      var i :| 0 <= i < |p| && p[i] == x;
      var j :| 0 <= j < |p| && p[j] == y;
      assert i == j;
    }
    AscendingArrangementUnique(sp, sq);
  }

  // ---------------------------------------------------------------------------------
  // Per-slot state
  // ---------------------------------------------------------------------------------

  datatype SlotState = Pending | UnknownSuccess | UnknownFailed | Mismatch | Success | Failed

  /** The entry at index `i`, or nothing past the end (JavaScript's `undefined`). */
  function At<T>(s: seq<T>, i: nat): Option<T> {
    if i < |s| then Some(s[i]) else None
  }

  /** `computeState(am, m)`: the state of one slot from the ledger row and the descriptor at that slot. */
  function ComputeState(am: Option<Row>, m: Option<Migration>): SlotState {
    if am.None? then Pending
    else if m.None? then (if am.value.success then UnknownSuccess else UnknownFailed)
    else if am.value.version != m.value.version then Mismatch
    else if am.value.name != m.value.name then Mismatch
    else if am.value.checksum != m.value.checksum then Mismatch
    else if am.value.success then Success else Failed
  }

  /**
   * The six outcomes, by what they say about the slot: no row means pending (even with no
   * descriptor); a row alone is unknown; a row and a descriptor that disagree on version,
   * name or checksum mismatch; otherwise the row's success flag decides.
   */
  lemma ComputeStateMeaning(am: Option<Row>, m: Option<Migration>)
    ensures ComputeState(am, m) == Pending <==> am.None?
    ensures ComputeState(am, m) in {UnknownSuccess, UnknownFailed} <==> am.Some? && m.None?
    ensures ComputeState(am, m) == Mismatch <==> am.Some? && m.Some? && !Agree(am.value, m.value)
    ensures ComputeState(am, m) in {Success, UnknownSuccess} <==> am.Some? && am.value.success && (m.None? || Agree(am.value, m.value))
    ensures ComputeState(am, m) in {Failed, UnknownFailed} <==> am.Some? && !am.value.success && (m.None? || Agree(am.value, m.value))
  {
  }

  // ---------------------------------------------------------------------------------
  // The consistency gate
  // ---------------------------------------------------------------------------------

  /** The comparison of one applied row with the descriptor at its slot: version, then name, then checksum. */
  function CompareSlot(am: Row, m: Migration): (o: Outcome<Error>)
    ensures o == Pass <==> Agree(am, m)
  {
    if am.version != m.version then Fail(VersionMismatch(am.version, m.version))
    else if am.name != m.name then Fail(NameMismatch(am.name, m.name))
    else if am.checksum != m.checksum then Fail(ChecksumMismatch(am.checksum, m.checksum))
    else Pass
  }

  /** The loop of `checkAppliedMigrations` from index `i` on; slots with no descriptor are skipped. */
  function CheckFrom(A: seq<Row>, M: seq<Migration>, i: nat): Outcome<Error>
    decreases |A| - i
  {
    if i >= |A| then Pass
    else if i >= |M| then CheckFrom(A, M, i + 1)
    else if CompareSlot(A[i], M[i]).Fail? then CompareSlot(A[i], M[i])
    else CheckFrom(A, M, i + 1)
  }

  /** `checkAppliedMigrations(A, M)`: a failed last row halts everything; otherwise the first slot that disagrees. */
  function Check(A: seq<Row>, M: seq<Migration>): Outcome<Error> {
    if |A| == 0 then Pass
    else if !A[|A| - 1].success then Fail(Halted(A[|A| - 1].version, A[|A| - 1].name))
    else CheckFrom(A, M, 0)
  }

  /** Every slot where both lists have an entry agrees. */
  predicate Consistent(A: seq<Row>, M: seq<Migration>) {
    forall i :: 0 <= i < |A| && i < |M| ==> Agree(A[i], M[i])
  }

  /** What the gate lets through: an empty ledger, or a successful last row over consistent slots. */
  predicate Clean(A: seq<Row>, M: seq<Migration>) {
    |A| == 0 || (A[|A| - 1].success && Consistent(A, M))
  }

  /** `j` is the first slot (from `i` on) where both lists have an entry and they disagree. */
  predicate FirstDisagreement(A: seq<Row>, M: seq<Migration>, i: int, j: int) {
    0 <= i <= j < |A| && j < |M| && !Agree(A[j], M[j]) &&
    forall l :: i <= l < j && l < |M| ==> Agree(A[l], M[l])
  }

  lemma {:induction false} CheckFromSpec(A: seq<Row>, M: seq<Migration>, i: nat)
    ensures CheckFrom(A, M, i) == Pass <==> forall l :: i <= l < |A| && l < |M| ==> Agree(A[l], M[l])
    ensures CheckFrom(A, M, i).Fail? ==>
      exists j :: FirstDisagreement(A, M, i, j) && CheckFrom(A, M, i) == CompareSlot(A[j], M[j])
    decreases |A| - i
  {
    if i < |A| {
      CheckFromSpec(A, M, i + 1);
      if CheckFrom(A, M, i).Fail? && (i >= |M| || CompareSlot(A[i], M[i]).Pass?) {
        var j :| FirstDisagreement(A, M, i + 1, j) && CheckFrom(A, M, i + 1) == CompareSlot(A[j], M[j]);
        assert FirstDisagreement(A, M, i, j);
      } else if CheckFrom(A, M, i).Fail? {
        assert FirstDisagreement(A, M, i, i);
      }
    }
  }

  /**
   * The gate passes exactly when the ledger is empty, or its last row succeeded and every
   * slot with both entries agrees; applied rows beyond the available list are tolerated.
   */
  lemma CheckPassIff(A: seq<Row>, M: seq<Migration>)
    ensures Check(A, M) == Pass <==> Clean(A, M)
  {
    CheckFromSpec(A, M, 0);
  }

  /**
   * When the gate fails: a failed last row is reported as halted, before any field
   * mismatch; otherwise the error is that of the first disagreeing slot, in the order
   * version, name, checksum.
   */
  lemma CheckReportsFirstProblem(A: seq<Row>, M: seq<Migration>)
    requires Check(A, M).Fail?
    ensures |A| > 0
    ensures !A[|A| - 1].success ==> Check(A, M) == Fail(Halted(A[|A| - 1].version, A[|A| - 1].name))
    ensures A[|A| - 1].success ==>
      exists j :: FirstDisagreement(A, M, 0, j) && Check(A, M) == CompareSlot(A[j], M[j])
  {
    CheckFromSpec(A, M, 0);
  }

  /** The gate and the slot states agree: it passes exactly when no slot is a mismatch and the last applied slot succeeded. */
  lemma CheckMatchesSlotStates(A: seq<Row>, M: seq<Migration>)
    ensures Check(A, M) == Pass <==>
      |A| == 0 ||
      ((forall i :: 0 <= i < |A| ==> ComputeState(At(A, i), At(M, i)) != Mismatch) &&
       ComputeState(At(A, |A| - 1), At(M, |A| - 1)) in {Success, UnknownSuccess})
  {
    CheckPassIff(A, M);
    forall i | 0 <= i < |A| {
      ComputeStateMeaning(At(A, i), At(M, i));
    }
    if |A| > 0 {
      var n := |A| - 1;
      ComputeStateMeaning(At(A, n), At(M, n));
      assert At(A, n) == Some(A[n]);
      if Clean(A, M) {
        forall i | 0 <= i < |A| ensures ComputeState(At(A, i), At(M, i)) != Mismatch {
          assert At(A, i) == Some(A[i]);
        }
      } else if forall i :: 0 <= i < |A| ==> ComputeState(At(A, i), At(M, i)) != Mismatch {
        assert Consistent(A, M) by {
          forall i | 0 <= i < |A| && i < |M| ensures Agree(A[i], M[i]) {
            assert At(A, i) == Some(A[i]) && At(M, i) == Some(M[i]);
          }
        }
      }
    }
  }

  /** The loop of `checkAppliedMigrations`, returning at the first problem. */
  method CheckAppliedMigrations(A: seq<Row>, M: seq<Migration>) returns (o: Outcome<Error>)
    ensures o == Check(A, M)
  {
    if |A| == 0 {
      return Pass;
    }
    var last := A[|A| - 1];
    if !last.success {
      return Fail(Halted(last.version, last.name));
    }
    var i := 0;
    while i < |A|
      invariant 0 <= i <= |A|
      invariant Check(A, M) == CheckFrom(A, M, i)
    {
      if i < |M| {
        var am, m := A[i], M[i];
        if am.version != m.version {
          return Fail(VersionMismatch(am.version, m.version));
        }
        if am.name != m.name {
          return Fail(NameMismatch(am.name, m.name));
        }
        if am.checksum != m.checksum {
          return Fail(ChecksumMismatch(am.checksum, m.checksum));
        }
      }
      i := i + 1;
    }
    return Pass;
  }

  // ---------------------------------------------------------------------------------
  // Validation
  // ---------------------------------------------------------------------------------

  /** The checks of `validate`: the gate, then "nothing pending". */
  function Validity(A: seq<Row>, M: seq<Migration>): Outcome<Error> {
    match Check(A, M)
    case Fail(e) => Fail(e)
    case Pass => if |M| > |A| then Fail(Incomplete(|A|, |M|)) else Pass
  }

  /** Valid exactly when the gate passes and no available migration is left to apply. */
  lemma ValidityIff(A: seq<Row>, M: seq<Migration>)
    ensures Validity(A, M) == Pass <==> Clean(A, M) && |M| <= |A|
    ensures Validity(A, M).Fail? && Check(A, M) == Pass ==> Validity(A, M) == Fail(Incomplete(|A|, |M|))
  {
    CheckPassIff(A, M);
  }

  // ---------------------------------------------------------------------------------
  // The info report
  // ---------------------------------------------------------------------------------

  /** One entry of `info()`; `version` is the slot index, as the source fills it. */
  datatype SlotReport = SlotReport(
    version: nat,
    name: string,
    tag: string,
    state: SlotState,
    installedOn: Option<int>,
    executionTime: Option<int>)

  function Max(a: nat, b: nat): nat { if a < b then b else a }

  /**
   * Slot `i` is described from the descriptor when there is one, else from the ledger row;
   * install time and duration come from the row, and are absent without one.
   */
  predicate ReportsSlot(A: seq<Row>, M: seq<Migration>, i: nat, r: SlotReport)
    requires i < |A| || i < |M|
  {
    r.version == i &&
    r.name == (if i < |M| then M[i].name else A[i].name) &&
    r.tag == (if i < |M| then TypeTag(M[i].kind) else A[i].tag) &&
    r.state == ComputeState(At(A, i), At(M, i)) &&
    r.installedOn == (if i < |A| then Some(A[i].installedOn) else None) &&
    r.executionTime == (if i < |A| then Some(A[i].executionTime) else None)
  }

  /** The loop of `info()`: one entry per slot, `max(|A|, |M|)` slots. */
  method BuildReport(A: seq<Row>, M: seq<Migration>) returns (info: seq<SlotReport>)
    ensures |info| == Max(|A|, |M|)
    ensures forall i :: 0 <= i < |info| ==> ReportsSlot(A, M, i, info[i])
  {
    var length := Max(|A|, |M|);
    info := [];
    var i := 0;
    while i < length
      invariant 0 <= i <= length && |info| == i
      invariant forall k :: 0 <= k < i ==> ReportsSlot(A, M, k, info[k])
    {
      var am, m := At(A, i), At(M, i);
      info := info + [SlotReport(
        i,
        if m.Some? then m.value.name else am.value.name,
        if m.Some? then TypeTag(m.value.kind) else am.value.tag,
        ComputeState(am, m),
        if am.Some? then Some(am.value.installedOn) else None,
        if am.Some? then Some(am.value.executionTime) else None)];
      i := i + 1;
    }
  }
}
