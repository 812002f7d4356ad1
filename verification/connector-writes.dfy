/**
 Writing a batch to an external SQL source, with the version bump around it.

 A guarded upsert applies when the row is absent or still at the expected version. `TransactionIsAllOrNothing` and
 `SequentialIsPerOperation` say what a batch leaves behind; `ReportedVersionsAreHeld` says that the versions reported to
 the caller are exactly those its applied, bumped operations left in their rows.
 */
module ConnectorWrites {
  import opened Wrappers

  // ---- values -------------------------------------------------------------------------------------------------

  /** The whole numbers a double counts one by one. */
  const LARGEST: int := 0x20_0000_0000_0000

  type Whole = n: int | -LARGEST <= n <= LARGEST

  /** Adding one to a double: the largest whole number is its own successor. */
  function Successor(n: Whole): Whole {
    if n < LARGEST then n + 1 else n
  }

  datatype Value = Null | Number(n: Whole) | Text(text: string) | Flag(flag: bool)

  type Row = map<string, Value>

  /** A source's table, by the text of its id column. */
  type Rows = map<string, Row>

  datatype Kind = Upsert | Delete
  datatype Concurrency = LastWriteWins | Optimistic
  datatype Atomicity = Sequential | Transactional
  datatype FailureKind = Conflict | Fault | Unsupported

  datatype Operation = Operation(kind: Kind, key: string, fields: Row, version: Option<Value>)

  datatype Batch = Batch(source: string, idKey: string, operations: seq<Operation>, concurrency: Concurrency, atomicity: Atomicity,
                         versionField: Option<string>)

  datatype Failure = Failure(key: string, kind: FailureKind)
  datatype Version = Version(key: string, value: Value)
  datatype WriteResult = WriteResult(applied: nat, failures: seq<Failure>, versions: Option<seq<Version>>)

  // ---- one operation ------------------------------------------------------------------------------------------

  /** A column of a row; a column never written holds null. */
  function Column(row: Row, name: string): Value {
    if name in row then row[name] else Null
  }

  /** SQL equality: null equals nothing. */
  predicate SqlEqual(a: Value, b: Value) {
    a != Null && a == b
  }

  predicate Guarded(batch: Batch) {
    batch.concurrency.Optimistic? && batch.versionField.Some?
  }

  function Expected(op: Operation): Value {
    if op.version.Some? then op.version.value else Null
  }

  /** The fields an upsert writes besides the id column. */
  function FieldsOf(batch: Batch, op: Operation): Row {
    op.fields - {batch.idKey}
  }

  /** INSERT … ON CONFLICT DO UPDATE, or DO NOTHING when there is only the key; None when the guard matched no row. */
  function ApplyUpsert(rows: Rows, batch: Batch, op: Operation): Option<Rows> {
    var fields := FieldsOf(batch, op);
    if op.key !in rows then Some(rows[op.key := map[batch.idKey := Text(op.key)] + fields])
    else if fields == map[] then Some(rows)
    else if Guarded(batch) && !SqlEqual(Column(rows[op.key], batch.versionField.value), Expected(op)) then None
    else Some(rows[op.key := rows[op.key] + fields])
  }

  datatype Step = Step(rows: Rows, failure: Option<Failure>)

  /** One operation; a driver fault changes nothing, and a delete has no guard. */
  function ApplyOne(rows: Rows, batch: Batch, op: Operation, fault: bool): Step {
    if fault then Step(rows, Some(Failure(op.key, Fault)))
    else if op.kind.Delete? then Step(rows - {op.key}, None)
    else
      match ApplyUpsert(rows, batch, op)
      case Some(after) => Step(after, None)
      case None => Step(rows, Some(Failure(op.key, Conflict)))
  }

  datatype Progress = Progress(rows: Rows, applied: nat, failures: seq<Failure>)

  /** After the first n operations, of which those at the positions in `faults` met a driver fault. */
  function After(rows: Rows, batch: Batch, faults: set<nat>, n: nat): Progress
    requires n <= |batch.operations|
  {
    if n == 0 then Progress(rows, 0, [])
    else
      var before := After(rows, batch, faults, n - 1);
      var step := ApplyOne(before.rows, batch, batch.operations[n - 1], n - 1 in faults);
      match step.failure
      case None => Progress(step.rows, before.applied + 1, before.failures)
      case Some(failure) => Progress(step.rows, before.applied, before.failures + [failure])
  }

  function AfterAll(rows: Rows, batch: Batch, faults: set<nat>): Progress {
    After(rows, batch, faults, |batch.operations|)
  }

  function Refusals(operations: seq<Operation>): seq<Failure> {
    seq(|operations|, i requires 0 <= i < |operations| => Failure(operations[i].key, Unsupported))
  }

  // ---- the SQL adapter ----------------------------------------------------------------------------------------

  class SqlSession {
    var rows: Rows

    constructor (initial: Rows)
      ensures rows == initial
    {
      rows := initial;
    }

    method Perform(batch: Batch, op: Operation, fault: bool) returns (failure: Option<Failure>)
      modifies this
      ensures Step(rows, failure) == ApplyOne(old(rows), batch, op, fault)
    {
      if fault {
        return Some(Failure(op.key, Fault));
      }
      if op.kind.Delete? {
        rows := rows - {op.key};
        return None;
      }
      var after := ApplyUpsert(rows, batch, op);
      if after.None? {
        return Some(Failure(op.key, Conflict));
      }
      rows := after.value;
      return None;
    }
  }

  class SqlAdapter {
    const session: SqlSession
    const canTransact: bool

    constructor (session: SqlSession, canTransact: bool)
      ensures this.session == session && this.canTransact == canTransact
    {
      this.session := session;
      this.canTransact := canTransact;
    }

    /** The result, or None when the driver throws: only a commit that fails does. */
    method Apply(batch: Batch, faults: set<nat>, commits: bool) returns (result: Option<WriteResult>)
      modifies session
      ensures Outcome(session.rows, result) == SqlApply(old(session.rows), batch, canTransact, faults, commits)
    {
      if batch.atomicity.Transactional? {
        result := ApplyTransactional(batch, faults, commits);
      } else {
        var sequential := ApplySequential(session, batch, faults);
        result := Some(sequential);
      }
    }

    method ApplySequential(on: SqlSession, batch: Batch, faults: set<nat>) returns (result: WriteResult)
      modifies on
      ensures Progress(on.rows, result.applied, result.failures) == AfterAll(old(on.rows), batch, faults) && result.versions == None
    {
      var applied: nat, failures := 0, [];
      for i := 0 to |batch.operations|
        invariant Progress(on.rows, applied, failures) == After(old(on.rows), batch, faults, i)
      {
        var failure := on.Perform(batch, batch.operations[i], i in faults);
        if failure.None? {
          applied := applied + 1;
        } else {
          failures := failures + [failure.value];
        }
      }
      result := WriteResult(applied, failures, None);
    }

    /** Works on the transaction's own rows, which a rollback throws away. */
    method ApplyTransactional(batch: Batch, faults: set<nat>, commits: bool) returns (result: Option<WriteResult>)
      requires batch.atomicity.Transactional?
      modifies session
      ensures Outcome(session.rows, result) == SqlApply(old(session.rows), batch, canTransact, faults, commits)
    {
      if !canTransact {
        var failures := [];
        for i := 0 to |batch.operations|
          invariant failures == Refusals(batch.operations)[..i]
        {
          failures := failures + [Failure(batch.operations[i].key, Unsupported)];
        }
        assert Refusals(batch.operations)[..|batch.operations|] == Refusals(batch.operations);
        return Some(WriteResult(0, failures, None));
      }
      var tx := new SqlSession(session.rows);
      var within := ApplySequential(tx, batch, faults);
      if |within.failures| > 0 {
        return Some(WriteResult(0, within.failures, None));
      }
      if !commits {
        return None;
      }
      session.rows := tx.rows;
      return Some(within);
    }
  }

  datatype Outcome = Outcome(rows: Rows, result: Option<WriteResult>)

  /** What the SQL adapter does with a batch. */
  function SqlApply(rows: Rows, batch: Batch, canTransact: bool, faults: set<nat>, commits: bool): Outcome {
    var done := AfterAll(rows, batch, faults);
    if batch.atomicity.Sequential? then Outcome(done.rows, Some(WriteResult(done.applied, done.failures, None)))
    else if !canTransact then Outcome(rows, Some(WriteResult(0, Refusals(batch.operations), None)))
    else if |done.failures| > 0 then Outcome(rows, Some(WriteResult(0, done.failures, None)))
    else if !commits then Outcome(rows, None)
    else Outcome(done.rows, Some(WriteResult(done.applied, [], None)))
  }

  /** Every operation is counted once: as applied, or by its failure. */
  lemma {:induction false} AppliedPlusFailed(rows: Rows, batch: Batch, faults: set<nat>, n: nat)
    requires n <= |batch.operations|
    ensures After(rows, batch, faults, n).applied + |After(rows, batch, faults, n).failures| == n
  {
    if n > 0 {
      AppliedPlusFailed(rows, batch, faults, n - 1);
    }
  }

  /** A transactional batch leaves the table as it was unless every operation applied and the commit held. */
  lemma TransactionIsAllOrNothing(rows: Rows, batch: Batch, canTransact: bool, faults: set<nat>, commits: bool)
    requires batch.atomicity.Transactional?
    ensures var o := SqlApply(rows, batch, canTransact, faults, commits);
            && (o.result.Some? && o.result.value.applied > 0 ==> o.result.value.applied == |batch.operations| && o.result.value.failures == [])
            && (o.rows != rows ==> o.result.Some? && o.result.value.failures == [] && o.result.value.applied == |batch.operations|)
            && (o.result.Some? && o.result.value.failures == [] ==> o.rows == AfterAll(rows, batch, faults).rows)
  {
    AppliedPlusFailed(rows, batch, faults, |batch.operations|);
    if batch.operations == [] {
      assert After(rows, batch, faults, 0).rows == rows;
    }
  }

  predicate DistinctKeys(batch: Batch) {
    forall i, j :: 0 <= i < j < |batch.operations| ==> batch.operations[i].key != batch.operations[j].key
  }

  predicate Names(failures: seq<Failure>, key: string) {
    exists f :: f in failures && f.key == key
  }

  /** An operation touches no other key, and a failed one nothing at all. */
  lemma OneTouchesItsKey(rows: Rows, batch: Batch, op: Operation, fault: bool, key: string)
    ensures ApplyOne(rows, batch, op, fault).failure.Some? ==> ApplyOne(rows, batch, op, fault).rows == rows
    ensures key != op.key ==> (key in rows <==> key in ApplyOne(rows, batch, op, fault).rows)
    ensures key != op.key && key in rows ==> ApplyOne(rows, batch, op, fault).rows[key] == rows[key]
  {
  }

  /** The failures of the first n operations name only keys of those operations. */
  lemma {:induction false} FailuresNameOperations(rows: Rows, batch: Batch, faults: set<nat>, n: nat, key: string)
    requires n <= |batch.operations|
    requires forall i :: 0 <= i < n ==> batch.operations[i].key != key
    ensures !Names(After(rows, batch, faults, n).failures, key)
    ensures key in After(rows, batch, faults, n).rows <==> key in rows
    ensures key in rows ==> After(rows, batch, faults, n).rows[key] == rows[key]
  {
    hide ApplyOne;
    if n > 0 {
      FailuresNameOperations(rows, batch, faults, n - 1, key);
      OneTouchesItsKey(After(rows, batch, faults, n - 1).rows, batch, batch.operations[n - 1], n - 1 in faults, key);
      FailureIsOwn(After(rows, batch, faults, n - 1).rows, batch, batch.operations[n - 1], n - 1 in faults);
    }
  }

  lemma FailureIsOwn(rows: Rows, batch: Batch, op: Operation, fault: bool)
    ensures ApplyOne(rows, batch, op, fault).failure.Some? ==> ApplyOne(rows, batch, op, fault).failure.value.key == op.key
  {
  }

  /** What a sequential batch of distinct keys does to one row is what its one operation does alone. */
  lemma {:induction false} SequentialIsPerOperation(rows: Rows, batch: Batch, faults: set<nat>, i: nat, n: nat)
    requires i < n <= |batch.operations| && DistinctKeys(batch)
    ensures var key := batch.operations[i].key;
            var alone := ApplyOne(rows, batch, batch.operations[i], i in faults);
            && (key in After(rows, batch, faults, n).rows <==> key in alone.rows)
            && (key in alone.rows ==> After(rows, batch, faults, n).rows[key] == alone.rows[key])
            && (Names(After(rows, batch, faults, n).failures, key) <==> alone.failure.Some?)
    decreases n
  {
    hide ApplyOne;
    var key := batch.operations[i].key;
    var before := After(rows, batch, faults, n - 1);
    FailureIsOwn(before.rows, batch, batch.operations[n - 1], n - 1 in faults);
    OneTouchesItsKey(before.rows, batch, batch.operations[n - 1], n - 1 in faults, key);
    if i < n - 1 {
      SequentialIsPerOperation(rows, batch, faults, i, n - 1);
    } else {
      FailuresNameOperations(rows, batch, faults, i, key);
      SameRowSameStep(before.rows, rows, batch, batch.operations[i], i in faults);
      if ApplyOne(rows, batch, batch.operations[i], i in faults).failure.Some? {
        assert After(rows, batch, faults, n).failures[|before.failures|].key == key;
      }
    }
  }

  /** An operation's effect on its row and its failure depend only on that row. */
  lemma SameRowSameStep(a: Rows, b: Rows, batch: Batch, op: Operation, fault: bool)
    requires op.key in a <==> op.key in b
    requires op.key in a ==> a[op.key] == b[op.key]
    ensures ApplyOne(a, batch, op, fault).failure == ApplyOne(b, batch, op, fault).failure
    ensures op.key in ApplyOne(a, batch, op, fault).rows <==> op.key in ApplyOne(b, batch, op, fault).rows
    ensures op.key in ApplyOne(a, batch, op, fault).rows ==> ApplyOne(a, batch, op, fault).rows[op.key] == ApplyOne(b, batch, op, fault).rows[op.key]
  {
  }

  // ---- the version bump ---------------------------------------------------------------------------------------

  /** An upsert whose numeric expected version is not overruled by its own fields. */
  predicate Bumps(op: Operation, field: string) {
    && op.kind.Upsert? && op.version.Some? && op.version.value.Number?
    && (field in op.fields ==> op.fields[field] == op.version.value)
  }

  function NextVersion(op: Operation, field: string): Value
    requires Bumps(op, field)
  {
    Number(Successor(op.version.value.n))
  }

  function BumpedOp(op: Operation, field: string): Operation {
    if Bumps(op, field) then op.(fields := op.fields[field := NextVersion(op, field)]) else op
  }

  function Bumped(batch: Batch): Batch {
    if Guarded(batch) then
      batch.(operations := seq(|batch.operations|, i requires 0 <= i < |batch.operations| => BumpedOp(batch.operations[i], batch.versionField.value)))
    else batch
  }

  /** The versions of the bumped operations among the first n that no failure names. */
  function ReportedVersions(batch: Batch, field: string, failures: seq<Failure>, n: nat): seq<Version>
    requires n <= |batch.operations|
  {
    if n == 0 then []
    else
      var op := batch.operations[n - 1];
      ReportedVersions(batch, field, failures, n - 1)
      + if Bumps(op, field) && !Names(failures, op.key) then [Version(op.key, NextVersion(op, field))] else []
  }

  /** A result with the versions its applied operations now carry. */
  function WithVersions(batch: Batch, result: WriteResult): WriteResult {
    if !Guarded(batch) || result.applied == 0 then result
    else
      var versions := ReportedVersions(batch, batch.versionField.value, result.failures, |batch.operations|);
      if versions == [] then result else result.(versions := Some(versions))
  }

  function BumpedApply(rows: Rows, batch: Batch, canTransact: bool, faults: set<nat>, commits: bool): Outcome {
    var o := SqlApply(rows, Bumped(batch), canTransact, faults, commits);
    if o.result.None? then o else Outcome(o.rows, Some(WithVersions(batch, o.result.value)))
  }

  class VersionBumpingAdapter {
    const inner: SqlAdapter

    constructor (inner: SqlAdapter)
      ensures this.inner == inner
    {
      this.inner := inner;
    }

    method Apply(batch: Batch, faults: set<nat>, commits: bool) returns (result: Option<WriteResult>)
      modifies inner.session
      ensures Outcome(inner.session.rows, result) == BumpedApply(old(inner.session.rows), batch, inner.canTransact, faults, commits)
    {
      result := inner.Apply(Bumped(batch), faults, commits);
      if result.None? || !Guarded(batch) || result.value.applied == 0 {
        return;
      }
      ghost var after := inner.session.rows;
      var field := batch.versionField.value;
      var failed := {};
      var j := 0;
      while j < |result.value.failures|
        invariant j <= |result.value.failures| && inner.session.rows == after
        invariant forall key :: key in failed <==> Names(result.value.failures[..j], key)
      {
        failed := failed + {result.value.failures[j].key};
        NamesOneMore(result.value.failures, j);
        j := j + 1;
      }
      assert result.value.failures[..j] == result.value.failures;
      var versions := [];
      for i := 0 to |batch.operations|
        invariant versions == ReportedVersions(batch, field, result.value.failures, i) && inner.session.rows == after
      {
        var op := batch.operations[i];
        if Bumps(op, field) && op.key !in failed {
          versions := versions + [Version(op.key, NextVersion(op, field))];
        }
      }
      if versions != [] {
        result := Some(result.value.(versions := Some(versions)));
      }
    }
  }

  lemma NamesOneMore(failures: seq<Failure>, j: nat)
    requires j < |failures|
    ensures forall key :: Names(failures[..j + 1], key) <==> Names(failures[..j], key) || key == failures[j].key
  {
    assert failures[..j + 1] == failures[..j] + [failures[j]];
    forall key ensures Names(failures[..j + 1], key) <==> Names(failures[..j], key) || key == failures[j].key {
      assert failures[j] in failures[..j + 1];
    }
  }

  lemma {:induction false} ReportedFrom(batch: Batch, field: string, failures: seq<Failure>, n: nat, v: Version)
    requires n <= |batch.operations|
    ensures v in ReportedVersions(batch, field, failures, n)
       <==> exists i :: 0 <= i < n && Bumps(batch.operations[i], field) && !Names(failures, batch.operations[i].key)
                        && v == Version(batch.operations[i].key, NextVersion(batch.operations[i], field))
  {
    if n > 0 {
      ReportedFrom(batch, field, failures, n - 1, v);
      var before := ReportedVersions(batch, field, failures, n - 1);
      assert v in ReportedVersions(batch, field, failures, n)
         <==> v in before || (Bumps(batch.operations[n - 1], field) && !Names(failures, batch.operations[n - 1].key)
                              && v == Version(batch.operations[n - 1].key, NextVersion(batch.operations[n - 1], field)));
    }
  }

  /** An upsert that applied with a version field left that version in its row. */
  lemma AppliedLeavesItsVersion(rows: Rows, batch: Batch, op: Operation, field: string)
    requires Bumps(op, field) && field != batch.idKey && Guarded(batch) && batch.versionField.value == field
    requires ApplyOne(rows, batch, BumpedOp(op, field), false).failure.None?
    ensures op.key in ApplyOne(rows, batch, BumpedOp(op, field), false).rows
    ensures Column(ApplyOne(rows, batch, BumpedOp(op, field), false).rows[op.key], field) == NextVersion(op, field)
    ensures op.key in rows ==> Column(rows[op.key], field) == op.version.value
  {
    var fields := FieldsOf(batch, BumpedOp(op, field));
    assert field in fields && fields[field] == NextVersion(op, field);
    assert fields != map[];
  }

  /**
   The versions reported are those in the rows: each was left by an applied operation one above the version it expected,
   and unless the batch rolled back, every bumped operation that did not fail is reported.
   */
  lemma ReportedVersionsAreHeld(rows: Rows, batch: Batch, canTransact: bool, faults: set<nat>, commits: bool)
    requires Guarded(batch) && DistinctKeys(batch) && batch.versionField.value != batch.idKey
    requires BumpedApply(rows, batch, canTransact, faults, commits).result.Some?
    ensures var o := BumpedApply(rows, batch, canTransact, faults, commits);
            o.result.value.versions.Some? ==> forall v :: v in o.result.value.versions.value ==>
              && v.key in o.rows && Column(o.rows[v.key], batch.versionField.value) == v.value
              && exists i :: 0 <= i < |batch.operations| && batch.operations[i].key == v.key && Bumps(batch.operations[i], batch.versionField.value)
                             && v.value == NextVersion(batch.operations[i], batch.versionField.value)
    ensures var o := BumpedApply(rows, batch, canTransact, faults, commits);
            o.result.value.applied > 0 ==>
            forall i :: 0 <= i < |batch.operations| && Bumps(batch.operations[i], batch.versionField.value)
                        && !Names(o.result.value.failures, batch.operations[i].key) ==>
              o.result.value.versions.Some?
              && Version(batch.operations[i].key, NextVersion(batch.operations[i], batch.versionField.value)) in o.result.value.versions.value
  {
    hide ApplyOne, After;
    var field := batch.versionField.value;
    var o := BumpedApply(rows, batch, canTransact, faults, commits);
    var failures := o.result.value.failures;
    forall i | o.result.value.applied > 0 && 0 <= i < |batch.operations| && Bumps(batch.operations[i], field)
               && !Names(failures, batch.operations[i].key)
      ensures o.result.value.versions.Some?
           && Version(batch.operations[i].key, NextVersion(batch.operations[i], field)) in o.result.value.versions.value
    {
      var v := Version(batch.operations[i].key, NextVersion(batch.operations[i], field));
      ReportedFrom(batch, field, failures, |batch.operations|, v);
    }
    if o.result.value.versions.Some? {
      forall v | v in o.result.value.versions.value
        ensures v.key in o.rows && Column(o.rows[v.key], field) == v.value
        ensures exists i :: 0 <= i < |batch.operations| && batch.operations[i].key == v.key && Bumps(batch.operations[i], field)
                            && v.value == NextVersion(batch.operations[i], field)
      {
        ReportedFrom(batch, field, failures, |batch.operations|, v);
        var i: nat :| i < |batch.operations| && Bumps(batch.operations[i], field) && !Names(failures, batch.operations[i].key)
                      && v == Version(batch.operations[i].key, NextVersion(batch.operations[i], field));
        UnfailedIsHeld(rows, batch, canTransact, faults, commits, i);
      }
    }
  }

  lemma UnfailedIsHeld(rows: Rows, batch: Batch, canTransact: bool, faults: set<nat>, commits: bool, i: nat)
    requires Guarded(batch) && DistinctKeys(batch) && batch.versionField.value != batch.idKey
    requires i < |batch.operations| && Bumps(batch.operations[i], batch.versionField.value)
    requires SqlApply(rows, Bumped(batch), canTransact, faults, commits).result.Some?
    requires SqlApply(rows, Bumped(batch), canTransact, faults, commits).result.value.applied > 0
    requires !Names(SqlApply(rows, Bumped(batch), canTransact, faults, commits).result.value.failures, batch.operations[i].key)
    ensures var after := SqlApply(rows, Bumped(batch), canTransact, faults, commits).rows; var op := batch.operations[i];
            op.key in after && Column(after[op.key], batch.versionField.value) == NextVersion(op, batch.versionField.value)
  {
    hide ApplyOne, After;
    var field := batch.versionField.value;
    var bumped, op := Bumped(batch), batch.operations[i];
    assert bumped.operations[i] == BumpedOp(op, field);
    assert forall j :: 0 <= j < |batch.operations| ==> bumped.operations[j].key == batch.operations[j].key;
    assert DistinctKeys(bumped);
    SequentialIsPerOperation(rows, bumped, faults, i, |batch.operations|);
    NoFailureNoFault(rows, bumped, bumped.operations[i], i in faults);
    AppliedLeavesItsVersion(rows, bumped, op, field);
  }

  lemma NoFailureNoFault(rows: Rows, batch: Batch, op: Operation, fault: bool)
    ensures ApplyOne(rows, batch, op, fault).failure.None? ==> !fault
  {
  }
}
