/**
 What a flush leaves in the sources.

 `FieldsMean`: an upsert carries a column exactly if an attribute maps to it, with the last such attribute's value, and never
 the id column. `PersistedEditIsHeld` follows an edit into the table behind its binding: if the source did not fail it, the
 row holds every mapped attribute as it was when the flush began, the version one higher where the adapter counts it up, and
 of a deleted instance there is no row. `SettledEditIsHeld` says so of every edit that a flush drops from the pending ones.
 */
module FlushedContents {
  import opened Wrappers
  import opened ConnectorWrites
  import opened WorkingCopies

  // ---- what an operation carries ------------------------------------------------------------------------------

  predicate MapsTo(binding: Binding, attrs: Named<Value>, i: nat, column: string) {
    i < |attrs| && ValueOf(binding.fieldMap, attrs[i].0) == Some(column)
  }

  /** The attribute at i is the last one mapped to the column. */
  ghost predicate LastTo(binding: Binding, attrs: Named<Value>, i: nat, column: string) {
    MapsTo(binding, attrs, i, column) && forall j :: i < j < |attrs| ==> !MapsTo(binding, attrs, j, column)
  }

  /** A column is sent exactly if an attribute maps to it and it is not the id column, with the last such attribute's value. */
  lemma {:induction false} FieldsMean(binding: Binding, attrs: Named<Value>, column: string)
    ensures column in FieldsFor(binding, attrs) <==> column != binding.idKey && exists i: nat :: MapsTo(binding, attrs, i, column)
    ensures forall i: nat :: LastTo(binding, attrs, i, column) && column != binding.idKey ==>
              column in FieldsFor(binding, attrs) && FieldsFor(binding, attrs)[column] == attrs[i].1
    decreases |attrs|
  {
    if attrs != [] {
      var n := |attrs| - 1;
      FieldsMean(binding, attrs[..n], column);
      assert forall i: nat :: i < n ==> (MapsTo(binding, attrs[..n], i, column) <==> MapsTo(binding, attrs, i, column));
      forall i: nat | LastTo(binding, attrs, i, column) && column != binding.idKey
        ensures column in FieldsFor(binding, attrs) && FieldsFor(binding, attrs)[column] == attrs[i].1
      {
        if i < n {
          assert !MapsTo(binding, attrs, n, column);
          assert LastTo(binding, attrs[..n], i, column);
        }
      }
      if MapsTo(binding, attrs, n, column) && column != binding.idKey {
        assert column in FieldsFor(binding, attrs);
      }
    }
  }

  // ---- what the table holds afterwards ------------------------------------------------------------------------

  function ColumnBefore(rows: Rows, key: string, column: string): Value {
    if key in rows then Column(rows[key], column) else Null
  }

  /** The version column of a guarded batch, where the operation's version is counted up. */
  predicate CountedUp(batch: Batch, op: Operation, column: string) {
    Guarded(batch) && batch.versionField == Some(column) && Bumps(op, column)
  }

  /**
   The row of a written instance: each mapped attribute in its column, the version counted up; a column nothing is mapped to
   is as it was.
   */
  ghost predicate RowHolds(rows: Rows, after: Rows, binding: Binding, batch: Batch, op: Operation, attrs: Named<Value>) {
    && op.key in after
    && (op.key !in rows ==> Column(after[op.key], binding.idKey) == Text(op.key))
    && (forall column :: column != binding.idKey && CountedUp(batch, op, column) ==> Column(after[op.key], column) == NextVersion(op, column))
    && (forall column, i: nat :: column != binding.idKey && !CountedUp(batch, op, column) && LastTo(binding, attrs, i, column) ==>
          Column(after[op.key], column) == attrs[i].1)
    && (forall column :: column != binding.idKey && !CountedUp(batch, op, column) && (forall i: nat :: !MapsTo(binding, attrs, i, column)) ==>
          Column(after[op.key], column) == ColumnBefore(rows, op.key, column))
  }

  /** The operation as the adapter sends it on. */
  function SentOn(batch: Batch, op: Operation): Operation {
    if Guarded(batch) then BumpedOp(op, batch.versionField.value) else op
  }

  lemma UpsertHolds(rows: Rows, binding: Binding, operations: seq<Operation>, attrs: Named<Value>, key: string, fault: bool)
    requires var batch := BatchFor(binding, operations); var op := OperationFor(binding, attrs, key, Upsert);
             ApplyOne(rows, Bumped(batch), SentOn(batch, op), fault).failure.None?
    ensures var batch := BatchFor(binding, operations); var op := OperationFor(binding, attrs, key, Upsert);
            RowHolds(rows, ApplyOne(rows, Bumped(batch), SentOn(batch, op), fault).rows, binding, batch, op, attrs)
  {
    hide FieldsFor, ValueOf, VersionOf;
    var batch, op := BatchFor(binding, operations), OperationFor(binding, attrs, key, Upsert);
    var on := SentOn(batch, op);
    var after := ApplyOne(rows, Bumped(batch), on, fault).rows;
    WholeRow(rows, Bumped(batch), on, fault);
    forall column | column != binding.idKey && CountedUp(batch, op, column)
      ensures Column(after[op.key], column) == NextVersion(op, column)
    {
      assert on.fields[column] == NextVersion(op, column);
    }
    forall column | column != binding.idKey && !CountedUp(batch, op, column)
      ensures column in on.fields <==> column in op.fields
      ensures column in op.fields ==> on.fields[column] == op.fields[column]
    {
    }
    forall column, i: nat | column != binding.idKey && !CountedUp(batch, op, column) && LastTo(binding, attrs, i, column)
      ensures Column(after[op.key], column) == attrs[i].1
    {
      FieldsMean(binding, attrs, column);
    }
    forall column | column != binding.idKey && !CountedUp(batch, op, column) && (forall i: nat :: !MapsTo(binding, attrs, i, column))
      ensures Column(after[op.key], column) == ColumnBefore(rows, op.key, column)
    {
      FieldsMean(binding, attrs, column);
    }
  }

  /** An applied upsert writes every field and leaves every other column. */
  lemma WholeRow(rows: Rows, batch: Batch, op: Operation, fault: bool)
    requires op.kind.Upsert? && ApplyOne(rows, batch, op, fault).failure.None?
    ensures var after := ApplyOne(rows, batch, op, fault).rows;
            && op.key in after
            && (op.key !in rows ==> Column(after[op.key], batch.idKey) == Text(op.key))
            && forall column :: column != batch.idKey ==>
                 Column(after[op.key], column) == if column in op.fields then op.fields[column] else ColumnBefore(rows, op.key, column)
  {
    var fields := FieldsOf(batch, op);
    forall column | column != batch.idKey ensures column in fields <==> column in op.fields {
    }
  }

  lemma DeleteHolds(rows: Rows, batch: Batch, op: Operation, fault: bool)
    requires op.kind.Delete? && ApplyOne(rows, batch, op, fault).failure.None?
    ensures op.key !in ApplyOne(rows, batch, op, fault).rows
  {
  }

  // ---- from the edit to the table -----------------------------------------------------------------------------

  /** A SQL source behind a binding: its table, and how it fares with this batch. */
  datatype Source = Source(rows: Rows, canTransact: bool, faults: set<nat>, commits: bool)

  function AfterBatch(source: Source, batch: Batch): Outcome {
    BumpedApply(source.rows, batch, source.canTransact, source.faults, source.commits)
  }

  predicate Answers(apply: Adapters, binding: Binding, operations: seq<Operation>, source: Source) {
    apply(binding, BatchFor(binding, operations)) == AfterBatch(source, BatchFor(binding, operations)).result
  }

  /** What an edit asks of a table. */
  ghost predicate EditHeld(source: Source, binding: Binding, operations: seq<Operation>, attrs: Named<Value>, key: string, kind: Kind) {
    var batch := BatchFor(binding, operations);
    var after := AfterBatch(source, batch).rows;
    if kind.Delete? then key !in after
    else RowHolds(source.rows, after, binding, batch, OperationFor(binding, attrs, key, Upsert), attrs)
  }

  lemma BumpedAt(batch: Batch, i: nat)
    requires i < |batch.operations|
    ensures |Bumped(batch).operations| == |batch.operations| && Bumped(batch).operations[i] == SentOn(batch, batch.operations[i])
    ensures SentOn(batch, batch.operations[i]).key == batch.operations[i].key && SentOn(batch, batch.operations[i]).kind == batch.operations[i].kind
  {
  }

  /** Unless it failed, an operation of a batch did to its row what it does alone, and without failing. */
  lemma PersistedIsAlone(binding: Binding, operations: seq<Operation>, source: Source, apply: Adapters, i: nat)
    requires i < |operations| && DistinctKeys(BatchFor(binding, operations)) && Answers(apply, binding, operations, source)
    requires !Failing(apply, binding, operations, operations[i].key)
    ensures var batch := BatchFor(binding, operations); var after := AfterBatch(source, batch).rows; var key := operations[i].key;
            var alone := ApplyOne(source.rows, Bumped(batch), SentOn(batch, operations[i]), i in source.faults);
            alone.failure.None? && (key in after <==> key in alone.rows) && (key in after ==> after[key] == alone.rows[key])
  {
    hide ApplyOne, Failing, Bumped, SentOn, After;
    var batch := BatchFor(binding, operations);
    StaysIffNotPersisted(source.rows, binding, operations, source.canTransact, source.faults, source.commits, apply, i);
    forall j | 0 <= j < |operations| ensures Bumped(batch).operations[j] == SentOn(batch, operations[j]) && SentOn(batch, operations[j]).key == operations[j].key {
      BumpedAt(batch, j);
    }
    BumpedSame(batch);
    SequentialIsPerOperation(source.rows, Bumped(batch), source.faults, i, |operations|);
  }

  lemma BumpedSame(batch: Batch)
    ensures Bumped(batch).atomicity == batch.atomicity && |Bumped(batch).operations| == |batch.operations|
  {
  }

  lemma RowHoldsSame(rows: Rows, after: Rows, other: Rows, binding: Binding, batch: Batch, op: Operation, attrs: Named<Value>)
    requires RowHolds(rows, after, binding, batch, op, attrs) && op.key in other && other[op.key] == after[op.key]
    ensures RowHolds(rows, other, binding, batch, op, attrs)
  {
    hide CountedUp, LastTo, MapsTo;
  }

  lemma PersistedIsHeld(binding: Binding, operations: seq<Operation>, source: Source, apply: Adapters, attrs: Named<Value>, key: string, kind: Kind)
    requires OperationFor(binding, attrs, key, kind) in operations
    requires DistinctKeys(BatchFor(binding, operations)) && Answers(apply, binding, operations, source)
    requires !Failing(apply, binding, operations, key)
    ensures EditHeld(source, binding, operations, attrs, key, kind)
  {
    hide ApplyOne, Failing, AfterBatch, Bumped, RowHolds, DistinctKeys;
    var batch, op := BatchFor(binding, operations), OperationFor(binding, attrs, key, kind);
    var i :| 0 <= i < |operations| && operations[i] == op;
    PersistedIsAlone(binding, operations, source, apply, i);
    BumpedAt(batch, i);
    var on, fault := SentOn(batch, op), i in source.faults;
    hide SentOn;
    if kind.Delete? {
      DeleteHolds(source.rows, Bumped(batch), on, fault);
    } else {
      UpsertHolds(source.rows, binding, operations, attrs, key, fault);
      RowIsThere(source.rows, ApplyOne(source.rows, Bumped(batch), on, fault).rows, binding, batch, op, attrs);
      RowHoldsSame(source.rows, ApplyOne(source.rows, Bumped(batch), on, fault).rows, AfterBatch(source, batch).rows, binding, batch, op, attrs);
    }
  }

  lemma RowIsThere(rows: Rows, after: Rows, binding: Binding, batch: Batch, op: Operation, attrs: Named<Value>)
    requires RowHolds(rows, after, binding, batch, op, attrs)
    ensures op.key in after
  {
  }

  /**
   An edit whose source did not fail it: the table behind the binding holds every mapped attribute of the instance as it was
   when the flush began, or no row of a deleted one.
   */
  lemma PersistedEditIsHeld(c: Copy, apply: Adapters, id: string, kind: Kind, t: Target, source: Source)
    requires (id, kind) in c.pending && t in TargetsOf(c.View(), id) && WritableTarget(c.View(), id, t)
    requires var binding := BindingFor(c.View(), id, t).value; var operations := OpsFor(SentBy(c), binding);
             && DistinctKeys(BatchFor(binding, operations)) && Answers(apply, binding, operations, source)
             && !Failing(apply, binding, operations, t.storageId)
    ensures var binding := BindingFor(c.View(), id, t).value;
            EditHeld(source, binding, OpsFor(SentBy(c), binding), AttrsOf(c.nodes, id), t.storageId, kind)
  {
    hide Failing, DistinctKeys, Answers, Sent, EditHeld, OperationFor;
    var binding := BindingFor(c.View(), id, t).value;
    var op := OperationFor(binding, AttrsOf(c.nodes, id), t.storageId, kind);
    WritableIsSent(c.View(), c.nodes, c.pending, id, kind, t);
    OpsAreSent(SentBy(c), binding, op);
    PersistedIsHeld(binding, OpsFor(SentBy(c), binding), source, apply, AttrsOf(c.nodes, id), t.storageId, kind);
  }

  /**
   An edit that a flush drops, of an instance that still has its targets: every one of its writable sources holds it, whatever
   was marked or refreshed while the flush waited.
   */
  lemma SettledEditIsHeld(c: Copy, apply: Adapters, meanwhile: Meanwhile, id: string, kind: Kind, t: Target, source: Source)
    requires LayoutOk(c.View()) && (id, kind) in c.pending && SameTargets(c.View(), AtEnd(c, apply, meanwhile).View(), id)
    requires Pending(AtEnd(c, apply, meanwhile).pending, id) && !Pending(Flushed(c, apply, meanwhile).pending, id)
    requires t in TargetsOf(c.View(), id) && WritableTarget(c.View(), id, t)
    requires var binding := BindingFor(c.View(), id, t).value; var operations := OpsFor(SentBy(c), binding);
             DistinctKeys(BatchFor(binding, operations)) && Answers(apply, binding, operations, source)
    ensures var binding := BindingFor(c.View(), id, t).value;
            EditHeld(source, binding, OpsFor(SentBy(c), binding), AttrsOf(c.nodes, id), t.storageId, kind)
  {
    hide Failing, DistinctKeys, Answers, Sent, EditHeld, OpsFor, Flushed, LayoutOk;
    var d, binding := AtEnd(c, apply, meanwhile), BindingFor(c.View(), id, t).value;
    MarkSurvivesIff(c, apply, meanwhile, id);
    AwaitedKeepsBindings(c, apply, Grouped(SentBy(c)), meanwhile, |Grouped(SentBy(c))|);
    hide AtEnd;
    assert BindingFor(d.View(), id, t) == Some(binding);
    assert WasSent(SentBy(c), binding, t.storageId) by {
      WritableIsSent(c.View(), c.nodes, c.pending, id, kind, t);
    }
    assert !SentAndFailed(d.View(), apply, SentBy(c), id, t);
    PersistedEditIsHeld(c, apply, id, kind, t, source);
  }
}
