/**
 Edits to populated instances, kept until every source they were drawn from has them.

 A flush sends one batch a binding and keeps exactly the edits some source does not hold: `EditStaysIff` says which, and
 `StaysIffNotPersisted` ties that to the tables of the sources. A failure in one binding concerns no other binding's edits
 (`OnlyOwnBindingsMatter`). While the flush waits, edits are marked and the copy is pointed at refreshed documents: a mark survives
 exactly if one of the targets its instance has by the end was sent in this flush and failed (`MarkSurvivesIff`).
 */
module WorkingCopies {
  import opened Wrappers
  import opened Seqs
  import opened ConnectorWrites

  // ---- instances and bindings ---------------------------------------------------------------------------------

  /** Attributes, or a map of members to columns, in the order they were set. */
  type Named<T> = seq<(string, T)>

  function ValueOf<T>(named: Named<T>, name: string): Option<T> {
    if named == [] then None else if named[0].0 == name then Some(named[0].1) else ValueOf(named[1..], name)
  }

  function WithValue<T>(named: Named<T>, name: string, value: T): Named<T> {
    if named == [] then [(name, value)]
    else if named[0].0 == name then [(name, value)] + named[1..]
    else [named[0]] + WithValue(named[1..], name, value)
  }

  datatype Node = Node(concept: Option<string>, attrs: Named<Value>)
  datatype Target = Target(storageId: string, connector: string, source: string)
  datatype BindingKey = BindingKey(concept: string, connector: string, source: string)
  datatype Binding = Binding(key: BindingKey, idKey: string, fieldMap: Named<string>, writable: bool, versionField: Option<string>,
                             concurrency: Option<Concurrency>, atomicity: Option<Atomicity>)

  /** What decides where an edit goes: the bindings, the concepts of the instances and their write targets. */
  datatype Layout = Layout(byKey: map<BindingKey, Binding>, concepts: map<string, string>, targets: map<string, seq<Target>>)

  type Edit = (string, Kind)

  predicate LayoutOk(l: Layout) {
    forall k :: k in l.byKey ==> l.byKey[k].key == k
  }

  function TargetsOf(l: Layout, id: string): seq<Target> {
    if id in l.targets then l.targets[id] else []
  }

  function KeyOf(l: Layout, id: string, target: Target): Option<BindingKey> {
    if id in l.concepts then Some(BindingKey(l.concepts[id], target.connector, target.source)) else None
  }

  function BindingFor(l: Layout, id: string, target: Target): Option<Binding> {
    match KeyOf(l, id, target)
    case None => None
    case Some(k) => if k in l.byKey then Some(l.byKey[k]) else None
  }

  predicate WritableTarget(l: Layout, id: string, target: Target) {
    BindingFor(l, id, target).Some? && BindingFor(l, id, target).value.writable
  }

  // ---- marking ------------------------------------------------------------------------------------------------

  /** Marks an edit, replacing the kind of one already pending; an edit with only read-only targets is refused. */
  function Recorded(l: Layout, pending: seq<Edit>, id: string, kind: Kind): seq<Edit> {
    var targets := TargetsOf(l, id);
    if |targets| > 0 && !(exists t :: t in targets && WritableTarget(l, id, t)) then pending else WithValue(pending, id, kind)
  }

  predicate Pending(pending: seq<Edit>, id: string) {
    ValueOf(pending, id).Some?
  }

  // ---- operations ---------------------------------------------------------------------------------------------

  /** The first member mapped to the version column. */
  function VersionMember(fieldMap: Named<string>, column: string): Option<string> {
    if fieldMap == [] then None else if fieldMap[0].1 == column then Some(fieldMap[0].0) else VersionMember(fieldMap[1..], column)
  }

  function VersionOf(binding: Binding, attrs: Named<Value>): Option<Value> {
    if binding.versionField.None? then None
    else
      match VersionMember(binding.fieldMap, binding.versionField.value)
      case None => None
      case Some(member) => ValueOf(attrs, member)
  }

  /** Mapped attributes under their columns, but the id column; of two for one column the later wins. */
  function FieldsFor(binding: Binding, attrs: Named<Value>): Row {
    if attrs == [] then map[]
    else
      var last := attrs[|attrs| - 1];
      var before := FieldsFor(binding, attrs[..|attrs| - 1]);
      match ValueOf(binding.fieldMap, last.0)
      case None => before
      case Some(column) => if column == binding.idKey then before else before[column := last.1]
  }

  function OperationFor(binding: Binding, attrs: Named<Value>, storageId: string, kind: Kind): Operation {
    Operation(kind, storageId, if kind.Upsert? then FieldsFor(binding, attrs) else map[], VersionOf(binding, attrs))
  }

  datatype Send = Send(binding: Binding, operation: Operation)

  function AttrsOf(nodes: map<string, Node>, id: string): Named<Value> {
    if id in nodes then nodes[id].attrs else []
  }

  /** The operations of an edit for the first n of its targets. */
  function SentFor(l: Layout, nodes: map<string, Node>, edit: Edit, n: nat): seq<Send>
    requires n <= |TargetsOf(l, edit.0)|
  {
    if n == 0 then []
    else
      var target := TargetsOf(l, edit.0)[n - 1];
      var before := SentFor(l, nodes, edit, n - 1);
      if !WritableTarget(l, edit.0, target) then before
      else
        var binding := BindingFor(l, edit.0, target).value;
        before + [Send(binding, OperationFor(binding, AttrsOf(nodes, edit.0), target.storageId, edit.1))]
  }

  /** Everything the first n edits send, in order. */
  function Sent(l: Layout, nodes: map<string, Node>, pending: seq<Edit>, n: nat): seq<Send>
    requires n <= |pending|
  {
    if n == 0 then [] else Sent(l, nodes, pending, n - 1) + SentFor(l, nodes, pending[n - 1], |TargetsOf(l, pending[n - 1].0)|)
  }

  function OpsFor(sent: seq<Send>, binding: Binding): seq<Operation> {
    if sent == [] then []
    else
      var last := sent[|sent| - 1];
      OpsFor(sent[..|sent| - 1], binding) + if last.binding == binding then [last.operation] else []
  }

  datatype Group = Group(binding: Binding, operations: seq<Operation>)

  /** Adds an operation to its binding's batch, or opens one. */
  function AddTo(groups: seq<Group>, send: Send): seq<Group> {
    if groups == [] then [Group(send.binding, [send.operation])]
    else if groups[0].binding == send.binding then [groups[0].(operations := groups[0].operations + [send.operation])] + groups[1..]
    else [groups[0]] + AddTo(groups[1..], send)
  }

  function Grouped(sent: seq<Send>): seq<Group> {
    if sent == [] then [] else AddTo(Grouped(sent[..|sent| - 1]), sent[|sent| - 1])
  }

  // ---- sending ------------------------------------------------------------------------------------------------

  /** What an adapter answers to a batch; None when opening it or applying the batch throws. */
  type Adapters = (Binding, Batch) -> Option<WriteResult>

  function BatchFor(binding: Binding, operations: seq<Operation>): Batch {
    Batch(binding.key.source, binding.idKey, operations,
          if binding.concurrency.Some? then binding.concurrency.value else LastWriteWins,
          if binding.atomicity.Some? then binding.atomicity.value else Sequential,
          binding.versionField)
  }

  function AllFailed(operations: seq<Operation>): seq<Failure> {
    seq(|operations|, i requires 0 <= i < |operations| => Failure(operations[i].key, Fault))
  }

  /** A thrown error is a failure of every operation. */
  function ResultOf(apply: Adapters, binding: Binding, operations: seq<Operation>): WriteResult {
    match apply(binding, BatchFor(binding, operations))
    case Some(result) => result
    case None => WriteResult(0, AllFailed(operations), None)
  }

  /** A transactional batch that applied nothing. */
  predicate RolledBack(binding: Binding, result: WriteResult, operations: seq<Operation>) {
    BatchFor(binding, operations).atomicity.Transactional? && result.applied == 0 && |operations| > 0
  }

  /** The source of a binding does not hold what was sent to it for a key. */
  predicate Failing(apply: Adapters, binding: Binding, operations: seq<Operation>, key: string) {
    var result := ResultOf(apply, binding, operations);
    RolledBack(binding, result, operations) || Names(result.failures, key)
  }

  /** Some operation sent under a binding's key for a storage id did not persist. */
  ghost predicate Retained(apply: Adapters, sent: seq<Send>, key: BindingKey, storageId: string) {
    exists send :: send in sent && send.binding.key == key && send.operation.key == storageId
                   && Failing(apply, send.binding, OpsFor(sent, send.binding), storageId)
  }

  ghost predicate Stays(l: Layout, apply: Adapters, sent: seq<Send>, id: string) {
    id in l.concepts && exists t :: t in TargetsOf(l, id) && Retained(apply, sent, KeyOf(l, id, t).value, t.storageId)
  }

  ghost function Kept(l: Layout, apply: Adapters, sent: seq<Send>, pending: seq<Edit>): seq<Edit> {
    Filter(pending, (edit: Edit) => Stays(l, apply, sent, edit.0))
  }

  // ---- versions coming back -----------------------------------------------------------------------------------

  /** The last version reported for a key. */
  function Reported(versions: seq<Version>, key: string): Option<Value> {
    if versions == [] then None
    else if versions[|versions| - 1].key == key then Some(versions[|versions| - 1].value)
    else Reported(versions[..|versions| - 1], key)
  }

  /** The version an instance adopts: it must have one write target only, of this binding, with a version reported. */
  function AdoptedVersion(l: Layout, binding: Binding, versions: seq<Version>, id: string): Option<Value> {
    var targets := TargetsOf(l, id);
    if id !in l.concepts || l.concepts[id] != binding.key.concept || |targets| != 1 then None
    else if targets[0].connector != binding.key.connector || targets[0].source != binding.key.source then None
    else
      match Reported(versions, targets[0].storageId)
      case Some(v) => if v == Null then None else Some(v)
      case None => None
  }

  function AdoptedNode(l: Layout, binding: Binding, member: string, versions: seq<Version>, id: string, node: Node): Node {
    match AdoptedVersion(l, binding, versions, id)
    case None => node
    case Some(v) => node.(attrs := WithValue(node.attrs, member, v))
  }

  function Adopted(l: Layout, binding: Binding, result: WriteResult, nodes: map<string, Node>): map<string, Node> {
    if result.versions.None? || binding.versionField.None? || VersionMember(binding.fieldMap, binding.versionField.value).None? then nodes
    else
      var member := VersionMember(binding.fieldMap, binding.versionField.value).value;
      map id | id in nodes :: AdoptedNode(l, binding, member, result.versions.value, id, nodes[id])
  }

  // ---- a flush, and what happens while it waits ---------------------------------------------------------------

  datatype Copy = Copy(bindings: map<BindingKey, Binding>, nodes: map<string, Node>, targets: map<string, seq<Target>>, pending: seq<Edit>) {
    function View(): Layout {
      Layout(bindings, map id | id in nodes && nodes[id].concept.Some? :: nodes[id].concept.value, targets)
    }
  }

  /** An edit is marked, or the copy is pointed at a refreshed document. */
  datatype Change = Marked(id: string, kind: Kind) | Rebound(document: map<string, Node>, targets: map<string, seq<Target>>)

  function InDocument(document: map<string, Node>): Edit -> bool {
    (edit: Edit) => edit.0 in document
  }

  function Changed(c: Copy, change: Change): Copy {
    match change
    case Marked(id, kind) => c.(pending := Recorded(c.View(), c.pending, id, kind))
    case Rebound(document, targets) => c.(nodes := document, targets := targets, pending := Filter(c.pending, InDocument(document)))
  }

  function ChangedAll(c: Copy, changes: seq<Change>): Copy
    decreases |changes|
  {
    if changes == [] then c else ChangedAll(Changed(c, changes[0]), changes[1..])
  }

  /** What happens while the i-th batch is awaited. */
  type Meanwhile = nat -> seq<Change>

  /** After one batch was awaited: the versions it reports are adopted by the copy as it is by then. */
  function Answered(c: Copy, apply: Adapters, g: Group, changes: seq<Change>): Copy {
    var d := ChangedAll(c, changes);
    d.(nodes := Adopted(d.View(), g.binding, ResultOf(apply, g.binding, g.operations), d.nodes))
  }

  /** After n batches were awaited. */
  function Awaited(c: Copy, apply: Adapters, groups: seq<Group>, meanwhile: Meanwhile, n: nat): Copy
    requires n <= |groups|
  {
    if n == 0 then c else Answered(Awaited(c, apply, groups, meanwhile, n - 1), apply, groups[n - 1], meanwhile(n - 1))
  }

  function SentBy(c: Copy): seq<Send> {
    Sent(c.View(), c.nodes, c.pending, |c.pending|)
  }

  /** The copy when every batch of a flush has been answered. */
  function AtEnd(c: Copy, apply: Adapters, meanwhile: Meanwhile): Copy {
    Awaited(c, apply, Grouped(SentBy(c)), meanwhile, |Grouped(SentBy(c))|)
  }

  /** A flush: what is sent is fixed when it begins, what stays pending is judged by the copy as it is when it ends. */
  ghost function Flushed(c: Copy, apply: Adapters, meanwhile: Meanwhile): Copy {
    var d := AtEnd(c, apply, meanwhile);
    d.(pending := Kept(d.View(), apply, SentBy(c), d.pending))
  }

  // ---- the working copy ---------------------------------------------------------------------------------------

  class ConnectorWorkingCopy {
    var bindingsByKey: map<BindingKey, Binding>
    var nodes: map<string, Node>
    var pending: seq<Edit>
    var writeTargets: map<string, seq<Target>>

    ghost function Contents(): Copy
      reads this
    {
      Copy(bindingsByKey, nodes, writeTargets, pending)
    }

    ghost function View(): Layout
      reads this
    {
      Contents().View()
    }

    constructor (bindings: seq<Binding>, document: map<string, Node>, targets: map<string, seq<Target>>)
      ensures nodes == document && writeTargets == targets && pending == [] && LayoutOk(View())
      ensures forall k :: k in bindingsByKey <==> exists b :: b in bindings && b.key == k
    {
      nodes, writeTargets, pending := document, targets, [];
      bindingsByKey := map[];
      new;
      for i := 0 to |bindings|
        invariant nodes == document && writeTargets == targets && pending == [] && LayoutOk(View())
        invariant forall k :: k in bindingsByKey <==> exists b :: b in bindings[..i] && b.key == k
      {
        assert bindings[..i + 1] == bindings[..i] + [bindings[i]];
        assert bindings[i] in bindings[..i + 1];
        bindingsByKey := bindingsByKey[bindings[i].key := bindings[i]];
      }
      assert bindings[..|bindings|] == bindings;
    }

    method Resolve(id: string, target: Target) returns (binding: Option<Binding>)
      ensures binding == BindingFor(View(), id, target)
    {
      if id !in nodes || nodes[id].concept.None? {
        return None;
      }
      var key := BindingKey(nodes[id].concept.value, target.connector, target.source);
      binding := if key in bindingsByKey then Some(bindingsByKey[key]) else None;
    }

    /** False when every target is read-only; the edit is then not recorded. */
    method Record(id: string, kind: Kind) returns (recorded: bool)
      modifies `pending
      ensures pending == Recorded(View(), old(pending), id, kind)
      ensures !recorded ==> pending == old(pending)
    {
      var targets := if id in writeTargets then writeTargets[id] else [];
      var anyWritable := false;
      for i := 0 to |targets|
        invariant anyWritable <==> exists t :: t in targets[..i] && WritableTarget(View(), id, t)
        invariant pending == old(pending)
      {
        assert targets[..i + 1] == targets[..i] + [targets[i]];
        var binding := Resolve(id, targets[i]);
        if binding.Some? && binding.value.writable {
          assert targets[i] in targets[..i + 1];
          anyWritable := true;
        }
      }
      assert targets[..|targets|] == targets;
      if |targets| > 0 && !anyWritable {
        return false;
      }
      pending := WithValue(pending, id, kind);
      return true;
    }

    /** Points the copy at a refreshed document; edits of vanished instances are dropped and returned. */
    method Rebind(document: map<string, Node>, targets: map<string, seq<Target>>) returns (dropped: seq<string>)
      modifies `nodes, `pending, `writeTargets
      ensures nodes == document && writeTargets == targets
      ensures pending == Filter(old(pending), InDocument(document))
      ensures forall id :: id in dropped <==> exists edit :: edit in old(pending) && edit.0 == id && id !in document
    {
      writeTargets, nodes := targets, document;
      dropped := [];
      var kept: seq<Edit> := [];
      for i := 0 to |pending|
        invariant pending == old(pending) && nodes == document && writeTargets == targets
        invariant kept == Filter(pending[..i], InDocument(document))
        invariant forall id :: id in dropped <==> exists edit :: edit in pending[..i] && edit.0 == id && id !in document
      {
        assert pending[..i + 1] == pending[..i] + [pending[i]];
        assert pending[i] in pending[..i + 1];
        FilterConcat(pending[..i], [pending[i]], InDocument(document));
        assert [pending[i]][1..] == [];
        if pending[i].0 in document {
          kept := kept + [pending[i]];
        } else {
          dropped := dropped + [pending[i].0];
        }
      }
      assert pending[..|pending|] == pending;
      pending := kept;
    }

    /** Copies reported versions onto the instances they belong to. */
    method AdoptVersions(binding: Binding, result: WriteResult)
      modifies `nodes
      ensures nodes == Adopted(old(View()), binding, result, old(nodes)) && View() == old(View())
    {
      if result.versions.None? || binding.versionField.None? {
        return;
      }
      var member := VersionMember(binding.fieldMap, binding.versionField.value);
      if member.None? {
        return;
      }
      hide AdoptedNode, View;
      ghost var l, were := View(), nodes;
      var versions := result.versions.value;
      var left := writeTargets.Keys;
      while left != {}
        invariant left <= writeTargets.Keys && nodes.Keys == were.Keys && View() == l && writeTargets == old(writeTargets)
        invariant forall id :: id in nodes ==>
          nodes[id] == if id in writeTargets && id !in left then AdoptedNode(l, binding, member.value, versions, id, were[id]) else were[id]
        decreases |left|
      {
        var id :| id in left;
        left := left - {id};
        AdoptOne(binding, member.value, versions, id);
      }
      forall id | id in nodes && id !in writeTargets ensures AdoptedNode(l, binding, member.value, versions, id, were[id]) == were[id] {
        NoTargetsNoVersion(this, binding, member.value, versions, id, were[id]);
      }
    }

    method AdoptOne(binding: Binding, member: string, versions: seq<Version>, id: string)
      requires id in writeTargets
      modifies `nodes
      ensures View() == old(View()) && nodes.Keys == old(nodes).Keys
      ensures forall other :: other in nodes ==>
        nodes[other] == if other == id then AdoptedNode(old(View()), binding, member, versions, id, old(nodes)[id]) else old(nodes)[other]
    {
      if id in nodes && nodes[id].concept == Some(binding.key.concept) && |writeTargets[id]| == 1 {
        var target := writeTargets[id][0];
        if target.connector == binding.key.connector && target.source == binding.key.source {
          var version := Reported(versions, target.storageId);
          if version.Some? && version.value != Null {
            nodes := nodes[id := nodes[id].(attrs := WithValue(nodes[id].attrs, member, version.value))];
          }
        }
      }
    }

    /** The batches of the pending edits. */
    method Collect() returns (groups: seq<Group>)
      ensures groups == Grouped(Sent(View(), nodes, pending, |pending|))
    {
      groups := [];
      for i := 0 to |pending|
        invariant groups == Grouped(Sent(View(), nodes, pending, i))
      {
        var id, kind := pending[i].0, pending[i].1;
        var targets := if id in writeTargets then writeTargets[id] else [];
        ghost var before := Sent(View(), nodes, pending, i);
        assert before + [] == before;
        for j := 0 to |targets|
          invariant groups == Grouped(before + SentFor(View(), nodes, pending[i], j))
        {
          var binding := Resolve(id, targets[j]);
          if binding.Some? && binding.value.writable {
            var send := Send(binding.value, OperationFor(binding.value, nodes[id].attrs, targets[j].storageId, kind));
            GroupedOneMore(before, SentFor(View(), nodes, pending[i], j), send);
            groups := AddTo(groups, send);
          }
        }
      }
    }

    /** Sends every batch, each on its own; edits are marked and documents refreshed while the adapters are awaited. */
    method Flush(apply: Adapters, meanwhile: Meanwhile) returns (results: seq<WriteResult>)
      requires LayoutOk(View())
      modifies `nodes, `pending, `writeTargets
      ensures Contents() == Flushed(old(Contents()), apply, meanwhile)
      ensures var groups := Grouped(SentBy(old(Contents())));
        |results| == |groups| && forall i :: 0 <= i < |results| ==> results[i] == ResultOf(apply, groups[i].binding, groups[i].operations)
    {
      hide Sent, OpsFor, Grouped, Awaited, RetainedBy, Failing, Kept, ResultOf;
      ghost var sent := SentBy(Contents());
      var groups := Collect();
      var retained;
      results, retained := SendAll(apply, groups, meanwhile);
      Settle(apply, sent, groups, retained);
    }

    method SendAll(apply: Adapters, groups: seq<Group>, meanwhile: Meanwhile)
      returns (results: seq<WriteResult>, retained: set<(BindingKey, string)>)
      modifies `nodes, `pending, `writeTargets
      ensures Contents() == Awaited(old(Contents()), apply, groups, meanwhile, |groups|) && |results| == |groups|
      ensures forall i :: 0 <= i < |groups| ==> results[i] == ResultOf(apply, groups[i].binding, groups[i].operations)
      ensures Keeps(apply, groups, retained)
    {
      results, retained := [], {};
      assert Keeps(apply, groups[..0], retained);
      hide ResultOf, Failing, Answered, RetainedBy, RetainedIn, Keeps, Contents;
      for i := 0 to |groups|
        invariant |results| == i && Contents() == Awaited(old(Contents()), apply, groups, meanwhile, i)
        invariant forall j :: 0 <= j < i ==> results[j] == ResultOf(apply, groups[j].binding, groups[j].operations)
        invariant Keeps(apply, groups[..i], retained)
      {
        var g := groups[i];
        var result := SendOne(apply, g, meanwhile(i));
        results := results + [result];
        var failing := FailingKeys(apply, g, result);
        KeepsMore(apply, groups, i, retained, failing);
        retained := retained + set key | key in failing :: (g.binding.key, key);
      }
      assert groups[..|groups|] == groups;
    }

    method SendOne(apply: Adapters, g: Group, changes: seq<Change>) returns (result: WriteResult)
      modifies `nodes, `pending, `writeTargets
      ensures result == ResultOf(apply, g.binding, g.operations) && Contents() == Answered(old(Contents()), apply, g, changes)
    {
      hide ResultOf, Adopted, ChangedAll;
      result := ResultOf(apply, g.binding, g.operations);
      Await(changes);
      AdoptVersions(g.binding, result);
    }

    /** What others do to the copy while a batch is awaited. */
    method Await(changes: seq<Change>)
      modifies `nodes, `pending, `writeTargets
      ensures Contents() == ChangedAll(old(Contents()), changes)
    {
      for i := 0 to |changes|
        invariant ChangedAll(Contents(), changes[i..]) == ChangedAll(old(Contents()), changes)
      {
        assert changes[i..][0] == changes[i] && changes[i..][1..] == changes[i + 1..];
        match changes[i] {
          case Marked(id, kind) => var _ := Record(id, kind);
          case Rebound(document, targets) => var _ := Rebind(document, targets);
        }
      }
      assert changes[|changes|..] == [];
    }

    /** The keys of a batch that must stay: all of a rolled back one, else those its failures name. */
    method FailingKeys(apply: Adapters, g: Group, result: WriteResult) returns (keys: set<string>)
      requires result == ResultOf(apply, g.binding, g.operations)
      ensures forall key :: key in keys <==> RetainedIn(apply, g, g.binding.key, key)
    {
      var binding, operations := g.binding, g.operations;
      var rolledBack := BatchFor(binding, operations).atomicity.Transactional? && result.applied == 0 && |operations| > 0;
      var failed := set f | f in result.failures :: f.key;
      keys := {};
      for i := 0 to |operations|
        invariant forall key :: key in keys <==> (exists op :: op in operations[..i] && op.key == key) && Failing(apply, binding, operations, key)
      {
        assert operations[..i + 1] == operations[..i] + [operations[i]];
        assert operations[i] in operations[..i + 1];
        if rolledBack || operations[i].key in failed {
          keys := keys + {operations[i].key};
        }
      }
      assert operations[..|operations|] == operations;
    }

    /** Drops every edit no retained target asks to keep. */
    method Settle(apply: Adapters, ghost sent: seq<Send>, ghost groups: seq<Group>, retained: set<(BindingKey, string)>)
      requires groups == Grouped(sent)
      requires Keeps(apply, groups, retained)
      modifies `pending
      ensures pending == Kept(View(), apply, sent, old(pending))
    {
      forall k, key ensures (k, key) in retained <==> Retained(apply, sent, k, key) {
        RetainedByGroups(apply, sent, k, key);
      }
      ghost var l := View();
      var kept: seq<Edit> := [];
      for i := 0 to |pending|
        invariant pending == old(pending) && View() == l && kept == Kept(l, apply, sent, pending[..i])
      {
        assert pending[..i + 1] == pending[..i] + [pending[i]];
        FilterConcat(pending[..i], [pending[i]], (edit: Edit) => Stays(l, apply, sent, edit.0));
        assert [pending[i]][1..] == [];
        var keep := Wanted(apply, sent, retained, pending[i].0);
        if keep {
          kept := kept + [pending[i]];
        }
      }
      assert pending[..|pending|] == pending;
      pending := kept;
    }

    method Wanted(apply: Adapters, ghost sent: seq<Send>, retained: set<(BindingKey, string)>, id: string) returns (keep: bool)
      requires forall k, key :: (k, key) in retained <==> Retained(apply, sent, k, key)
      ensures keep == Stays(View(), apply, sent, id)
    {
      if id !in nodes || nodes[id].concept.None? {
        return false;
      }
      var targets := if id in writeTargets then writeTargets[id] else [];
      keep := false;
      for i := 0 to |targets|
        invariant keep <==> exists t :: t in targets[..i] && Retained(apply, sent, KeyOf(View(), id, t).value, t.storageId)
      {
        assert targets[..i + 1] == targets[..i] + [targets[i]];
        assert targets[i] in targets[..i + 1];
        if (BindingKey(nodes[id].concept.value, targets[i].connector, targets[i].source), targets[i].storageId) in retained {
          keep := true;
        }
      }
      assert targets[..|targets|] == targets;
    }
  }

  lemma NoTargetsNoVersion(copy: ConnectorWorkingCopy, binding: Binding, member: string, versions: seq<Version>, id: string, node: Node)
    requires id !in copy.writeTargets
    ensures AdoptedNode(copy.View(), binding, member, versions, id, node) == node
  {
  }

  // ---- batches ------------------------------------------------------------------------------------------------

  lemma GroupedOneMore(before: seq<Send>, sent: seq<Send>, send: Send)
    ensures Grouped(before + (sent + [send])) == AddTo(Grouped(before + sent), send)
  {
    var all := before + (sent + [send]);
    assert all[..|all| - 1] == before + sent && all[|all| - 1] == send;
  }

  predicate DistinctGroups(groups: seq<Group>) {
    forall i, j :: 0 <= i < j < |groups| ==> groups[i].binding != groups[j].binding
  }

  /** The operations of a binding's batch. */
  function BatchOf(groups: seq<Group>, binding: Binding): seq<Operation> {
    if groups == [] then [] else if groups[0].binding == binding then groups[0].operations else BatchOf(groups[1..], binding)
  }

  lemma {:induction false} AddToBatch(groups: seq<Group>, send: Send, binding: Binding)
    ensures BatchOf(AddTo(groups, send), binding) == BatchOf(groups, binding) + if send.binding == binding then [send.operation] else []
  {
    if groups != [] {
      if groups[0].binding == send.binding {
        assert AddTo(groups, send)[1..] == groups[1..];
      } else {
        AddToBatch(groups[1..], send, binding);
        assert AddTo(groups, send)[1..] == AddTo(groups[1..], send);
      }
    }
  }

  lemma {:induction false} AddToBindings(groups: seq<Group>, send: Send)
    requires DistinctGroups(groups)
    ensures DistinctGroups(AddTo(groups, send))
    ensures forall g :: g in AddTo(groups, send) ==> g.binding == send.binding || exists h :: h in groups && h.binding == g.binding
    ensures forall g :: g in AddTo(groups, send) && (forall h :: h in groups ==> |h.operations| > 0) ==> |g.operations| > 0
    ensures exists g :: g in AddTo(groups, send) && g.binding == send.binding
  {
    if groups != [] {
      var first, rest := groups[0], groups[1..];
      if first.binding == send.binding {
        assert AddTo(groups, send)[0].binding == send.binding;
      } else {
        assert forall h :: h in rest ==> h in groups;
        AddToBindings(rest, send);
        var more := AddTo(rest, send);
        assert AddTo(groups, send) == [first] + more;
        assert first in groups;
        forall g | g in more ensures g.binding != first.binding {
          if g.binding != send.binding {
            var h :| h in rest && h.binding == g.binding;
            var i :| 0 <= i < |rest| && rest[i] == h;
            assert groups[i + 1] == h;
          }
        }
        var g :| g in more && g.binding == send.binding;
        assert g in AddTo(groups, send);
      }
    }
  }

  /** Each binding has one batch, holding its operations in the order they were sent. */
  lemma {:induction false} GroupsHoldWhatWasSent(sent: seq<Send>)
    ensures DistinctGroups(Grouped(sent))
    ensures forall b :: BatchOf(Grouped(sent), b) == OpsFor(sent, b)
    ensures forall g :: g in Grouped(sent) ==> |g.operations| > 0
    decreases |sent|
  {
    if sent != [] {
      var before, last := sent[..|sent| - 1], sent[|sent| - 1];
      GroupsHoldWhatWasSent(before);
      AddToBindings(Grouped(before), last);
      forall b ensures BatchOf(Grouped(sent), b) == OpsFor(sent, b) {
        AddToBatch(Grouped(before), last, b);
      }
    }
  }

  lemma {:induction false} GroupIsItsBatch(groups: seq<Group>, g: Group)
    requires DistinctGroups(groups) && g in groups
    ensures BatchOf(groups, g.binding) == g.operations
  {
    if groups[0] != g {
      assert g in groups[1..];
      var i :| 0 <= i < |groups[1..]| && groups[1..][i] == g;
      assert groups[0].binding != groups[i + 1].binding;
      GroupIsItsBatch(groups[1..], g);
    }
  }

  lemma {:induction false} NonEmptyBatch(groups: seq<Group>, binding: Binding)
    requires BatchOf(groups, binding) != []
    ensures Group(binding, BatchOf(groups, binding)) in groups
  {
    if groups[0].binding == binding {
      assert groups[0] == Group(binding, BatchOf(groups, binding));
    } else {
      NonEmptyBatch(groups[1..], binding);
      assert forall g :: g in groups[1..] ==> g in groups;
    }
  }

  lemma {:induction false} OpsAreSent(sent: seq<Send>, binding: Binding, op: Operation)
    ensures op in OpsFor(sent, binding) <==> Send(binding, op) in sent
  {
    if sent != [] {
      var before, last := sent[..|sent| - 1], sent[|sent| - 1];
      OpsAreSent(before, binding, op);
      assert sent == before + [last];
    }
  }

  predicate RetainedIn(apply: Adapters, g: Group, key: BindingKey, storageId: string) {
    g.binding.key == key && (exists op :: op in g.operations && op.key == storageId) && Failing(apply, g.binding, g.operations, storageId)
  }

  ghost predicate RetainedBy(apply: Adapters, groups: seq<Group>, key: BindingKey, storageId: string) {
    exists g :: g in groups && RetainedIn(apply, g, key, storageId)
  }

  /** The targets whose edits must stay. */
  ghost predicate Keeps(apply: Adapters, groups: seq<Group>, retained: set<(BindingKey, string)>) {
    forall k, key :: (k, key) in retained <==> RetainedBy(apply, groups, k, key)
  }

  lemma KeepsMore(apply: Adapters, groups: seq<Group>, i: nat, retained: set<(BindingKey, string)>, failing: set<string>)
    requires i < |groups| && Keeps(apply, groups[..i], retained)
    requires forall key :: key in failing <==> RetainedIn(apply, groups[i], groups[i].binding.key, key)
    ensures Keeps(apply, groups[..i + 1], retained + set key | key in failing :: (groups[i].binding.key, key))
  {
    hide RetainedBy, Failing;
    forall k, key ensures RetainedBy(apply, groups[..i + 1], k, key) <==> RetainedBy(apply, groups[..i], k, key) || RetainedIn(apply, groups[i], k, key) {
      RetainedOneMore(apply, groups, i, k, key);
    }
  }

  lemma RetainedOneMore(apply: Adapters, groups: seq<Group>, i: nat, key: BindingKey, storageId: string)
    requires i < |groups|
    ensures RetainedBy(apply, groups[..i + 1], key, storageId)
       <==> RetainedBy(apply, groups[..i], key, storageId) || RetainedIn(apply, groups[i], key, storageId)
  {
    hide RetainedIn;
    assert groups[..i + 1] == groups[..i] + [groups[i]] && groups[i] in groups[..i + 1];
  }

  lemma RetainedByGroups(apply: Adapters, sent: seq<Send>, key: BindingKey, storageId: string)
    ensures RetainedBy(apply, Grouped(sent), key, storageId) <==> Retained(apply, sent, key, storageId)
  {
    hide Failing;
    var groups := Grouped(sent);
    GroupsHoldWhatWasSent(sent);
    if RetainedBy(apply, groups, key, storageId) {
      var g :| g in groups && RetainedIn(apply, g, key, storageId);
      var op :| op in g.operations && op.key == storageId;
      GroupIsItsBatch(groups, g);
      OpsAreSent(sent, g.binding, op);
      assert Send(g.binding, op) in sent;
    }
    if Retained(apply, sent, key, storageId) {
      var send :| send in sent && send.binding.key == key && send.operation.key == storageId
                  && Failing(apply, send.binding, OpsFor(sent, send.binding), storageId);
      OpsAreSent(sent, send.binding, send.operation);
      NonEmptyBatch(groups, send.binding);
      var g := Group(send.binding, OpsFor(sent, send.binding));
      assert g in groups && send.operation in g.operations && RetainedIn(apply, g, key, storageId);
    }
  }

  // ---- which edits stay ---------------------------------------------------------------------------------------

  lemma {:induction false} SentForMember(l: Layout, nodes: map<string, Node>, edit: Edit, n: nat, send: Send)
    requires n <= |TargetsOf(l, edit.0)|
    ensures send in SentFor(l, nodes, edit, n)
       <==> exists i :: 0 <= i < n && WritableTarget(l, edit.0, TargetsOf(l, edit.0)[i])
                        && send == Send(BindingFor(l, edit.0, TargetsOf(l, edit.0)[i]).value,
                                        OperationFor(BindingFor(l, edit.0, TargetsOf(l, edit.0)[i]).value, AttrsOf(nodes, edit.0), TargetsOf(l, edit.0)[i].storageId, edit.1))
  {
    hide WritableTarget, BindingFor, OperationFor;
    if n > 0 {
      SentForMember(l, nodes, edit, n - 1, send);
    }
  }

  lemma {:induction false} SentMember(l: Layout, nodes: map<string, Node>, pending: seq<Edit>, n: nat, send: Send)
    requires n <= |pending|
    ensures send in Sent(l, nodes, pending, n)
       <==> exists i :: 0 <= i < n && send in SentFor(l, nodes, pending[i], |TargetsOf(l, pending[i].0)|)
  {
    hide SentFor;
    if n > 0 {
      SentMember(l, nodes, pending, n - 1, send);
    }
  }

  /** An operation sent for a storage id by an edit of the instance. */
  lemma WritableIsSent(l: Layout, nodes: map<string, Node>, pending: seq<Edit>, id: string, kind: Kind, t: Target)
    requires (id, kind) in pending && t in TargetsOf(l, id) && WritableTarget(l, id, t)
    ensures Send(BindingFor(l, id, t).value, OperationFor(BindingFor(l, id, t).value, AttrsOf(nodes, id), t.storageId, kind))
         in Sent(l, nodes, pending, |pending|)
  {
    hide OperationFor;
    var send := Send(BindingFor(l, id, t).value, OperationFor(BindingFor(l, id, t).value, AttrsOf(nodes, id), t.storageId, kind));
    var i :| 0 <= i < |pending| && pending[i] == (id, kind);
    var j :| 0 <= j < |TargetsOf(l, id)| && TargetsOf(l, id)[j] == t;
    SentForMember(l, nodes, (id, kind), |TargetsOf(l, id)|, send);
    SentMember(l, nodes, pending, |pending|, send);
  }

  /** What is sent goes to a writable binding of the layout. */
  lemma SentIsWritable(l: Layout, nodes: map<string, Node>, pending: seq<Edit>, send: Send)
    requires LayoutOk(l) && send in Sent(l, nodes, pending, |pending|)
    ensures send.binding.writable && send.binding.key in l.byKey && l.byKey[send.binding.key] == send.binding
  {
    hide OperationFor;
    SentMember(l, nodes, pending, |pending|, send);
    var i :| 0 <= i < |pending| && send in SentFor(l, nodes, pending[i], |TargetsOf(l, pending[i].0)|);
    SentForMember(l, nodes, pending[i], |TargetsOf(l, pending[i].0)|, send);
  }

  /** A writable source of an instance does not hold what was sent to it. */
  ghost predicate SomeSourceFailed(l: Layout, apply: Adapters, sent: seq<Send>, id: string) {
    exists t :: t in TargetsOf(l, id) && WritableTarget(l, id, t)
                && Failing(apply, BindingFor(l, id, t).value, OpsFor(sent, BindingFor(l, id, t).value), t.storageId)
  }

  /**
   An edit stays pending exactly when one of its writable sources does not hold it: that source's batch rolled back, or
   names its key among the failures.
   */
  lemma EditStaysIff(l: Layout, nodes: map<string, Node>, apply: Adapters, pending: seq<Edit>, id: string, kind: Kind)
    requires LayoutOk(l) && (id, kind) in pending
    ensures Stays(l, apply, Sent(l, nodes, pending, |pending|), id) <==> SomeSourceFailed(l, apply, Sent(l, nodes, pending, |pending|), id)
  {
    hide Failing;
    var sent := Sent(l, nodes, pending, |pending|);
    if Stays(l, apply, sent, id) {
      var t :| t in TargetsOf(l, id) && Retained(apply, sent, KeyOf(l, id, t).value, t.storageId);
      var send :| send in sent && send.binding.key == KeyOf(l, id, t).value && send.operation.key == t.storageId
                  && Failing(apply, send.binding, OpsFor(sent, send.binding), t.storageId);
      SentIsWritable(l, nodes, pending, send);
      assert BindingFor(l, id, t) == Some(send.binding);
    }
    forall t | t in TargetsOf(l, id) && WritableTarget(l, id, t)
               && Failing(apply, BindingFor(l, id, t).value, OpsFor(sent, BindingFor(l, id, t).value), t.storageId)
      ensures Stays(l, apply, sent, id)
    {
      WritableIsSent(l, nodes, pending, id, kind, t);
      assert Retained(apply, sent, KeyOf(l, id, t).value, t.storageId);
    }
  }

  /** Whether an edit stays depends only on what its own bindings answered. */
  lemma OnlyOwnBindingsMatter(l: Layout, nodes: map<string, Node>, apply: Adapters, other: Adapters, pending: seq<Edit>, id: string, kind: Kind)
    requires LayoutOk(l) && (id, kind) in pending
    requires forall t, batch: Batch :: t in TargetsOf(l, id) && WritableTarget(l, id, t) ==>
               apply(BindingFor(l, id, t).value, batch) == other(BindingFor(l, id, t).value, batch)
    ensures Stays(l, apply, Sent(l, nodes, pending, |pending|), id) <==> Stays(l, other, Sent(l, nodes, pending, |pending|), id)
  {
    hide Sent, OpsFor, Stays, BindingFor;
    EditStaysIff(l, nodes, apply, pending, id, kind);
    EditStaysIff(l, nodes, other, pending, id, kind);
    var sent := Sent(l, nodes, pending, |pending|);
    forall t | t in TargetsOf(l, id) && WritableTarget(l, id, t)
      ensures Failing(apply, BindingFor(l, id, t).value, OpsFor(sent, BindingFor(l, id, t).value), t.storageId)
         <==> Failing(other, BindingFor(l, id, t).value, OpsFor(sent, BindingFor(l, id, t).value), t.storageId)
    {
      var b := BindingFor(l, id, t).value;
      assert apply(b, BatchFor(b, OpsFor(sent, b))) == other(b, BatchFor(b, OpsFor(sent, b)));
    }
  }

  /** With a SQL source behind the binding: a key fails exactly when its operation did not persist. */
  lemma StaysIffNotPersisted(rows: Rows, binding: Binding, operations: seq<Operation>, canTransact: bool, faults: set<nat>, commits: bool, apply: Adapters, i: nat)
    requires i < |operations| && DistinctKeys(BatchFor(binding, operations))
    requires apply(binding, BatchFor(binding, operations)) == BumpedApply(rows, BatchFor(binding, operations), canTransact, faults, commits).result
    ensures var batch := BatchFor(binding, operations); var bumped := Bumped(batch);
            var after := BumpedApply(rows, batch, canTransact, faults, commits).rows;
            && |bumped.operations| == |operations|
            && (batch.atomicity.Sequential? ==>
                  (Failing(apply, binding, operations, operations[i].key) <==> ApplyOne(rows, bumped, bumped.operations[i], i in faults).failure.Some?))
            && (batch.atomicity.Transactional? ==>
                  if Failing(apply, binding, operations, operations[i].key) then after == rows
                  else after == AfterAll(rows, bumped, faults).rows && AfterAll(rows, bumped, faults).failures == [])
  {
    hide ApplyOne;
    var batch := BatchFor(binding, operations);
    var bumped := Bumped(batch);
    var result := ResultOf(apply, binding, operations);
    assert forall j :: 0 <= j < |operations| ==> bumped.operations[j].key == operations[j].key;
    assert DistinctKeys(bumped);
    AppliedPlusFailed(rows, bumped, faults, |operations|);
    if batch.atomicity.Sequential? {
      SequentialIsPerOperation(rows, bumped, faults, i, |operations|);
    } else {
      TransactionIsAllOrNothing(rows, bumped, canTransact, faults, commits);
      if apply(binding, batch).None? {
        assert AllFailed(operations)[i].key == operations[i].key;
      }
    }
  }

  // ---- an edit marked while the flush waits -------------------------------------------------------------------

  lemma {:induction false} NoneKept(pending: seq<Edit>, p: Edit -> bool, id: string)
    requires forall kind :: !p((id, kind))
    ensures !Pending(Filter(pending, p), id)
  {
    if pending != [] {
      NoneKept(pending[1..], p, id);
      if p(pending[0]) {
        assert Filter(pending, p)[0] == pending[0] && Filter(pending, p)[1..] == Filter(pending[1..], p);
      }
    }
  }

  /** The instance has the concept and the targets it had. */
  predicate SameTargets(l: Layout, e: Layout, id: string) {
    TargetsOf(e, id) == TargetsOf(l, id) && (id in e.concepts <==> id in l.concepts) && (id in l.concepts ==> e.concepts[id] == l.concepts[id])
  }

  lemma ChangesKeepBindings(c: Copy, changes: seq<Change>)
    ensures ChangedAll(c, changes).bindings == c.bindings
    ensures (forall i :: 0 <= i < |changes| ==> changes[i].Marked?) ==> ChangedAll(c, changes).View() == c.View()
    decreases |changes|
  {
    if changes != [] {
      ChangesKeepBindings(Changed(c, changes[0]), changes[1..]);
    }
  }

  lemma AdoptingKeepsView(d: Copy, binding: Binding, result: WriteResult)
    ensures d.(nodes := Adopted(d.View(), binding, result, d.nodes)).View() == d.View()
  {
    hide AdoptedVersion;
    assert Adopted(d.View(), binding, result, d.nodes).Keys == d.nodes.Keys;
    assert d.(nodes := Adopted(d.View(), binding, result, d.nodes)).View().concepts == d.View().concepts;
  }

  /** The bindings stay what they were; as long as edits are only marked, so do concepts and targets. */
  lemma {:induction false} AwaitedKeepsBindings(c: Copy, apply: Adapters, groups: seq<Group>, meanwhile: Meanwhile, n: nat)
    requires n <= |groups|
    ensures Awaited(c, apply, groups, meanwhile, n).bindings == c.bindings
    ensures OnlyMarks(meanwhile) ==> Awaited(c, apply, groups, meanwhile, n).View() == c.View()
  {
    hide Adopted, ResultOf, ChangedAll;
    if n > 0 {
      AwaitedKeepsBindings(c, apply, groups, meanwhile, n - 1);
      var g, d := groups[n - 1], ChangedAll(Awaited(c, apply, groups, meanwhile, n - 1), meanwhile(n - 1));
      ChangesKeepBindings(Awaited(c, apply, groups, meanwhile, n - 1), meanwhile(n - 1));
      AdoptingKeepsView(d, g.binding, ResultOf(apply, g.binding, g.operations));
    }
  }

  ghost predicate OnlyMarks(meanwhile: Meanwhile) {
    forall n: nat, i :: 0 <= i < |meanwhile(n)| ==> meanwhile(n)[i].Marked?
  }

  /** An instance edited again while its flush waits: if its sources took the first edit, the second is forgotten too. */
  lemma EditDuringFlushIsDropped(c: Copy, apply: Adapters, meanwhile: Meanwhile, id: string, kind: Kind)
    requires LayoutOk(c.View()) && (id, kind) in c.pending && SameTargets(c.View(), AtEnd(c, apply, meanwhile).View(), id)
    requires !SomeSourceFailed(c.View(), apply, SentBy(c), id)
    ensures !Pending(Flushed(c, apply, meanwhile).pending, id)
  {
    hide Sent, OpsFor, Failing, AtEnd, SomeSourceFailed;
    EditStaysIff(c.View(), c.nodes, apply, c.pending, id, kind);
    var d, sent := AtEnd(c, apply, meanwhile), SentBy(c);
    NoneKept(d.pending, (edit: Edit) => Stays(d.View(), apply, sent, edit.0), id);
  }

  lemma {:induction false} KeptIff(pending: seq<Edit>, p: Edit -> bool, id: string)
    requires forall kind, other :: p((id, kind)) == p((id, other))
    ensures Pending(Filter(pending, p), id) <==> Pending(pending, id) && p((id, Upsert))
  {
    if pending != [] {
      KeptIff(pending[1..], p, id);
      if p(pending[0]) {
        assert Filter(pending, p)[0] == pending[0] && Filter(pending, p)[1..] == Filter(pending[1..], p);
      }
    }
  }

  /** An operation of this flush was for the same row of the same source. */
  ghost predicate WasSent(sent: seq<Send>, binding: Binding, storageId: string) {
    exists send :: send in sent && send.binding == binding && send.operation.key == storageId
  }

  ghost predicate SentAndFailed(l: Layout, apply: Adapters, sent: seq<Send>, id: string, t: Target) {
    && t in TargetsOf(l, id) && WritableTarget(l, id, t) && WasSent(sent, BindingFor(l, id, t).value, t.storageId)
    && Failing(apply, BindingFor(l, id, t).value, OpsFor(sent, BindingFor(l, id, t).value), t.storageId)
  }

  lemma StaysIffSentAndFailed(l: Layout, e: Layout, nodes: map<string, Node>, apply: Adapters, pending: seq<Edit>, id: string)
    requires LayoutOk(l) && e.byKey == l.byKey
    ensures Stays(e, apply, Sent(l, nodes, pending, |pending|), id) <==> exists t :: SentAndFailed(e, apply, Sent(l, nodes, pending, |pending|), id, t)
  {
    hide Failing, Sent, OpsFor;
    var sent := Sent(l, nodes, pending, |pending|);
    if Stays(e, apply, sent, id) {
      var t :| t in TargetsOf(e, id) && Retained(apply, sent, KeyOf(e, id, t).value, t.storageId);
      var send :| send in sent && send.binding.key == KeyOf(e, id, t).value && send.operation.key == t.storageId
                  && Failing(apply, send.binding, OpsFor(sent, send.binding), t.storageId);
      SentIsWritable(l, nodes, pending, send);
      assert BindingFor(e, id, t) == Some(send.binding);
      assert SentAndFailed(e, apply, sent, id, t);
    }
    forall t | SentAndFailed(e, apply, sent, id, t) ensures Stays(e, apply, sent, id) {
      assert Retained(apply, sent, KeyOf(e, id, t).value, t.storageId) by {
        SentKey(l, e, nodes, pending, id, t);
      }
    }
  }

  lemma SentKey(l: Layout, e: Layout, nodes: map<string, Node>, pending: seq<Edit>, id: string, t: Target)
    requires LayoutOk(l) && e.byKey == l.byKey && WritableTarget(e, id, t)
    requires WasSent(Sent(l, nodes, pending, |pending|), BindingFor(e, id, t).value, t.storageId)
    ensures BindingFor(e, id, t).value.key == KeyOf(e, id, t).value
  {
    hide Sent;
    var send :| send in Sent(l, nodes, pending, |pending|) && send.binding == BindingFor(e, id, t).value && send.operation.key == t.storageId;
    SentIsWritable(l, nodes, pending, send);
  }

  /**
   A mark that is there when the flush ends, made before it or while it waited, survives if and only if one of the targets
   its instance has by then was sent in this flush and failed.
   */
  lemma MarkSurvivesIff(c: Copy, apply: Adapters, meanwhile: Meanwhile, id: string)
    requires LayoutOk(c.View()) && Pending(AtEnd(c, apply, meanwhile).pending, id)
    ensures Pending(Flushed(c, apply, meanwhile).pending, id)
       <==> exists t :: SentAndFailed(AtEnd(c, apply, meanwhile).View(), apply, SentBy(c), id, t)
  {
    hide Sent, SentAndFailed, Stays, LayoutOk, Awaited;
    var d, sent := AtEnd(c, apply, meanwhile), SentBy(c);
    AwaitedKeepsBindings(c, apply, Grouped(sent), meanwhile, |Grouped(sent)|);
    StaysIffSentAndFailed(c.View(), d.View(), c.nodes, apply, c.pending, id);
    KeptIff(d.pending, (edit: Edit) => Stays(d.View(), apply, sent, edit.0), id);
  }

  /** The instance has the row as a target. */
  predicate Shares(l: Layout, id: string, binding: Option<Binding>, storageId: string) {
    exists u :: u in TargetsOf(l, id) && BindingFor(l, id, u) == binding && u.storageId == storageId
  }

  /** Nothing is sent for a row that no pending edit has as a target. */
  lemma {:induction false} UntargetedIsUnsent(l: Layout, nodes: map<string, Node>, pending: seq<Edit>, n: nat, binding: Binding, storageId: string)
    requires n <= |pending|
    requires forall i :: 0 <= i < |pending| ==> !Shares(l, pending[i].0, Some(binding), storageId)
    ensures !WasSent(Sent(l, nodes, pending, n), binding, storageId)
  {
    if n > 0 {
      UntargetedIsUnsent(l, nodes, pending, n - 1, binding, storageId);
      var edit := pending[n - 1];
      UntargetedSends(l, nodes, edit, |TargetsOf(l, edit.0)|, binding, storageId);
    }
  }

  lemma {:induction false} UntargetedSends(l: Layout, nodes: map<string, Node>, edit: Edit, n: nat, binding: Binding, storageId: string)
    requires n <= |TargetsOf(l, edit.0)|
    requires !Shares(l, edit.0, Some(binding), storageId)
    ensures !WasSent(SentFor(l, nodes, edit, n), binding, storageId)
  {
    if n > 0 {
      UntargetedSends(l, nodes, edit, n - 1, binding, storageId);
    }
  }

  /** No pending edit of the flush has a row in common with the targets the instance has when it ends. */
  ghost predicate NothingShared(c: Copy, e: Layout, id: string) {
    forall t, i :: t in TargetsOf(e, id) && 0 <= i < |c.pending| ==> !Shares(c.View(), c.pending[i].0, BindingFor(e, id, t), t.storageId)
  }

  /**
   An instance first marked while the flush waits loses its mark whatever the sources answer, and so does an edited one that
   is pointed at other rows meanwhile.
   */
  lemma FirstMarkDuringFlushIsDropped(c: Copy, apply: Adapters, meanwhile: Meanwhile, id: string)
    requires LayoutOk(c.View()) && Pending(AtEnd(c, apply, meanwhile).pending, id) && NothingShared(c, AtEnd(c, apply, meanwhile).View(), id)
    ensures !Pending(Flushed(c, apply, meanwhile).pending, id)
  {
    hide Sent, Failing, OpsFor, Kept, LayoutOk, AtEnd, Flushed;
    MarkSurvivesIff(c, apply, meanwhile, id);
    var e := AtEnd(c, apply, meanwhile).View();
    forall t | t in TargetsOf(e, id) && WritableTarget(e, id, t) ensures !SentAndFailed(e, apply, SentBy(c), id, t) {
      UntargetedIsUnsent(c.View(), c.nodes, c.pending, |c.pending|, BindingFor(e, id, t).value, t.storageId);
    }
  }

  /** Every adapter throws. */
  ghost predicate AllThrow(apply: Adapters) {
    forall binding, batch: Batch :: apply(binding, batch) == None
  }

  function MovedTo(c: Copy, id: string, to: Target): Meanwhile {
    (n: nat) => [Rebound(c.nodes, map[id := [to]])]
  }

  lemma OneSent(c: Copy, apply: Adapters, id: string, kind: Kind, from: Target, to: Target)
    requires c.pending == [(id, kind)] && c.targets == map[id := [from]] && WritableTarget(c.View(), id, from) && AllThrow(apply)
    ensures SomeSourceFailed(c.View(), apply, SentBy(c), id)
    ensures AtEnd(c, apply, MovedTo(c, id, to)) == c.(targets := map[id := [to]])
  {
    var binding := BindingFor(c.View(), id, from).value;
    var op := OperationFor(binding, c.nodes[id].attrs, from.storageId, kind);
    var send := Send(binding, op);
    assert SentFor(c.View(), c.nodes, (id, kind), 0) == [];
    assert Sent(c.View(), c.nodes, c.pending, 0) == [];
    assert SentBy(c) == [send];
    hide OperationFor;
    assert [send][..0] == [];
    assert Grouped([]) == [] && Grouped([send]) == [Group(binding, [op])];
    assert OpsFor([send], binding) == [op];
    assert AllFailed([op])[0] == Failure(op.key, Fault);
    MovedOnce(c, apply, id, to, Group(binding, [op]), kind);
  }

  lemma MovedOnce(c: Copy, apply: Adapters, id: string, to: Target, g: Group, kind: Kind)
    requires c.pending == [(id, kind)] && id in c.nodes && AllThrow(apply)
    ensures Awaited(c, apply, [g], MovedTo(c, id, to), 1) == c.(targets := map[id := [to]])
  {
    var change := Rebound(c.nodes, map[id := [to]]);
    assert [change][1..] == [] && [(id, kind)][1..] == [] && [(id, kind)][0].0 in c.nodes;
    assert Filter([(id, kind)], InDocument(c.nodes)) == [(id, kind)];
    assert Changed(c, change) == c.(targets := map[id := [to]]);
    assert ChangedAll(c, [change]) == Changed(c, change);
    assert Awaited(c, apply, [g], MovedTo(c, id, to), 0) == c;
  }

  /** The one edit's source fails it, but its instance is pointed at another row meanwhile: the edit is dropped. */
  lemma RebindDropsAFailedEdit(c: Copy, apply: Adapters, id: string, kind: Kind, from: Target, to: Target)
    requires LayoutOk(c.View()) && c.pending == [(id, kind)] && c.targets == map[id := [from]] && WritableTarget(c.View(), id, from)
    requires from.storageId != to.storageId && AllThrow(apply)
    ensures SomeSourceFailed(c.View(), apply, SentBy(c), id) && !Pending(Flushed(c, apply, MovedTo(c, id, to)).pending, id)
  {
    OneSent(c, apply, id, kind, from, to);
    hide Flushed, AtEnd, SentBy, LayoutOk, SomeSourceFailed;
    FirstMarkDuringFlushIsDropped(c, apply, MovedTo(c, id, to), id);
  }

  // ---- versions -----------------------------------------------------------------------------------------------

  /** One member maps to the version column, and attributes are named once. */
  ghost predicate OneVersionMember(binding: Binding, member: string) {
    && binding.versionField.Some? && binding.versionField.value != binding.idKey
    && VersionMember(binding.fieldMap, binding.versionField.value) == Some(member)
    && ValueOf(binding.fieldMap, member) == binding.versionField
    && (forall m :: ValueOf(binding.fieldMap, m) == binding.versionField ==> m == member)
  }

  predicate NamedOnce(attrs: Named<Value>) {
    forall i, j :: 0 <= i < j < |attrs| ==> attrs[i].0 != attrs[j].0
  }

  lemma {:induction false} ValueAt(attrs: Named<Value>, i: nat)
    requires i < |attrs| && NamedOnce(attrs)
    ensures ValueOf(attrs, attrs[i].0) == Some(attrs[i].1)
  {
    if i > 0 {
      ValueAt(attrs[1..], i - 1);
    }
  }

  lemma {:induction false} ValueIsAt<T>(named: Named<T>, name: string)
    ensures ValueOf(named, name).Some? ==> exists i :: 0 <= i < |named| && named[i] == (name, ValueOf(named, name).value)
    ensures ValueOf(named, name).None? ==> forall i :: 0 <= i < |named| ==> named[i].0 != name
  {
    if named != [] && named[0].0 != name {
      ValueIsAt(named[1..], name);
      if ValueOf(named[1..], name).Some? {
        var i :| 0 <= i < |named[1..]| && named[1..][i] == (name, ValueOf(named[1..], name).value);
        assert named[i + 1] == (name, ValueOf(named, name).value);
      }
    }
  }

  lemma {:induction false} FieldOfMember(binding: Binding, attrs: Named<Value>, member: string)
    requires OneVersionMember(binding, member) && NamedOnce(attrs)
    ensures binding.versionField.value in FieldsFor(binding, attrs) <==> ValueOf(attrs, member).Some?
    ensures ValueOf(attrs, member).Some? ==> FieldsFor(binding, attrs)[binding.versionField.value] == ValueOf(attrs, member).value
    decreases |attrs|
  {
    if attrs != [] {
      var before, last := attrs[..|attrs| - 1], attrs[|attrs| - 1];
      FieldOfMember(binding, before, member);
      ValueIsAt(attrs, member);
      ValueIsAt(before, member);
      if last.0 == member {
        ValueAt(attrs, |attrs| - 1);
      } else if ValueOf(before, member).Some? {
        var i :| 0 <= i < |before| && before[i] == (member, ValueOf(before, member).value);
        assert attrs[i] == before[i];
        ValueAt(attrs, i);
      } else {
        assert forall i :: 0 <= i < |before| ==> attrs[i] == before[i];
        assert ValueOf(attrs, member).None?;
      }
    }
  }

  /** An upsert expects the very version it sends, so it is bumped exactly when that is a number. */
  lemma SentVersionIsExpected(binding: Binding, attrs: Named<Value>, storageId: string, member: string)
    requires OneVersionMember(binding, member) && NamedOnce(attrs)
    ensures var op := OperationFor(binding, attrs, storageId, Upsert);
            && op.version == ValueOf(attrs, member)
            && (op.version.Some? ==> binding.versionField.value in op.fields && op.fields[binding.versionField.value] == op.version.value)
            && (Bumps(op, binding.versionField.value) <==> op.version.Some? && op.version.value.Number?)
  {
    FieldOfMember(binding, attrs, member);
  }

  lemma {:induction false} WithValueReads<T>(named: Named<T>, name: string, value: T, other: string)
    ensures ValueOf(WithValue(named, name, value), other) == if other == name then Some(value) else ValueOf(named, other)
  {
    if named != [] {
      WithValueReads(named[1..], name, value, other);
    }
  }

  /** After a flush an instance with one source expects the version that source reported, and its other attributes stand. */
  lemma NextWriteExpectsTheReport(l: Layout, binding: Binding, result: WriteResult, nodes: map<string, Node>, id: string, member: string, other: string)
    requires id in nodes && OneVersionMember(binding, member) && result.versions.Some?
    ensures id in Adopted(l, binding, result, nodes)
    ensures AdoptedVersion(l, binding, result.versions.value, id).Some? ==>
              VersionOf(binding, Adopted(l, binding, result, nodes)[id].attrs) == AdoptedVersion(l, binding, result.versions.value, id)
    ensures other != member ==> ValueOf(Adopted(l, binding, result, nodes)[id].attrs, other) == ValueOf(nodes[id].attrs, other)
  {
    hide AdoptedVersion;
    var v := AdoptedVersion(l, binding, result.versions.value, id);
    if v.Some? {
      WithValueReads(nodes[id].attrs, member, v.value, member);
      WithValueReads(nodes[id].attrs, member, v.value, other);
    }
  }
}
