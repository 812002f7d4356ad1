/**
 The store backed by a graph database: a working copy that records the Cypher of every mutation.

 `CypherGraphStore.Valid` says that running what is recorded on the database as it was loaded gives a database that loads
 equal to the working copy; every accepted mutation keeps it as long as no attribute is called like a node column, and a
 flush makes the database itself that one. An attribute called like a column replaces it and is lost
 (`ColumnAttributesAreLost`). A flush that stops half way runs its first statements again when it is retried:
 `RetryIsHarmlessIff` says for which statements that leads to the same database.
 */
module CypherStores {
  import opened Wrappers
  import opened Seqs
  import opened Values
  import opened GraphStores

  // ---- the database -------------------------------------------------------------------------------------------

  /** A property: a scalar, or field declarations as their JSON text. */
  datatype Property = Plain(value: Scalar) | FieldsJson(fields: seq<FieldDecl>)

  type Properties = map<string, Property>
  type Node = GraphStores.Node

  /** A node of the database: nothing keeps two from having one id. */
  datatype Stored = Stored(id: string, props: Properties)

  /** The nodes, and the relationships by the ids of their ends, in some order. */
  datatype Database = Database(nodes: seq<Stored>, rels: seq<Edge>)

  const COLUMNS: set<string> := {"id", "tier", "type", "metaKind", "namespace", "localId", "isClass", "class", "storageId", "canonicalId", "fields"}

  /** The statements the store records, with their parameters. */
  datatype CypherOp =
    | CreateNode(id: string, columns: Properties, attrs: map<string, Scalar>)
    | CreateRel(edge: Edge)
    | DeleteRels(edge: Edge)
    | SetFields(id: string, fields: seq<FieldDecl>)
    | SetDelta(id: string, name: string, value: Scalar)
    | DetachDelete(id: string)

  function Overlay(attrs: map<string, Scalar>): Properties {
    map name | name in attrs :: Plain(attrs[name])
  }

  function PropsIf(id: string): Stored -> seq<Properties> {
    (n: Stored) => if n.id == id then [n.props] else []
  }

  /** The properties of the nodes with an id. */
  function ViewOf(nodes: seq<Stored>, id: string): seq<Properties> {
    FlatMap(nodes, PropsIf(id))
  }

  function Updated(nodes: seq<Stored>, id: string, name: string, value: Property): (r: seq<Stored>)
    ensures |r| == |nodes|
  {
    seq(|nodes|, i requires 0 <= i < |nodes| => if nodes[i].id == id then nodes[i].(props := nodes[i].props[name := value]) else nodes[i])
  }

  function IdIsNot(id: string): Stored -> bool {
    (n: Stored) => n.id != id
  }

  function Copies<T>(x: T, n: nat): (r: seq<T>)
    ensures |r| == n
  {
    seq(n, i requires 0 <= i < n => x)
  }

  /** What the database does with a statement: a MATCH is of every node with the id, and of every pair of ends. */
  function Run(db: Database, op: CypherOp): Database {
    match op
    case CreateNode(id, columns, attrs) => db.(nodes := db.nodes + [Stored(id, columns + Overlay(attrs))])
    case CreateRel(e) => db.(rels := db.rels + Copies(e, |ViewOf(db.nodes, e.from)| * |ViewOf(db.nodes, e.to)|))
    case DeleteRels(e) => db.(rels := Filter(db.rels, IsNot(e)))
    case SetFields(id, fields) => db.(nodes := Updated(db.nodes, id, "fields", FieldsJson(fields)))
    case SetDelta(id, name, value) => db.(nodes := Updated(db.nodes, id, name, Plain(value)))
    case DetachDelete(id) => Database(Filter(db.nodes, IdIsNot(id)), Filter(db.rels, NotTouching(id)))
  }

  function RunAll(db: Database, ops: seq<CypherOp>): Database
    decreases |ops|
  {
    if ops == [] then db else Run(RunAll(db, ops[..|ops| - 1]), ops[|ops| - 1])
  }

  // ---- reading and writing nodes ------------------------------------------------------------------------------

  function TextOf(props: Properties, name: string): Option<string> {
    if name in props && props[name].Plain? && props[name].value.Str? then Some(props[name].value.s) else None
  }

  function FlagOf(props: Properties, name: string): bool {
    name in props && props[name].Plain? && props[name].value.Bool? && props[name].value.b
  }

  function FieldsOf(props: Properties): seq<FieldDecl> {
    if "fields" in props && props["fields"].FieldsJson? then props["fields"].fields else []
  }

  /** Everything that is not a column is an attribute. */
  function AttrsOf(props: Properties): map<string, Scalar> {
    map name | name in props && name !in COLUMNS && props[name].Plain? :: props[name].value
  }

  function ReadNode(props: Properties): Node {
    GraphStores.Node.Node(if TextOf(props, "tier").Some? then TextOf(props, "tier").value else "",
         TextOf(props, "type"), TextOf(props, "metaKind"), TextOf(props, "namespace"), TextOf(props, "localId"),
         FlagOf(props, "isClass"), TextOf(props, "class"), TextOf(props, "storageId"), TextOf(props, "canonicalId"),
         FieldsOf(props), AttrsOf(props))
  }

  function TextProperty(value: Option<string>): Option<Property> {
    if value.None? then None else Some(Plain(Str(value.value)))
  }

  /** What a column of a node holds; a column set to null is not there. */
  function ColumnOf(id: string, n: Node, column: string): Option<Property> {
    if column == "id" then Some(Plain(Str(id)))
    else if column == "tier" then Some(Plain(Str(n.tier)))
    else if column == "type" then TextProperty(n.typeId)
    else if column == "metaKind" then TextProperty(n.metaKind)
    else if column == "namespace" then TextProperty(n.namespace)
    else if column == "localId" then TextProperty(n.localId)
    else if column == "isClass" then Some(Plain(Bool(n.isClass)))
    else if column == "class" then TextProperty(n.classId)
    else if column == "storageId" then TextProperty(n.storageId)
    else if column == "canonicalId" then TextProperty(n.canonicalId)
    else if column == "fields" then Some(FieldsJson(n.fields))
    else None
  }

  function ColumnsOf(id: string, n: Node): Properties {
    map column | column in COLUMNS && ColumnOf(id, n, column).Some? :: ColumnOf(id, n, column).value
  }

  predicate PlainNames(attrs: map<string, Scalar>) {
    forall name :: name in attrs ==> name !in COLUMNS
  }

  /** A column is read from what was written to it, whatever the attributes are called besides. */
  lemma ColumnKept(id: string, n: Node, column: string)
    requires PlainNames(n.attrs) && column in COLUMNS
    ensures var props := ColumnsOf(id, n) + Overlay(n.attrs);
            (column in props <==> ColumnOf(id, n, column).Some?) && (column in props ==> props[column] == ColumnOf(id, n, column).value)
  {
    hide ColumnOf;
  }

  lemma AttrsKept(id: string, n: Node)
    requires PlainNames(n.attrs)
    ensures AttrsOf(ColumnsOf(id, n) + Overlay(n.attrs)) == n.attrs
  {
    hide ColumnOf;
  }

  /** A node written and loaded again is the same. */
  lemma NodeReadsBack(id: string, n: Node)
    requires PlainNames(n.attrs)
    ensures ReadNode(ColumnsOf(id, n) + Overlay(n.attrs)) == n
  {
    AttrsKept(id, n);
    ColumnKept(id, n, "tier");
    ColumnKept(id, n, "type");
    ColumnKept(id, n, "metaKind");
    ColumnKept(id, n, "namespace");
    ColumnKept(id, n, "localId");
    ColumnKept(id, n, "isClass");
    ColumnKept(id, n, "class");
    ColumnKept(id, n, "storageId");
    ColumnKept(id, n, "canonicalId");
    ColumnKept(id, n, "fields");
    hide AttrsOf, ColumnsOf, Overlay;
  }

  lemma AttrReadsBack(props: Properties, name: string, value: Scalar)
    requires name !in COLUMNS
    ensures ReadNode(props[name := Plain(value)]) == ReadNode(props).(attrs := ReadNode(props).attrs[name := value])
  {
    assert AttrsOf(props[name := Plain(value)]) == AttrsOf(props)[name := value];
  }

  lemma FieldsReadBack(props: Properties, fields: seq<FieldDecl>)
    ensures ReadNode(props["fields" := FieldsJson(fields)]) == ReadNode(props).(fields := fields)
  {
    assert AttrsOf(props["fields" := FieldsJson(fields)]) == AttrsOf(props);
  }

  // ---- loading ------------------------------------------------------------------------------------------------

  /** The database loads equal to the graph: each node once, and the same edges equally often. */
  ghost predicate LoadsAs(db: Database, g: Graph) {
    && (forall id :: id in g.nodes ==> |ViewOf(db.nodes, id)| == 1 && ReadNode(ViewOf(db.nodes, id)[0]) == g.nodes[id])
    && (forall id :: id !in g.nodes ==> ViewOf(db.nodes, id) == [])
    && multiset(db.rels) == multiset(g.edges)
  }

  /** Relationships join nodes that exist. */
  predicate Consistent(db: Database) {
    forall e :: e in db.rels ==> ViewOf(db.nodes, e.from) != [] && ViewOf(db.nodes, e.to) != []
  }

  // ---- what a statement does to one id and to one relationship ------------------------------------------------

  function SetAll(view: seq<Properties>, name: string, value: Property): (r: seq<Properties>)
    ensures |r| == |view|
  {
    seq(|view|, i requires 0 <= i < |view| => view[i][name := value])
  }

  function StepView(view: seq<Properties>, op: CypherOp, id: string): seq<Properties> {
    match op
    case CreateNode(i, columns, attrs) => if i == id then view + [columns + Overlay(attrs)] else view
    case SetFields(i, fields) => if i == id then SetAll(view, "fields", FieldsJson(fields)) else view
    case SetDelta(i, name, value) => if i == id then SetAll(view, name, Plain(value)) else view
    case DetachDelete(i) => if i == id then [] else view
    case _ => view
  }

  function ViewAfter(view: seq<Properties>, ops: seq<CypherOp>, id: string): seq<Properties>
    decreases |ops|
  {
    if ops == [] then view else StepView(ViewAfter(view, ops[..|ops| - 1], id), ops[|ops| - 1], id)
  }

  lemma ViewConcat(a: seq<Stored>, b: seq<Stored>, id: string)
    ensures ViewOf(a + b, id) == ViewOf(a, id) + ViewOf(b, id)
  {
    FlatMapConcat(a, b, PropsIf(id));
  }

  lemma ViewHead(nodes: seq<Stored>, id: string)
    requires nodes != []
    ensures ViewOf(nodes, id) == (if nodes[0].id == id then [nodes[0].props] else []) + ViewOf(nodes[1..], id)
  {
  }

  lemma UpdatedHead(nodes: seq<Stored>, id: string, name: string, value: Property)
    requires nodes != []
    ensures Updated(nodes, id, name, value)[0]
         == if nodes[0].id == id then nodes[0].(props := nodes[0].props[name := value]) else nodes[0]
    ensures Updated(nodes, id, name, value)[1..] == Updated(nodes[1..], id, name, value)
  {
  }

  lemma {:induction false} ViewUpdated(nodes: seq<Stored>, id: string, name: string, value: Property, other: string)
    ensures ViewOf(Updated(nodes, id, name, value), other) == if other == id then SetAll(ViewOf(nodes, id), name, value) else ViewOf(nodes, other)
  {
    SetNone(name, value);
    if nodes != [] {
      hide SetAll, ViewOf, Updated;
      ViewUpdated(nodes[1..], id, name, value, other);
      ViewHead(nodes, other);
      UpdatedHead(nodes, id, name, value);
      ViewHead(Updated(nodes, id, name, value), other);
      SetAllConcat(if nodes[0].id == id then [nodes[0].props] else [], ViewOf(nodes[1..], id), name, value);
    }
  }

  lemma SetNone(name: string, value: Property)
    ensures SetAll([], name, value) == []
  {
  }

  lemma SetAllConcat(a: seq<Properties>, b: seq<Properties>, name: string, value: Property)
    ensures SetAll(a + b, name, value) == SetAll(a, name, value) + SetAll(b, name, value)
    ensures |a| == 1 ==> SetAll(a, name, value) == [a[0][name := value]]
  {
  }

  lemma {:induction false} ViewFiltered(nodes: seq<Stored>, id: string, other: string)
    ensures ViewOf(Filter(nodes, IdIsNot(id)), other) == if other == id then [] else ViewOf(nodes, other)
  {
    if nodes != [] {
      ViewFiltered(nodes[1..], id, other);
      if nodes[0].id != id {
        assert ([nodes[0]] + Filter(nodes[1..], IdIsNot(id)))[1..] == Filter(nodes[1..], IdIsNot(id));
      }
    }
  }

  lemma RunView(db: Database, op: CypherOp, id: string)
    ensures ViewOf(Run(db, op).nodes, id) == StepView(ViewOf(db.nodes, id), op, id)
  {
    hide Overlay, SetAll, Updated, Filter;
    match op
    case CreateNode(i, columns, attrs) =>
      ViewConcat(db.nodes, [Stored(i, columns + Overlay(attrs))], id);
      OneNode(Stored(i, columns + Overlay(attrs)), id);
    case SetFields(i, fields) => ViewUpdated(db.nodes, i, "fields", FieldsJson(fields), id);
    case SetDelta(i, name, value) => ViewUpdated(db.nodes, i, name, Plain(value), id);
    case DetachDelete(i) => ViewFiltered(db.nodes, i, id);
    case _ =>
  }

  lemma OneNode(n: Stored, id: string)
    ensures ViewOf([n], id) == if n.id == id then [n.props] else []
  {
    assert [n][1..] == [];
    assert FlatMap([n], PropsIf(id)) == PropsIf(id)(n) + [];
  }

  lemma {:induction false} RunAllView(db: Database, ops: seq<CypherOp>, id: string)
    ensures ViewOf(RunAll(db, ops).nodes, id) == ViewAfter(ViewOf(db.nodes, id), ops, id)
    decreases |ops|
  {
    hide ViewOf, StepView, Run;
    if ops != [] {
      RunAllView(db, ops[..|ops| - 1], id);
      RunView(RunAll(db, ops[..|ops| - 1]), ops[|ops| - 1], id);
    }
  }

  function RelCount(db: Database, e: Edge): nat {
    multiset(db.rels)[e]
  }

  /** The statement leaves no relationship equal to this one. */
  predicate Resets(op: CypherOp, e: Edge) {
    op == DeleteRels(e) || op == DetachDelete(e.from) || op == DetachDelete(e.to)
  }

  lemma RunRels(db: Database, op: CypherOp, e: Edge)
    ensures RelCount(Run(db, op), e) == if Resets(op, e) then 0
                                        else RelCount(db, e) + if op == CreateRel(e) then |ViewOf(db.nodes, e.from)| * |ViewOf(db.nodes, e.to)| else 0
  {
    match op
    case CreateRel(f) =>
      var n := |ViewOf(db.nodes, f.from)| * |ViewOf(db.nodes, f.to)|;
      CopiesCount(f, n, e);
      assert multiset(db.rels + Copies(f, n)) == multiset(db.rels) + multiset(Copies(f, n));
    case DeleteRels(f) => FilterCounts(db.rels, IsNot(f), e);
    case DetachDelete(i) => FilterCounts(db.rels, NotTouching(i), e);
    case _ =>
  }

  lemma {:induction false} CopiesCount(x: Edge, n: nat, e: Edge)
    ensures multiset(Copies(x, n))[e] == if e == x then n else 0
  {
    if n > 0 {
      CopiesCount(x, n - 1, e);
      assert Copies(x, n) == Copies(x, n - 1) + [x];
    }
  }

  // ---- one mutation -------------------------------------------------------------------------------------------

  predicate PlainMutation(m: Mutation) {
    match m
    case AddNode(_, node) => PlainNames(node.attrs)
    case SetAttr(_, name, _) => name !in COLUMNS
    case _ => true
  }

  /** The statement recorded for a mutation, once the working copy has made it. */
  function Recorded(after: Graph, m: Mutation): CypherOp {
    match m
    case AddNode(id, node) => CreateNode(id, ColumnsOf(id, node), node.attrs)
    case AddEdge(e) => CreateRel(e)
    case RemoveEdge(e) => DeleteRels(e)
    case AddFieldDecl(id, _) => SetFields(id, if id in after.nodes then after.nodes[id].fields else [])
    case SetAttr(id, name, value) => SetDelta(id, name, value)
    case Remove(id) => DetachDelete(id)
  }

  lemma NodeAdded(db: Database, g: Graph, id: string, node: Node)
    requires LoadsAs(db, g) && id !in g.nodes && PlainNames(node.attrs)
    ensures var view := ViewOf(Run(db, CreateNode(id, ColumnsOf(id, node), node.attrs)).nodes, id); |view| == 1 && ReadNode(view[0]) == node
  {
    hide ReadNode, ColumnsOf, Overlay, ViewOf, Run;
    RunView(db, CreateNode(id, ColumnsOf(id, node), node.attrs), id);
    NodeReadsBack(id, node);
  }

  lemma NodeChanged(db: Database, g: Graph, m: Mutation)
    requires LoadsAs(db, g) && PlainMutation(m) && Mutate(g, m).Some? && (m.AddFieldDecl? || m.SetAttr?)
    ensures var h := Mutate(g, m).value; var view := ViewOf(Run(db, Recorded(h, m)).nodes, m.id); |view| == 1 && ReadNode(view[0]) == h.nodes[m.id]
  {
    hide ReadNode, ColumnsOf, Overlay, ViewOf, Run;
    var h := Mutate(g, m).value;
    RunView(db, Recorded(h, m), m.id);
    if m.SetAttr? {
      AttrReadsBack(ViewOf(db.nodes, m.id)[0], m.name, m.value);
    } else {
      FieldsReadBack(ViewOf(db.nodes, m.id)[0], h.nodes[m.id].fields);
    }
  }

  predicate Touches(m: Mutation, id: string) {
    match m
    case AddNode(i, _) => i == id
    case AddFieldDecl(i, _) => i == id
    case SetAttr(i, _, _) => i == id
    case Remove(i) => i == id
    case _ => false
  }

  lemma NodesOfRecorded(db: Database, g: Graph, m: Mutation, id: string)
    requires LoadsAs(db, g) && PlainMutation(m) && Mutate(g, m).Some?
    ensures var h := Mutate(g, m).value; var view := ViewOf(Run(db, Recorded(h, m)).nodes, id);
            if id in h.nodes then |view| == 1 && ReadNode(view[0]) == h.nodes[id] else view == []
  {
    hide ReadNode, ColumnsOf, Overlay, Run, ViewOf;
    var h := Mutate(g, m).value;
    if Touches(m, id) {
      match m
      case AddNode(_, node) => NodeAdded(db, g, id, node);
      case Remove(_) => RunView(db, Recorded(h, m), id);
      case _ => NodeChanged(db, g, m);
    } else {
      RunView(db, Recorded(h, m), id);
      assert StepView(ViewOf(db.nodes, id), Recorded(h, m), id) == ViewOf(db.nodes, id);
      assert id in h.nodes <==> id in g.nodes;
      assert id in h.nodes ==> h.nodes[id] == g.nodes[id];
      hide Mutate, Recorded, StepView;
    }
  }

  lemma AppendedCounts(edges: seq<Edge>, f: Edge, e: Edge)
    ensures multiset(edges + [f])[e] == multiset(edges)[e] + if e == f then 1 else 0
  {
  }

  lemma EdgesAfter(g: Graph, m: Mutation, e: Edge)
    requires Mutate(g, m).Some?
    ensures multiset(Mutate(g, m).value.edges)[e]
         == if Resets(Recorded(Mutate(g, m).value, m), e) then 0 else multiset(g.edges)[e] + if m == AddEdge(e) then 1 else 0
  {
    hide ColumnsOf, Filter;
    match m {
      case AddEdge(f) => AppendedCounts(g.edges, f, e);
      case RemoveEdge(f) => FilterCounts(g.edges, IsNot(f), e);
      case Remove(id) => FilterCounts(g.edges, NotTouching(id), e);
      case _ =>
    }
  }

  lemma RelsOfRecorded(db: Database, g: Graph, m: Mutation, e: Edge)
    requires LoadsAs(db, g) && Mutate(g, m).Some?
    ensures RelCount(Run(db, Recorded(Mutate(g, m).value, m)), e) == multiset(Mutate(g, m).value.edges)[e]
  {
    RunRels(db, Recorded(Mutate(g, m).value, m), e);
    EdgesAfter(g, m, e);
    if m == AddEdge(e) {
      assert |ViewOf(db.nodes, e.from)| == |ViewOf(db.nodes, e.to)| == 1;
    }
    hide ReadNode, ColumnsOf, Run, ViewOf, Mutate;
  }

  /** Running the recorded statement does to the database what the mutation did to the working copy. */
  lemma RecordedRuns(db: Database, g: Graph, m: Mutation)
    requires LoadsAs(db, g) && PlainMutation(m) && Mutate(g, m).Some?
    ensures LoadsAs(Run(db, Recorded(Mutate(g, m).value, m)), Mutate(g, m).value)
  {
    hide ReadNode, ColumnsOf, Run, Recorded, Mutate, ViewOf, PlainMutation;
    var h := Mutate(g, m).value;
    var after := Run(db, Recorded(h, m));
    forall id
      ensures id in h.nodes ==> |ViewOf(after.nodes, id)| == 1 && ReadNode(ViewOf(after.nodes, id)[0]) == h.nodes[id]
      ensures id !in h.nodes ==> ViewOf(after.nodes, id) == []
    {
      NodesOfRecorded(db, g, m, id);
    }
    forall e ensures multiset(after.rels)[e] == multiset(h.edges)[e] {
      RelsOfRecorded(db, g, m, e);
    }
  }

  // ---- the store ----------------------------------------------------------------------------------------------

  class CypherGraphStore {
    const inner: InMemoryGraphStore
    var pending: seq<CypherOp>
    /** The database as it was last loaded or flushed. */
    ghost var stored: Database

    /** The database the recorded statements lead to loads equal to the working copy. */
    ghost predicate Valid()
      reads this, inner
    {
      inner.Valid() && LoadsAs(RunAll(stored, pending), inner.Contents())
    }

    /** Over an empty database. */
    constructor ()
      ensures Valid() && fresh(inner) && stored == Database([], []) && pending == [] && inner.Contents() == Graph(map[], [])
    {
      inner := new InMemoryGraphStore();
      pending, stored := [], Database([], []);
    }

    /**
     Applies a mutation to the working copy, then records its Cypher; false when the working copy refuses it. The log still
     leads to the working copy unless an attribute is called like a column.
     */
    method Change(m: Mutation) returns (ok: bool)
      requires Valid()
      modifies this`pending, inner
      ensures inner.Valid() && (PlainMutation(m) || !ok ==> Valid()) && ok == Mutate(old(inner.Contents()), m).Some?
      ensures inner.Contents() == if ok then Mutate(old(inner.Contents()), m).value else old(inner.Contents())
      ensures pending == if ok then old(pending) + [Recorded(inner.Contents(), m)] else old(pending)
    {
      hide LoadsAs, ColumnsOf, Run, Mutate, Recorded;
      ghost var before, recorded := inner.Contents(), pending;
      ok := Forward(m);
      if ok {
        var op := Statement(m);
        pending := pending + [op];
        assert pending[..|pending| - 1] == recorded;
        if PlainMutation(m) {
          RecordedRuns(RunAll(stored, recorded), before, m);
        }
      }
    }

    method Statement(m: Mutation) returns (op: CypherOp)
      ensures op == Recorded(inner.Contents(), m)
    {
      op := Recorded(Graph(inner.nodes, []), m);
    }

    method Forward(m: Mutation) returns (ok: bool)
      requires inner.Valid()
      modifies inner
      ensures inner.Valid() && ok == Mutate(old(inner.Contents()), m).Some?
      ensures inner.Contents() == if ok then Mutate(old(inner.Contents()), m).value else old(inner.Contents())
    {
      hide GraphStores.AdjacencyOk, GraphStores.IndexOk;
      match m
      case AddNode(id, node) => ok := inner.AddNode(id, node);
      case AddEdge(e) => ok := inner.AddEdge(e);
      case RemoveEdge(e) =>
        inner.RemoveEdge(e);
        ok := true;
      case AddFieldDecl(id, decl) => ok := inner.AddFieldDecl(id, decl);
      case SetAttr(id, name, value) => ok := inner.SetAttr(id, name, value);
      case Remove(id) => ok := inner.Remove(id);
    }

    /**
     Runs every recorded statement on the database, then forgets them: the database loads equal to the working copy. When
     the driver throws after `ran` statements, nothing is forgotten.
     */
    method Flush(session: CypherSession, ran: nat) returns (ok: bool)
      requires Valid()
      modifies this, session
      ensures inner.Contents() == old(inner.Contents()) && ok == (ran >= |old(pending)|)
      ensures ok ==> session.db == RunAll(old(session.db), old(pending)) == stored && pending == []
      ensures ok && (old(session.db) == old(stored) || LoadsAs(session.db, inner.Contents())) ==> Valid() && LoadsAs(session.db, inner.Contents())
      ensures !ok ==> pending == old(pending) && stored == old(stored) && Valid() && session.db == RunAll(old(session.db), old(pending)[..ran])
    {
      hide LoadsAs, Run;
      for i := 0 to |pending|
        invariant pending == old(pending) && stored == old(stored) && i <= ran
        invariant session.db == RunAll(old(session.db), pending[..i])
      {
        if i == ran {
          return false;
        }
        assert pending[..i + 1][..i] == pending[..i];
        session.Execute(pending[i]);
      }
      assert pending[..|pending|] == pending;
      stored := session.db;
      pending := [];
      ok := true;
    }
  }

  class CypherSession {
    var db: Database

    constructor (initial: Database)
      ensures db == initial
    {
      db := initial;
    }

    method Execute(op: CypherOp)
      modifies this
      ensures db == Run(old(db), op)
    {
      db := Run(db, op);
    }
  }

  predicate IdsOnce(rows: seq<Stored>) {
    forall i, j :: 0 <= i < j < |rows| ==> rows[i].id != rows[j].id
  }

  /** The nodes read, by id. */
  function ReadAll(rows: seq<Stored>): map<string, Node> {
    if rows == [] then map[] else ReadAll(rows[..|rows| - 1])[rows[|rows| - 1].id := ReadNode(rows[|rows| - 1].props)]
  }

  lemma {:induction false} ReadAllOf(rows: seq<Stored>, id: string)
    requires IdsOnce(rows)
    ensures id in ReadAll(rows) <==> ViewOf(rows, id) != []
    ensures id in ReadAll(rows) ==> |ViewOf(rows, id)| == 1 && ReadNode(ViewOf(rows, id)[0]) == ReadAll(rows)[id]
    ensures ViewOf(rows, id) != [] <==> exists i :: 0 <= i < |rows| && rows[i].id == id
    decreases |rows|
  {
    hide ReadNode;
    if rows != [] {
      hide ViewOf;
      var n := |rows| - 1;
      ReadAllOf(rows[..n], id);
      ViewOfMore(rows, id);
      assert forall i :: 0 <= i < n ==> rows[..n][i] == rows[i];
    }
  }

  lemma ViewOfMore(rows: seq<Stored>, id: string)
    requires rows != []
    ensures ViewOf(rows, id) == ViewOf(rows[..|rows| - 1], id) + if rows[|rows| - 1].id == id then [rows[|rows| - 1].props] else []
  {
    hide ViewOf;
    var n := |rows| - 1;
    assert rows == rows[..n] + [rows[n]];
    ViewConcat(rows[..n], [rows[n]], id);
    OneNode(rows[n], id);
  }

  /** Loads a database: its nodes in the order the query gave them, then its relationships; fails on an id that is there twice. */
  method Load(db: Database, rels: seq<Edge>) returns (store: Option<CypherGraphStore>)
    requires Consistent(db) && multiset(rels) == multiset(db.rels)
    ensures store.Some? <==> IdsOnce(db.nodes)
    ensures store.Some? ==> fresh(store.value) && fresh(store.value.inner) && store.value.Valid() && store.value.pending == []
    ensures store.Some? ==> LoadsAs(db, store.value.inner.Contents())
  {
    hide ReadNode, GraphStores.AdjacencyOk, GraphStores.IndexOk, ViewOf;
    var loaded := new CypherGraphStore();
    var ok := LoadNodes(loaded.inner, db.nodes);
    if !ok {
      return None;
    }
    forall e | e in rels ensures e in db.rels {
      assert e in multiset(rels);
    }
    forall id ensures id in loaded.inner.nodes <==> ViewOf(db.nodes, id) != [] {
      ReadAllOf(db.nodes, id);
    }
    LoadRels(loaded.inner, rels);
    forall id
      ensures id in loaded.inner.nodes ==> |ViewOf(db.nodes, id)| == 1 && ReadNode(ViewOf(db.nodes, id)[0]) == loaded.inner.nodes[id]
      ensures id !in loaded.inner.nodes ==> ViewOf(db.nodes, id) == []
    {
      ReadAllOf(db.nodes, id);
    }
    loaded.stored := db;
    assert RunAll(db, []) == db;
    store := Some(loaded);
  }

  method LoadNodes(inner: InMemoryGraphStore, rows: seq<Stored>) returns (ok: bool)
    requires inner.Valid() && inner.Contents() == Graph(map[], [])
    modifies inner
    ensures inner.Valid() && ok == IdsOnce(rows)
    ensures ok ==> inner.Contents() == Graph(ReadAll(rows), [])
  {
    hide ReadNode, GraphStores.AdjacencyOk, GraphStores.IndexOk, ViewOf;
    for i := 0 to |rows|
      invariant inner.Valid() && inner.Contents() == Graph(ReadAll(rows[..i]), []) && IdsOnce(rows[..i])
    {
      assert rows[..i + 1][..i] == rows[..i];
      ReadAllOf(rows[..i], rows[i].id);
      var added := inner.AddNode(rows[i].id, ReadNode(rows[i].props));
      if !added {
        return false;
      }
    }
    assert rows[..|rows|] == rows;
    ok := true;
  }

  method LoadRels(inner: InMemoryGraphStore, rels: seq<Edge>)
    requires inner.Valid() && inner.Contents().edges == [] && forall e :: e in rels ==> e.from in inner.nodes && e.to in inner.nodes
    modifies inner
    ensures inner.Valid() && inner.Contents() == old(inner.Contents()).(edges := rels)
  {
    hide GraphStores.AdjacencyOk, GraphStores.IndexOk;
    for i := 0 to |rels|
      invariant inner.Valid() && inner.Contents() == old(inner.Contents()).(edges := rels[..i])
    {
      assert rels[..i + 1] == rels[..i] + [rels[i]];
      var ok := inner.AddEdge(rels[i]);
    }
    assert rels[..|rels|] == rels;
  }

  // ---- what goes wrong ----------------------------------------------------------------------------------------

  /** An attribute called like a column does not come back; it replaces the column's property, and all else stays. */
  lemma ColumnAttributesAreLost(props: Properties, name: string, value: Scalar)
    requires name in COLUMNS
    ensures ReadNode(props[name := Plain(value)]).attrs == ReadNode(props).attrs - {name}
    ensures name == "type" ==> ReadNode(props[name := Plain(value)]).typeId == if value.Str? then Some(value.s) else None
    ensures name == "fields" ==> ReadNode(props[name := Plain(value)]).fields == []
    ensures forall other :: other in COLUMNS && other != name ==> TextOf(props[name := Plain(value)], other) == TextOf(props, other)
  {
    assert AttrsOf(props[name := Plain(value)]) == AttrsOf(props);
  }

  // ---- retrying a flush ---------------------------------------------------------------------------------------

  function MutateAll(g: Graph, ms: seq<Mutation>): Option<Graph>
    decreases |ms|
  {
    if ms == [] then Some(g)
    else
      match MutateAll(g, ms[..|ms| - 1])
      case None => None
      case Some(h) => Mutate(h, ms[|ms| - 1])
  }

  /** The statements are those recorded for accepted mutations of the graph. */
  ghost predicate LogOf(g: Graph, ms: seq<Mutation>, ops: seq<CypherOp>) {
    && |ops| == |ms|
    && forall i :: 0 <= i < |ms| ==> Logged(g, ms, ops[i], i)
  }

  predicate Logged(g: Graph, ms: seq<Mutation>, op: CypherOp, i: nat)
    requires i < |ms|
  {
    && PlainMutation(ms[i]) && MutateAll(g, ms[..i]).Some? && Mutate(MutateAll(g, ms[..i]).value, ms[i]).Some?
    && op == Recorded(Mutate(MutateAll(g, ms[..i]).value, ms[i]).value, ms[i])
  }

  lemma {:induction false} LogRuns(db: Database, g: Graph, ms: seq<Mutation>, ops: seq<CypherOp>, i: nat)
    requires LoadsAs(db, g) && LogOf(g, ms, ops) && i <= |ms|
    ensures MutateAll(g, ms[..i]).Some? && LoadsAs(RunAll(db, ops[..i]), MutateAll(g, ms[..i]).value)
    decreases i
  {
    hide LoadsAs, Run, Recorded, Mutate, PlainMutation;
    if i > 0 {
      LogRuns(db, g, ms, ops, i - 1);
      assert Logged(g, ms, ops[i - 1], i - 1);
      assert ms[..i][..i - 1] == ms[..i - 1] && ops[..i][..i - 1] == ops[..i - 1];
      RecordedRuns(RunAll(db, ops[..i - 1]), MutateAll(g, ms[..i - 1]).value, ms[i - 1]);
    }
  }

  predicate Deletes(ops: seq<CypherOp>, id: string) {
    DetachDelete(id) in ops
  }

  predicate Clears(ops: seq<CypherOp>, e: Edge) {
    exists i :: 0 <= i < |ops| && Resets(ops[i], e)
  }

  /** Running the statement again is made up for: what it creates is deleted by the log, before or after. */
  predicate Repeatable(ops: seq<CypherOp>, op: CypherOp) {
    match op
    case CreateNode(id, _, _) => Deletes(ops, id)
    case CreateRel(e) => Clears(ops, e)
    case _ => true
  }

  predicate AllRepeatable(ops: seq<CypherOp>, k: nat)
    requires k <= |ops|
  {
    forall i :: 0 <= i < k ==> Repeatable(ops, ops[i])
  }

  function Creates(ops: seq<CypherOp>, id: string): nat
    decreases |ops|
  {
    if ops == [] then 0
    else Creates(ops[..|ops| - 1], id) + if ops[|ops| - 1].CreateNode? && ops[|ops| - 1].id == id then 1 else 0
  }

  /** A delete forgets what was there before. */
  lemma {:induction false} DeleteForgets(v: seq<Properties>, w: seq<Properties>, ops: seq<CypherOp>, id: string)
    requires Deletes(ops, id)
    ensures ViewAfter(v, ops, id) == ViewAfter(w, ops, id)
    decreases |ops|
  {
    var n := |ops| - 1;
    assert ops == ops[..n] + [ops[n]];
    if ops[n] != DetachDelete(id) {
      DeleteForgets(v, w, ops[..n], id);
    }
  }

  lemma {:induction false} CountAfter(v: seq<Properties>, ops: seq<CypherOp>, id: string)
    requires !Deletes(ops, id)
    ensures |ViewAfter(v, ops, id)| == |v| + Creates(ops, id)
    decreases |ops|
  {
    if ops != [] {
      assert ops == ops[..|ops| - 1] + [ops[|ops| - 1]];
      CountAfter(v, ops[..|ops| - 1], id);
    }
  }

  lemma {:induction false} CreatesPrefix(ops: seq<CypherOp>, k: nat, id: string)
    requires k <= |ops|
    ensures Creates(ops[..k], id) <= Creates(ops, id)
    ensures Creates(ops[..k], id) > 0 <==> exists i :: 0 <= i < k && ops[i].CreateNode? && ops[i].id == id
    decreases |ops|, k
  {
    if k < |ops| {
      var n := |ops| - 1;
      CreatesPrefix(ops[..n], k, id);
      assert ops[..n][..k] == ops[..k];
      assert forall i :: 0 <= i < k ==> ops[..n][i] == ops[i];
    } else if k > 0 {
      CreatesPrefix(ops, k - 1, id);
      assert ops[..k] == ops && ops[..k - 1] == ops[..|ops| - 1];
    }
  }

  /** The properties the statements set on a node that was there from the start. */
  function DeltaOf(ops: seq<CypherOp>, id: string): Properties
    decreases |ops|
  {
    if ops == [] then map[]
    else
      var before := DeltaOf(ops[..|ops| - 1], id);
      match ops[|ops| - 1]
      case SetFields(i, fields) => if i == id then before["fields" := FieldsJson(fields)] else before
      case SetDelta(i, name, value) => if i == id then before[name := Plain(value)] else before
      case _ => before
  }

  function WithDelta(view: seq<Properties>, delta: Properties): (r: seq<Properties>)
    ensures |r| == |view|
  {
    seq(|view|, i requires 0 <= i < |view| => view[i] + delta)
  }

  /** Nodes there from the start get the delta; what else is there does not depend on them. */
  lemma {:induction false} DeltaApplies(v: seq<Properties>, ops: seq<CypherOp>, id: string)
    requires !Deletes(ops, id)
    ensures ViewAfter(v, ops, id) == WithDelta(v, DeltaOf(ops, id)) + ViewAfter([], ops, id)
    decreases |ops|
  {
    if ops == [] {
      assert forall i :: 0 <= i < |v| ==> v[i] + map[] == v[i];
      assert ViewAfter([], ops, id) == [] && WithDelta(v, map[]) == v;
    } else {
      var n := |ops| - 1;
      var op := ops[n];
      assert ops == ops[..n] + [op];
      DeltaApplies(v, ops[..n], id);
      SetConcat(WithDelta(v, DeltaOf(ops[..n], id)), ViewAfter([], ops[..n], id), op, id);
      StepDelta(v, DeltaOf(ops[..n], id), ops, id);
    }
  }

  lemma SetConcat(a: seq<Properties>, b: seq<Properties>, op: CypherOp, id: string)
    requires op != DetachDelete(id)
    ensures StepView(a + b, op, id) == (if op.CreateNode? then a else StepView(a, op, id)) + StepView(b, op, id)
  {
  }

  lemma StepDelta(v: seq<Properties>, before: Properties, ops: seq<CypherOp>, id: string)
    requires ops != [] && before == DeltaOf(ops[..|ops| - 1], id) && ops[|ops| - 1] != DetachDelete(id)
    ensures WithDelta(v, DeltaOf(ops, id)) == if ops[|ops| - 1].CreateNode? then WithDelta(v, before) else StepView(WithDelta(v, before), ops[|ops| - 1], id)
  {
    match ops[|ops| - 1]
    case SetFields(_, fields) => DeltaGrows(v, before, "fields", FieldsJson(fields));
    case SetDelta(_, name, value) => DeltaGrows(v, before, name, Plain(value));
    case _ =>
  }

  lemma DeltaGrows(v: seq<Properties>, before: Properties, name: string, value: Property)
    ensures WithDelta(v, before[name := value]) == SetAll(WithDelta(v, before), name, value)
  {
    forall i | 0 <= i < |v| ensures v[i] + before[name := value] == (v[i] + before)[name := value] {
    }
  }

  lemma DeltaTwice(v: seq<Properties>, first: Properties, again: Properties)
    requires first.Keys <= again.Keys
    ensures WithDelta(WithDelta(v, first), again) == WithDelta(v, again)
  {
    forall i | 0 <= i < |v| ensures v[i] + first + again == v[i] + again {
      forall name | name in v[i] + again ensures (v[i] + first + again)[name] == (v[i] + again)[name] {
      }
    }
  }

  lemma {:induction false} DeltaPrefix(ops: seq<CypherOp>, k: nat, id: string)
    requires k <= |ops|
    ensures DeltaOf(ops[..k], id).Keys <= DeltaOf(ops, id).Keys
    decreases |ops|
  {
    if k < |ops| {
      var n := |ops| - 1;
      DeltaPrefix(ops[..n], k, id);
      assert ops[..n][..k] == ops[..k];
    } else {
      assert ops[..k] == ops;
    }
  }

  lemma PrefixDeletes(ops: seq<CypherOp>, k: nat, id: string)
    requires k <= |ops| && !Deletes(ops, id)
    ensures !Deletes(ops[..k], id)
  {
  }

  /** A node whose creation is not repeated, or made up for, is as if the log had run once. */
  lemma ViewRetried(v: seq<Properties>, ops: seq<CypherOp>, k: nat, id: string)
    requires k <= |ops| && (Deletes(ops, id) || Creates(ops[..k], id) == 0)
    ensures ViewAfter(ViewAfter(v, ops[..k], id), ops, id) == ViewAfter(v, ops, id)
  {
    var first := ViewAfter(v, ops[..k], id);
    if Deletes(ops, id) {
      DeleteForgets(first, v, ops, id);
    } else {
      PrefixDeletes(ops, k, id);
      DeltaApplies(v, ops[..k], id);
      CountAfter([], ops[..k], id);
      DeltaApplies(first, ops, id);
      DeltaApplies(v, ops, id);
      DeltaPrefix(ops, k, id);
      hide ViewAfter, DeltaOf;
      assert first == WithDelta(v, DeltaOf(ops[..k], id));
      DeltaTwice(v, DeltaOf(ops[..k], id), DeltaOf(ops, id));
    }
  }

  /** A node created again without being deleted is there twice. */
  lemma ViewDoubled(v: seq<Properties>, ops: seq<CypherOp>, k: nat, id: string)
    requires k <= |ops| && !Deletes(ops, id) && Creates(ops[..k], id) > 0
    ensures |ViewAfter(ViewAfter(v, ops[..k], id), ops, id)| > 1
  {
    PrefixDeletes(ops, k, id);
    CountAfter(v, ops[..k], id);
    CountAfter(ViewAfter(v, ops[..k], id), ops, id);
    CreatesPrefix(ops, k, id);
  }

  predicate NodesRepeatable(ops: seq<CypherOp>, k: nat)
    requires k <= |ops|
  {
    forall i :: 0 <= i < k && ops[i].CreateNode? ==> Deletes(ops, ops[i].id)
  }

  /** How many nodes have an id at some point of the second run, as long as they are not deleted later. */
  lemma CountsAgree(v: seq<Properties>, ops: seq<CypherOp>, k: nat, i: nat, id: string)
    requires k <= |ops| && i <= |ops| && NodesRepeatable(ops, k) && !Deletes(ops[i..], id)
    ensures |ViewAfter(ViewAfter(v, ops[..k], id), ops[..i], id)| == |ViewAfter(v, ops[..i], id)|
  {
    var first := ViewAfter(v, ops[..k], id);
    assert ops == ops[..i] + ops[i..];
    if Deletes(ops[..i], id) {
      DeleteForgets(first, v, ops[..i], id);
    } else {
      PrefixDeletes(ops, k, id);
      CreatesPrefix(ops, k, id);
      CountAfter(v, ops[..k], id);
      CountAfter(first, ops[..i], id);
      CountAfter(v, ops[..i], id);
    }
  }

  /** Without a statement that creates or deletes it, a relationship stays as often as it is. */
  lemma {:induction false} RelUntouched(db: Database, ops: seq<CypherOp>, e: Edge)
    requires !Clears(ops, e) && CreateRel(e) !in ops
    ensures RelCount(RunAll(db, ops), e) == RelCount(db, e)
    decreases |ops|
  {
    hide Run, RelCount;
    if ops != [] {
      var n := |ops| - 1;
      assert ops == ops[..n] + [ops[n]];
      assert forall i :: 0 <= i < n ==> ops[..n][i] == ops[i];
      RelUntouched(db, ops[..n], e);
      RunRels(RunAll(db, ops[..n]), ops[n], e);
    }
  }

  /** One more statement of a log, from any database. */
  lemma RelStep(db: Database, ops: seq<CypherOp>, i: nat, e: Edge)
    requires i < |ops|
    ensures RelCount(RunAll(db, ops[..i + 1]), e)
         == if Resets(ops[i], e) then 0
            else RelCount(RunAll(db, ops[..i]), e)
                 + if ops[i] == CreateRel(e) then |ViewAfter(ViewOf(db.nodes, e.from), ops[..i], e.from)| * |ViewAfter(ViewOf(db.nodes, e.to), ops[..i], e.to)| else 0
  {
    hide Run, RelCount, Resets, ViewOf, ViewAfter;
    assert ops[..i + 1][..i] == ops[..i];
    RunRels(RunAll(db, ops[..i]), ops[i], e);
    RunAllView(db, ops[..i], e.from);
    RunAllView(db, ops[..i], e.to);
  }

  lemma {:induction false} RelsAgree(db: Database, ops: seq<CypherOp>, k: nat, i: nat, e: Edge)
    requires k <= |ops| && i <= |ops| && NodesRepeatable(ops, k) && !Clears(ops[i..], e)
    requires Clears(ops[..i], e) || CreateRel(e) !in ops[..k]
    ensures RelCount(RunAll(RunAll(db, ops[..k]), ops[..i]), e) == RelCount(RunAll(db, ops[..i]), e)
    decreases i
  {
    hide RelCount, ViewOf, ViewAfter, NodesRepeatable;
    var first := RunAll(db, ops[..k]);
    if i == 0 {
      assert !Clears(ops[..k], e) by {
        assert ops[0..] == ops;
      }
      RelUntouched(db, ops[..k], e);
      assert RunAll(first, ops[..0]) == first && RunAll(db, ops[..0]) == db;
    } else {
      RelStep(db, ops, i - 1, e);
      RelStep(first, ops, i - 1, e);
      if !Resets(ops[i - 1], e) {
        assert ops[i - 1..] == [ops[i - 1]] + ops[i..];
        assert !Clears(ops[i - 1..], e);
        assert ops[..i] == ops[..i - 1] + [ops[i - 1]];
        RelsAgree(db, ops, k, i - 1, e);
        assert !Deletes(ops[i - 1..], e.from) && !Deletes(ops[i - 1..], e.to);
        RunAllView(db, ops[..k], e.from);
        RunAllView(db, ops[..k], e.to);
        CountsAgree(ViewOf(db.nodes, e.from), ops, k, i - 1, e.from);
        CountsAgree(ViewOf(db.nodes, e.to), ops, k, i - 1, e.to);
      }
    }
  }

  /** From more nodes the second run creates at least as many relationships. */
  lemma {:induction false} RelsGrow(d0: Database, d1: Database, ops: seq<CypherOp>, i: nat, e: Edge)
    requires i <= |ops| && !Clears(ops, e)
    requires |ViewOf(d0.nodes, e.from)| <= |ViewOf(d1.nodes, e.from)| && |ViewOf(d0.nodes, e.to)| <= |ViewOf(d1.nodes, e.to)|
    ensures RelCount(RunAll(d1, ops[..i]), e) - RelCount(d1, e) >= RelCount(RunAll(d0, ops[..i]), e) - RelCount(d0, e) >= 0
    decreases i
  {
    hide RelCount, ViewOf, ViewAfter, Run;
    if i > 0 {
      RelsGrow(d0, d1, ops, i - 1, e);
      RelStep(d0, ops, i - 1, e);
      RelStep(d1, ops, i - 1, e);
      assert !Resets(ops[i - 1], e);
      EndsGrow(d0, d1, ops, i - 1, e.from, e);
      EndsGrow(d0, d1, ops, i - 1, e.to, e);
      MoreTimesMore(|ViewAfter(ViewOf(d0.nodes, e.from), ops[..i - 1], e.from)|, |ViewAfter(ViewOf(d1.nodes, e.from), ops[..i - 1], e.from)|,
                    |ViewAfter(ViewOf(d0.nodes, e.to), ops[..i - 1], e.to)|, |ViewAfter(ViewOf(d1.nodes, e.to), ops[..i - 1], e.to)|);
    } else {
      assert RunAll(d0, ops[..0]) == d0 && RunAll(d1, ops[..0]) == d1;
    }
  }

  lemma EndsGrow(d0: Database, d1: Database, ops: seq<CypherOp>, i: nat, id: string, e: Edge)
    requires i <= |ops| && !Clears(ops, e) && (id == e.from || id == e.to) && |ViewOf(d0.nodes, id)| <= |ViewOf(d1.nodes, id)|
    ensures |ViewAfter(ViewOf(d0.nodes, id), ops[..i], id)| <= |ViewAfter(ViewOf(d1.nodes, id), ops[..i], id)|
  {
    EndsStay(ops, e);
    PrefixDeletes(ops, i, id);
    CountAfter(ViewOf(d0.nodes, id), ops[..i], id);
    CountAfter(ViewOf(d1.nodes, id), ops[..i], id);
  }

  lemma EndsStay(ops: seq<CypherOp>, e: Edge)
    requires !Clears(ops, e)
    ensures !Deletes(ops, e.from) && !Deletes(ops, e.to)
  {
    forall i | 0 <= i < |ops| ensures ops[i] != DetachDelete(e.from) && ops[i] != DetachDelete(e.to) {
      assert !Resets(ops[i], e);
    }
  }

  lemma MoreTimesMore(a: nat, b: nat, c: nat, d: nat)
    requires a <= b && c <= d
    ensures a * c <= b * d
  {
    assert b * d == a * c + a * (d - c) + (b - a) * d;
  }

  /** A relationship created again without being deleted is there more often. */
  lemma RelDoubled(db: Database, g: Graph, ms: seq<Mutation>, ops: seq<CypherOp>, k: nat, j: nat, e: Edge)
    requires LoadsAs(db, g) && LogOf(g, ms, ops) && j < k <= |ops| && ops[j] == CreateRel(e) && !Clears(ops, e)
    ensures RelCount(RunAll(RunAll(db, ops[..k]), ops), e) > RelCount(RunAll(db, ops), e)
  {
    hide LoadsAs, ViewOf, Recorded, Mutate, Run, RelCount, ViewAfter;
    var first := RunAll(db, ops[..k]);
    EndsStay(ops, e);
    forall id | id == e.from || id == e.to ensures |ViewOf(db.nodes, id)| <= |ViewOf(first.nodes, id)| {
      RunAllView(db, ops[..k], id);
      PrefixDeletes(ops, k, id);
      CountAfter(ViewOf(db.nodes, id), ops[..k], id);
    }
    assert ops[..|ops|] == ops;
    RelsGrow(db, first, ops, |ops|, e);
    CreatedOnce(db, g, ms, ops, j, e);
    assert !Clears(ops[..k], e) by {
      assert forall i :: 0 <= i < k ==> ops[..k][i] == ops[i];
    }
    RelsNeverFall(db, ops[..k], j + 1, e);
    assert ops[..k][..j + 1] == ops[..j + 1];
    assert !Clears(ops[..j], e) by {
      assert forall i :: 0 <= i < j ==> ops[..j][i] == ops[i];
    }
    RelsNeverFall(db, ops[..j], 0, e);
    assert RunAll(db, ops[..j][..0]) == db;
  }

  lemma {:induction false} RelsNeverFall(db: Database, ops: seq<CypherOp>, i: nat, e: Edge)
    requires i <= |ops| && !Clears(ops, e)
    ensures RelCount(RunAll(db, ops[..i]), e) <= RelCount(RunAll(db, ops), e)
    decreases |ops| - i
  {
    hide RelCount, ViewOf, ViewAfter, Run;
    if i < |ops| {
      RelStep(db, ops, i, e);
      assert !Resets(ops[i], e);
      RelsNeverFall(db, ops, i + 1, e);
    } else {
      assert ops[..i] == ops;
    }
  }

  /** A recorded creation finds both its ends. */
  lemma CreatedOnce(db: Database, g: Graph, ms: seq<Mutation>, ops: seq<CypherOp>, j: nat, e: Edge)
    requires LoadsAs(db, g) && LogOf(g, ms, ops) && j < |ops| && ops[j] == CreateRel(e)
    ensures RelCount(RunAll(db, ops[..j + 1]), e) > RelCount(RunAll(db, ops[..j]), e)
  {
    hide RelCount, Run, ReadNode, ColumnsOf;
    assert Logged(g, ms, ops[j], j);
    LogRuns(db, g, ms, ops, j);
    var here := RunAll(db, ops[..j]);
    assert ms[j] == AddEdge(e);
    assert e.from in MutateAll(g, ms[..j]).value.nodes && e.to in MutateAll(g, ms[..j]).value.nodes;
    assert |ViewOf(here.nodes, e.from)| == 1 && |ViewOf(here.nodes, e.to)| == 1;
    RunAllView(db, ops[..j], e.from);
    RunAllView(db, ops[..j], e.to);
    RelStep(db, ops, j, e);
  }

  lemma RetryLoads(db: Database, g: Graph, ops: seq<CypherOp>, k: nat, h: Graph)
    requires k <= |ops| && LoadsAs(RunAll(db, ops), h) && AllRepeatable(ops, k)
    ensures LoadsAs(RunAll(RunAll(db, ops[..k]), ops), h)
  {
    hide ReadNode, Run, ViewOf, ViewAfter;
    var once, twice := RunAll(db, ops), RunAll(RunAll(db, ops[..k]), ops);
    forall id ensures ViewOf(twice.nodes, id) == ViewOf(once.nodes, id) {
      RunAllView(db, ops, id);
      RunAllView(db, ops[..k], id);
      RunAllView(RunAll(db, ops[..k]), ops, id);
      CreatesPrefix(ops, k, id);
      ViewRetried(ViewOf(db.nodes, id), ops, k, id);
    }
    forall e ensures multiset(twice.rels)[e] == multiset(once.rels)[e] {
      RelRetried(db, ops, k, e);
    }
  }

  lemma RelRetried(db: Database, ops: seq<CypherOp>, k: nat, e: Edge)
    requires k <= |ops| && AllRepeatable(ops, k)
    ensures RelCount(RunAll(RunAll(db, ops[..k]), ops), e) == RelCount(RunAll(db, ops), e)
  {
    hide Run, ViewOf, ViewAfter;
    assert ops[..|ops|] == ops && ops[|ops|..] == [];
    if CreateRel(e) in ops[..k] {
      var i :| 0 <= i < k && ops[..k][i] == CreateRel(e);
      assert Repeatable(ops, ops[i]);
    }
    assert NodesRepeatable(ops, k);
    RelsAgree(db, ops, k, |ops|, e);
  }

  /**
   A flush of recorded statements stopped after the first k and was retried from the start. The database loads equal to
   the working copy all the same if and only if whatever those k create, the log deletes somewhere: every node by a delete
   of its id, every relationship by a delete of it or of one of its ends.
   */
  lemma RetryIsHarmlessIff(db: Database, g: Graph, ms: seq<Mutation>, ops: seq<CypherOp>, k: nat)
    requires LoadsAs(db, g) && LogOf(g, ms, ops) && k <= |ops|
    ensures MutateAll(g, ms).Some? && LoadsAs(RunAll(db, ops), MutateAll(g, ms).value)
    ensures LoadsAs(RunAll(RunAll(db, ops[..k]), ops), MutateAll(g, ms).value) <==> AllRepeatable(ops, k)
  {
    assert ms[..|ms|] == ms && ops[..|ops|] == ops;
    LogRuns(db, g, ms, ops, |ms|);
    var h := MutateAll(g, ms).value;
    if AllRepeatable(ops, k) {
      RetryLoads(db, g, ops, k, h);
    } else {
      var j :| 0 <= j < k && !Repeatable(ops, ops[j]);
      RetryFails(db, g, ms, ops, k, j, h);
    }
  }

  lemma RetryFails(db: Database, g: Graph, ms: seq<Mutation>, ops: seq<CypherOp>, k: nat, j: nat, h: Graph)
    requires LoadsAs(db, g) && LogOf(g, ms, ops) && j < k <= |ops| && !Repeatable(ops, ops[j]) && LoadsAs(RunAll(db, ops), h)
    ensures !LoadsAs(RunAll(RunAll(db, ops[..k]), ops), h)
  {
    hide ReadNode, Run, ViewOf, ViewAfter, LogOf;
    var first := RunAll(db, ops[..k]);
    if ops[j].CreateNode? {
      var id := ops[j].id;
      CreatesPrefix(ops, k, id);
      ViewDoubled(ViewOf(db.nodes, id), ops, k, id);
      RunAllView(db, ops[..k], id);
      RunAllView(first, ops, id);
    } else {
      RelDoubled(db, g, ms, ops, k, j, ops[j].edge);
    }
  }
}
