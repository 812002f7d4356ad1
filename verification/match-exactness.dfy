/**
 A compiled MATCH yields exactly the matches of its pattern.

 `RowsAreJoins` describes the rows of a fixed-length pattern over any input rows: one per input row and choice of nodes
 that fits it, showing exactly those nodes. `AssignmentsAreSolutions` reads the same for a whole pattern on its own: the
 assignments its rows show are the assignments under which every path holds in the graph, provided the anonymous first
 nodes of different paths are the same node. That proviso is real (`AnonymousAnchorsAreJoined`): every path calls an
 anonymous first node by the same name, and the join of two paths rejects rows that disagree on it.
 */
module MatchExactness {
  import opened Wrappers
  import opened NumberText
  import opened Text
  import opened Values
  import opened Query
  import opened Evaluation
  import opened Graphs
  import opened Seqs
  import opened Operators
  import opened Planner
  import opened PushDownSoundness
  import VarLength

  // ---- what a pattern asks for --------------------------------------------------------------------------------

  predicate HasProperties(n: Node, properties: seq<Property>) {
    forall q :: q in properties ==> q.key in n.attrs && n.attrs[q.key] == q.value
  }

  predicate NodeMatches(schema: Schema, p: NodePattern, n: Node) {
    schema.HasLabel(n, p.labelName) && HasProperties(n, p.properties)
  }

  /** The nodes satisfy the path: labels, inline properties and one edge per relationship. */
  ghost predicate PathHolds(schema: Schema, g: Graph, path: PatternPath, ns: seq<Node>) {
    && |ns| == |path.nodes| == |path.rels| + 1
    && (forall i :: 0 <= i < |ns| ==> ns[i] in g.nodes && NodeMatches(schema, path.nodes[i], ns[i]))
    && (forall i :: 0 <= i < |path.rels| ==>
          ns[i + 1] in Expand(schema, g, ns[i].id, path.rels[i].relType, path.rels[i].direction))
  }

  // ---- joining a row with nodes -------------------------------------------------------------------------------

  /** The row after the i-th relationship has reached n. */
  function StepRow(path: PatternPath, i: nat, row: Row, n: Node, bound: set<string>): Row
    requires path.Valid() && i < |path.rels|
  {
    var from, to := NodeName(path, i), NodeName(path, i + 1);
    var rel := path.rels[i];
    var fromId := if from in row && row[from].NodeV? then row[from].node.id else "";
    var edge := VarLength.Oriented(rel.direction, rel.relType, fromId, n.id);
    if IsBound(bound, path.nodes[i + 1].variable) then WithRel(row, rel.variable, edge)
    else WithRel(row[to := NodeV(n)], rel.variable, edge)
  }

  /** The i-th relationship of the path leads from the row's i-th node to n. */
  ghost predicate StepHolds(schema: Schema, g: Graph, path: PatternPath, i: nat, row: Row, n: Node, bound: set<string>)
    requires path.Valid() && i < |path.rels|
  {
    var from, to := NodeName(path, i), NodeName(path, i + 1);
    var rel := path.rels[i];
    && from in row && row[from].NodeV?
    && n in Expand(schema, g, row[from].node.id, rel.relType, rel.direction)
    && NodeMatches(schema, path.nodes[i + 1], n)
    && (IsBound(bound, path.nodes[i + 1].variable) ==> to in row && row[to] == NodeV(n))
  }

  /** A chain of steps from the i-th node on. */
  ghost predicate ChainHolds(schema: Schema, g: Graph, path: PatternPath, i: nat, row: Row, tail: seq<Node>, bound: set<string>)
    requires path.Valid() && i <= |path.rels|
    decreases |tail|
  {
    if i == |path.rels| then tail == []
    else
      && tail != []
      && StepHolds(schema, g, path, i, row, tail[0], bound)
      && ChainHolds(schema, g, path, i + 1, StepRow(path, i, row, tail[0], bound), tail[1..], Bind(bound, path.nodes[i + 1].variable))
  }

  function ChainRow(path: PatternPath, i: nat, row: Row, tail: seq<Node>, bound: set<string>): Row
    requires path.Valid() && i <= |path.rels|
    decreases |tail|
  {
    if i == |path.rels| || tail == [] then row
    else ChainRow(path, i + 1, StepRow(path, i, row, tail[0], bound), tail[1..], Bind(bound, path.nodes[i + 1].variable))
  }

  predicate Reused(path: PatternPath, bound: set<string>, hasInput: bool)
    requires path.Valid()
  {
    IsBound(bound, path.nodes[0].variable) && hasInput
  }

  /** The first node: the one already bound, or any node the row does not hold a different one for. */
  ghost predicate AnchorHolds(schema: Schema, g: Graph, path: PatternPath, row: Row, n: Node, bound: set<string>, hasInput: bool)
    requires path.Valid()
  {
    var name := NodeName(path, 0);
    && n in g.nodes && NodeMatches(schema, path.nodes[0], n)
    && if Reused(path, bound, hasInput) then name in row && row[name] == NodeV(n)
       else name in row ==> GroupKey(row[name]) == NodeKey(n)
  }

  function AnchorRow(path: PatternPath, row: Row, n: Node, bound: set<string>, hasInput: bool): Row
    requires path.Valid()
  {
    if Reused(path, bound, hasInput) then row else row[NodeName(path, 0) := NodeV(n)]
  }

  ghost predicate PathJoins(schema: Schema, g: Graph, path: PatternPath, row: Row, ns: seq<Node>, bound: set<string>, hasInput: bool)
    requires path.Valid()
  {
    && ns != []
    && AnchorHolds(schema, g, path, row, ns[0], bound, hasInput)
    && ChainHolds(schema, g, path, 0, AnchorRow(path, row, ns[0], bound, hasInput), ns[1..], Bind(bound, path.nodes[0].variable))
  }

  function PathRow(path: PatternPath, row: Row, ns: seq<Node>, bound: set<string>, hasInput: bool): Row
    requires path.Valid()
  {
    if ns == [] then row
    else ChainRow(path, 0, AnchorRow(path, row, ns[0], bound, hasInput), ns[1..], Bind(bound, path.nodes[0].variable))
  }

  /** What is bound once the relationships from the i-th on have been followed. */
  function BoundFrom(path: PatternPath, i: nat, bound: set<string>): set<string>
    requires path.Valid() && i <= |path.rels|
    decreases |path.rels| - i
  {
    if i == |path.rels| then bound else BoundFrom(path, i + 1, Bind(bound, path.nodes[i + 1].variable))
  }

  function BoundAfter(path: PatternPath, bound: set<string>): set<string>
    requires path.Valid()
  {
    BoundFrom(path, 0, Bind(bound, path.nodes[0].variable))
  }

  ghost predicate PathsJoin(schema: Schema, g: Graph, paths: seq<PatternPath>, row: Row, nss: seq<seq<Node>>, bound: set<string>, hasInput: bool)
    requires forall p :: p in paths ==> p.Valid()
    decreases |paths|
  {
    if paths == [] then nss == []
    else
      && nss != []
      && PathJoins(schema, g, paths[0], row, nss[0], bound, hasInput)
      && PathsJoin(schema, g, paths[1..], PathRow(paths[0], row, nss[0], bound, hasInput), nss[1..], BoundAfter(paths[0], bound), true)
  }

  function PathsRow(paths: seq<PatternPath>, row: Row, nss: seq<seq<Node>>, bound: set<string>, hasInput: bool): Row
    requires forall p :: p in paths ==> p.Valid()
    decreases |paths|
  {
    if paths == [] || nss == [] then row
    else PathsRow(paths[1..], PathRow(paths[0], row, nss[0], bound, hasInput), nss[1..], BoundAfter(paths[0], bound), true)
  }

  // ---- one operator at a time ---------------------------------------------------------------------------------

  /** Every bound pattern variable holds a node of the graph. */
  ghost predicate HoldsNodes(g: Graph, row: Row, bound: set<string>, nodeVars: set<string>) {
    forall v :: v in bound && v in nodeVars ==> v in row && row[v].NodeV? && row[v].node in g.nodes
  }

  ghost predicate AllHold(g: Graph, rows: seq<Row>, bound: set<string>, nodeVars: set<string>) {
    forall row: Row :: row in rows ==> HoldsNodes(g, row, bound, nodeVars)
  }

  /** `name` holds a node of the graph in every row. */
  ghost predicate NodeAt(g: Graph, rows: seq<Row>, name: string) {
    forall row: Row :: row in rows ==> name in row && row[name].NodeV? && row[name].node in g.nodes
  }

  lemma SameIdSameNode(g: Graph, a: Node, b: Node)
    requires g.Valid() && a in g.nodes && b in g.nodes && a.id == b.id
    ensures a == b
  {
  }

  lemma FindInGraph(g: Graph, n: Node)
    requires g.Valid() && n in g.nodes
    ensures Find(g.nodes, n.id) == Some(n)
  {
    FindIs(g.nodes, n.id);
    SameIdSameNode(g, n, Find(g.nodes, n.id).value);
  }

  lemma FilteredNodeAt(g: Graph, rows: seq<Row>, p: Row -> bool, name: string)
    requires NodeAt(g, rows, name)
    ensures NodeAt(g, Filter(rows, p), name)
  {
    forall row: Row | row in Filter(rows, p) ensures row in rows {
      FilterMember(rows, p, row);
    }
  }

  /** The rows a fold of property tests lets through. */
  lemma {:induction false} FoldedRows(cx: Context, g: Graph, op: Op, properties: seq<Property>, name: string, row: Row)
    requires NodeAt(g, Rows(op, cx, g, map[]), name)
    ensures row in Rows(FoldProperties(op, properties, name), cx, g, map[])
       <==> row in Rows(op, cx, g, map[]) && HasProperties(row[name].node, properties)
    decreases |properties|
  {
    hide Rows, Passes, PropertyTest;
    if properties != [] {
      var test := PropertyTest(name, properties[0]);
      var rows := Rows(op, cx, g, map[]);
      RowsOfFilter(op, test, cx, g, map[]);
      FilterMember(rows, ConditionTest(test, cx.env), row);
      FilteredNodeAt(g, rows, ConditionTest(test, cx.env), name);
      FoldedRows(cx, g, FilterOp(op, test), properties[1..], name, row);
      if row in rows {
        PropertyTestMeans(name, properties[0], row, cx.env);
        assert properties == [properties[0]] + properties[1..];
      }
    }
  }

  lemma LabelledRows(cx: Context, g: Graph, op: Op, p: NodePattern, name: string, row: Row)
    requires g.Valid() && NodeAt(g, Rows(op, cx, g, map[]), name)
    ensures row in Rows(FoldReused(op, p, name), cx, g, map[])
       <==> row in Rows(op, cx, g, map[]) && NodeMatches(cx.schema, p, row[name].node)
  {
    hide Rows, HasProperties, FoldProperties;
    var rows := Rows(op, cx, g, map[]);
    if p.labelName.None? {
      FoldedRows(cx, g, op, p.properties, name, row);
    } else {
      var l := p.labelName.value;
      RowsOfLabelFilter(op, name, l, cx, g, map[]);
      FilterMember(rows, LabelTest(cx.schema, g, name, l), row);
      FilteredNodeAt(g, rows, LabelTest(cx.schema, g, name, l), name);
      if row in rows {
        FindInGraph(g, row[name].node);
      }
      FoldedRows(cx, g, LabelFilter(op, name, l), p.properties, name, row);
    }
  }

  /** A relationship's variable is neither a node variable nor a generated name. */
  ghost predicate Apart(nodeVars: set<string>, path: PatternPath) {
    NoAnonymous(nodeVars) && NamesApart(nodeVars, path)
  }

  lemma NamesDiffer(nodeVars: set<string>, path: PatternPath, i: nat, j: nat)
    requires path.Valid() && i < |path.rels| && j < |path.nodes| && Apart(nodeVars, path)
    ensures path.rels[i].variable.Some? ==> path.rels[i].variable.value != NodeName(path, j) && path.rels[i].variable.value !in nodeVars
    ensures path.nodes[j].variable.Some? ==> path.nodes[j].variable.value in nodeVars
    ensures path.nodes[j].variable.None? ==> NodeName(path, j) !in nodeVars
  {
    hide Digits;
    assert path.rels[i] in path.rels && path.nodes[j] in path.nodes;
  }

  // ---- one relationship ---------------------------------------------------------------------------------------

  ghost predicate Reached(schema: Schema, g: Graph, row: Row, from: string, rel: RelPattern, n: Node) {
    from in row && row[from].NodeV? && n in Expand(schema, g, row[from].node.id, rel.relType, rel.direction)
  }

  /** `next` is a row of `rows` after a step to a node the relationship reaches from it. */
  ghost predicate Stepped(cx: Context, g: Graph, rows: seq<Row>, path: PatternPath, i: nat, bound: set<string>, next: Row)
    requires path.Valid() && i < |path.rels|
  {
    exists row: Row, n: Node :: row in rows && StepHolds(cx.schema, g, path, i, row, n, bound) && next == StepRow(path, i, row, n, bound)
  }

  function ReachedRow(row: Row, from: string, to: string, rel: RelPattern, n: Node): Row {
    var fromId := if from in row && row[from].NodeV? then row[from].node.id else "";
    WithRel(row[to := NodeV(n)], rel.variable, VarLength.Oriented(rel.direction, rel.relType, fromId, n.id))
  }

  lemma ExpandRowSource(schema: Schema, g: Graph, row: Row, from: string, to: string, rel: RelPattern, toLabel: Option<string>, next: Row)
    returns (n: Node)
    requires next in ExpandRow(schema, g, row, from, to, rel, toLabel)
    ensures Reached(schema, g, row, from, rel, n) && schema.HasLabel(n, toLabel) && next == ReachedRow(row, from, to, rel, n)
  {
    hide Expand;
    var id := row[from].node.id;
    var targets := Expand(schema, g, id, rel.relType, rel.direction);
    FlatMapMember(targets, ExpandTo(schema, row, id, to, rel, toLabel), next);
    n :| n in targets && next in ExpandTo(schema, row, id, to, rel, toLabel)(n);
  }

  lemma ExpandRowTarget(schema: Schema, g: Graph, row: Row, from: string, to: string, rel: RelPattern, toLabel: Option<string>, n: Node)
    requires Reached(schema, g, row, from, rel, n) && schema.HasLabel(n, toLabel)
    ensures ReachedRow(row, from, to, rel, n) in ExpandRow(schema, g, row, from, to, rel, toLabel)
  {
    hide Expand;
    var id := row[from].node.id;
    var targets := Expand(schema, g, id, rel.relType, rel.direction);
    var next := ReachedRow(row, from, to, rel, n);
    FlatMapMember(targets, ExpandTo(schema, row, id, to, rel, toLabel), next);
    assert next in ExpandTo(schema, row, id, to, rel, toLabel)(n);
  }

  /** A row of an expansion comes from a row below it and a node with the label. */
  lemma ExpandSource(cx: Context, g: Graph, op: Op, from: string, to: string, rel: RelPattern, toLabel: Option<string>, next: Row)
    returns (row: Row, n: Node)
    requires next in Rows(ExpandOp(op, from, to, rel, toLabel), cx, g, map[])
    ensures row in Rows(op, cx, g, map[]) && Reached(cx.schema, g, row, from, rel, n) && cx.schema.HasLabel(n, toLabel)
    ensures next == ReachedRow(row, from, to, rel, n)
  {
    hide Rows, Reached, ReachedRow, ExpandRow;
    var rows, each := Rows(op, cx, g, map[]), ExpandEach(cx.schema, g, from, to, rel, toLabel);
    RowsOfExpand(op, from, to, rel, toLabel, cx, g, map[]);
    FlatMapMember(rows, each, next);
    row :| row in rows && next in each(row);
    n := ExpandRowSource(cx.schema, g, row, from, to, rel, toLabel, next);
  }

  lemma ExpandTarget(cx: Context, g: Graph, op: Op, from: string, to: string, rel: RelPattern, toLabel: Option<string>, row: Row, n: Node)
    requires row in Rows(op, cx, g, map[]) && Reached(cx.schema, g, row, from, rel, n) && cx.schema.HasLabel(n, toLabel)
    ensures ReachedRow(row, from, to, rel, n) in Rows(ExpandOp(op, from, to, rel, toLabel), cx, g, map[])
  {
    hide Rows, Reached, ReachedRow, ExpandRow;
    var rows, each := Rows(op, cx, g, map[]), ExpandEach(cx.schema, g, from, to, rel, toLabel);
    RowsOfExpand(op, from, to, rel, toLabel, cx, g, map[]);
    FlatMapMember(rows, each, ReachedRow(row, from, to, rel, n));
    ExpandRowTarget(cx.schema, g, row, from, to, rel, toLabel, n);
    assert ReachedRow(row, from, to, rel, n) in each(row);
  }

  lemma ExpandNodeAt(cx: Context, g: Graph, op: Op, from: string, to: string, rel: RelPattern, toLabel: Option<string>)
    requires rel.variable != Some(to)
    ensures NodeAt(g, Rows(ExpandOp(op, from, to, rel, toLabel), cx, g, map[]), to)
  {
    hide Rows, Expand;
    forall next: Row | next in Rows(ExpandOp(op, from, to, rel, toLabel), cx, g, map[])
      ensures to in next && next[to].NodeV? && next[to].node in g.nodes
    {
      var row, n := ExpandSource(cx, g, op, from, to, rel, toLabel, next);
      ExpandMembers(cx.schema, g, row[from].node.id, rel.relType, rel.direction, n);
    }
  }

  lemma ExpandedRows(cx: Context, g: Graph, op: Op, path: PatternPath, i: nat, bound: set<string>, nodeVars: set<string>, next: Row)
    requires path.Valid() && i < |path.rels| && g.Valid() && Apart(nodeVars, path)
    requires !IsBound(bound, path.nodes[i + 1].variable)
    ensures next in Rows(FoldProperties(ExpandOp(op, NodeName(path, i), NodeName(path, i + 1), path.rels[i], path.nodes[i + 1].labelName),
                                        path.nodes[i + 1].properties, NodeName(path, i + 1)), cx, g, map[])
       <==> Stepped(cx, g, Rows(op, cx, g, map[]), path, i, bound, next)
  {
    hide Rows, HasProperties, FoldProperties, NodeName, Apart, Expand;
    var from, to, rel, p := NodeName(path, i), NodeName(path, i + 1), path.rels[i], path.nodes[i + 1];
    var step := ExpandOp(op, from, to, rel, p.labelName);
    NamesDiffer(nodeVars, path, i, i + 1);
    ExpandNodeAt(cx, g, op, from, to, rel, p.labelName);
    FoldedRows(cx, g, step, p.properties, to, next);
    if next in Rows(FoldProperties(step, p.properties, to), cx, g, map[]) {
      var row, n := ExpandSource(cx, g, op, from, to, rel, p.labelName, next);
      assert StepHolds(cx.schema, g, path, i, row, n, bound) && next == StepRow(path, i, row, n, bound);
    }
    if Stepped(cx, g, Rows(op, cx, g, map[]), path, i, bound, next) {
      var row: Row, n: Node :| row in Rows(op, cx, g, map[]) && StepHolds(cx.schema, g, path, i, row, n, bound) && next == StepRow(path, i, row, n, bound);
      ExpandTarget(cx, g, op, from, to, rel, p.labelName, row, n);
    }
  }

  /** A hop into a bound node keeps the row when the hop reaches that very node. */
  lemma IntoSource(cx: Context, g: Graph, op: Op, from: string, to: string, rel: RelPattern, next: Row) returns (row: Row, n: Node)
    requires g.Valid() && NodeAt(g, Rows(op, cx, g, map[]), to)
    requires next in Rows(ExpandInto(op, from, to, rel), cx, g, map[])
    ensures row in Rows(op, cx, g, map[]) && Reached(cx.schema, g, row, from, rel, n) && row[to] == NodeV(n)
    ensures next == WithRel(row, rel.variable, VarLength.Oriented(rel.direction, rel.relType, row[from].node.id, n.id))
  {
    hide Rows, Expand;
    var rows, each := Rows(op, cx, g, map[]), ExpandIntoEach(cx.schema, g, from, to, rel);
    RowsOfExpandInto(op, from, to, rel, cx, g, map[]);
    FlatMapMember(rows, each, next);
    row :| row in rows && next in each(row);
    n :| n in Expand(cx.schema, g, row[from].node.id, rel.relType, rel.direction) && n.id == row[to].node.id;
    ExpandMembers(cx.schema, g, row[from].node.id, rel.relType, rel.direction, n);
    SameIdSameNode(g, n, row[to].node);
  }

  lemma IntoTarget(cx: Context, g: Graph, op: Op, from: string, to: string, rel: RelPattern, row: Row, n: Node)
    requires row in Rows(op, cx, g, map[]) && Reached(cx.schema, g, row, from, rel, n) && to in row && row[to] == NodeV(n)
    ensures WithRel(row, rel.variable, VarLength.Oriented(rel.direction, rel.relType, row[from].node.id, n.id))
         in Rows(ExpandInto(op, from, to, rel), cx, g, map[])
  {
    hide Rows, Expand;
    var rows, each := Rows(op, cx, g, map[]), ExpandIntoEach(cx.schema, g, from, to, rel);
    var next := WithRel(row, rel.variable, VarLength.Oriented(rel.direction, rel.relType, row[from].node.id, n.id));
    RowsOfExpandInto(op, from, to, rel, cx, g, map[]);
    FlatMapMember(rows, each, next);
    assert Reaches(Expand(cx.schema, g, row[from].node.id, rel.relType, rel.direction), n.id);
    assert next in each(row);
  }

  lemma IntoNodeAt(cx: Context, g: Graph, op: Op, from: string, to: string, rel: RelPattern)
    requires g.Valid() && NodeAt(g, Rows(op, cx, g, map[]), to) && rel.variable != Some(to)
    ensures NodeAt(g, Rows(ExpandInto(op, from, to, rel), cx, g, map[]), to)
  {
    hide Rows, Expand;
    forall next: Row | next in Rows(ExpandInto(op, from, to, rel), cx, g, map[])
      ensures to in next && next[to].NodeV? && next[to].node in g.nodes
    {
      var row, n := IntoSource(cx, g, op, from, to, rel, next);
    }
  }

  lemma IntoRows(cx: Context, g: Graph, op: Op, path: PatternPath, i: nat, bound: set<string>, nodeVars: set<string>, next: Row)
    requires path.Valid() && i < |path.rels| && g.Valid() && Apart(nodeVars, path)
    requires IsBound(bound, path.nodes[i + 1].variable) && AllHold(g, Rows(op, cx, g, map[]), bound, nodeVars)
    ensures next in Rows(FoldReused(ExpandInto(op, NodeName(path, i), NodeName(path, i + 1), path.rels[i]), path.nodes[i + 1],
                                    NodeName(path, i + 1)), cx, g, map[])
       <==> Stepped(cx, g, Rows(op, cx, g, map[]), path, i, bound, next)
  {
    hide Rows, HasProperties, FoldReused, Apart, Expand, Digits;
    var from, to, rel, p := NodeName(path, i), NodeName(path, i + 1), path.rels[i], path.nodes[i + 1];
    var step := ExpandInto(op, from, to, rel);
    var rows := Rows(op, cx, g, map[]);
    NamesDiffer(nodeVars, path, i, i + 1);
    forall row: Row | row in rows ensures to in row && row[to].NodeV? && row[to].node in g.nodes {
      assert HoldsNodes(g, row, bound, nodeVars);
    }
    IntoNodeAt(cx, g, op, from, to, rel);
    LabelledRows(cx, g, step, p, to, next);
    if next in Rows(FoldReused(step, p, to), cx, g, map[]) {
      var row, n := IntoSource(cx, g, op, from, to, rel, next);
      assert StepHolds(cx.schema, g, path, i, row, n, bound) && next == StepRow(path, i, row, n, bound);
    }
    if Stepped(cx, g, rows, path, i, bound, next) {
      var row: Row, n: Node :| row in rows && StepHolds(cx.schema, g, path, i, row, n, bound) && next == StepRow(path, i, row, n, bound);
      IntoTarget(cx, g, op, from, to, rel, row, n);
    }
  }

  predicate FixedLength(path: PatternPath) {
    forall r :: r in path.rels ==> !r.IsVariableLength()
  }

  function Cx(options: Options): Context {
    Context(options.schema, options.env)
  }

  lemma RelRows(options: Options, g: Graph, op: Op, path: PatternPath, i: nat, bound: set<string>, nodeVars: set<string>, next: Row)
    requires path.Valid() && FixedLength(path) && i < |path.rels| && g.Valid() && Apart(nodeVars, path)
    requires AllHold(g, Rows(op, Cx(options), g, map[]), bound, nodeVars)
    ensures CompileRel(options, op, path, i, bound).Ok?
    ensures CompileRel(options, op, path, i, bound).value.bound == Bind(bound, path.nodes[i + 1].variable)
    ensures next in Rows(CompileRel(options, op, path, i, bound).value.Input(), Cx(options), g, map[])
       <==> Stepped(Cx(options), g, Rows(op, Cx(options), g, map[]), path, i, bound, next)
  {
    hide Rows, FoldProperties, FoldReused, NodeName, Apart, AllHold, Stepped;
    assert path.rels[i] in path.rels;
    if IsBound(bound, path.nodes[i + 1].variable) {
      IntoRows(Cx(options), g, op, path, i, bound, nodeVars, next);
    } else {
      ExpandedRows(Cx(options), g, op, path, i, bound, nodeVars, next);
    }
  }

  lemma StepHoldsNodes(schema: Schema, g: Graph, path: PatternPath, i: nat, row: Row, n: Node, bound: set<string>, nodeVars: set<string>)
    requires path.Valid() && i < |path.rels| && Apart(nodeVars, path)
    requires HoldsNodes(g, row, bound, nodeVars) && StepHolds(schema, g, path, i, row, n, bound)
    ensures HoldsNodes(g, StepRow(path, i, row, n, bound), Bind(bound, path.nodes[i + 1].variable), nodeVars)
    ensures n in g.nodes
    ensures NodeName(path, i + 1) in StepRow(path, i, row, n, bound) && StepRow(path, i, row, n, bound)[NodeName(path, i + 1)] == NodeV(n)
  {
    hide Expand, Digits, Apart, NodeMatches;
    NamesDiffer(nodeVars, path, i, i + 1);
    ExpandMembers(schema, g, row[NodeName(path, i)].node.id, path.rels[i].relType, path.rels[i].direction, n);
  }

  lemma RelAllHold(options: Options, g: Graph, op: Op, path: PatternPath, i: nat, bound: set<string>, nodeVars: set<string>)
    requires path.Valid() && FixedLength(path) && i < |path.rels| && g.Valid() && Apart(nodeVars, path)
    requires AllHold(g, Rows(op, Cx(options), g, map[]), bound, nodeVars)
    ensures CompileRel(options, op, path, i, bound).Ok?
    ensures AllHold(g, Rows(CompileRel(options, op, path, i, bound).value.Input(), Cx(options), g, map[]),
                    Bind(bound, path.nodes[i + 1].variable), nodeVars)
  {
    hide Rows, CompileRel, Apart, FixedLength, StepHolds, StepRow, HoldsNodes, Bind;
    var rows := Rows(op, Cx(options), g, map[]);
    RelRows(options, g, op, path, i, bound, nodeVars, map[]);
    forall next: Row | next in Rows(CompileRel(options, op, path, i, bound).value.Input(), Cx(options), g, map[])
      ensures HoldsNodes(g, next, Bind(bound, path.nodes[i + 1].variable), nodeVars)
    {
      RelRows(options, g, op, path, i, bound, nodeVars, next);
      var row: Row, n: Node :| row in rows && StepHolds(options.schema, g, path, i, row, n, bound) && next == StepRow(path, i, row, n, bound);
      StepHoldsNodes(options.schema, g, path, i, row, n, bound, nodeVars);
    }
  }

  /** `next` is a row of `rows` after a chain of steps. */
  ghost predicate Chained(schema: Schema, g: Graph, rows: seq<Row>, path: PatternPath, i: nat, bound: set<string>, next: Row)
    requires path.Valid() && i <= |path.rels|
  {
    exists row: Row, tail: seq<Node> :: row in rows && ChainHolds(schema, g, path, i, row, tail, bound) && next == ChainRow(path, i, row, tail, bound)
  }

  lemma ChainSplits(cx: Context, g: Graph, rows: seq<Row>, mids: seq<Row>, path: PatternPath, i: nat, bound: set<string>, next: Row)
    requires path.Valid() && i < |path.rels|
    requires forall mid: Row :: mid in mids <==> Stepped(cx, g, rows, path, i, bound, mid)
    ensures Chained(cx.schema, g, rows, path, i, bound, next)
       <==> Chained(cx.schema, g, mids, path, i + 1, Bind(bound, path.nodes[i + 1].variable), next)
  {
    hide StepHolds, StepRow, Bind;
    var more := Bind(bound, path.nodes[i + 1].variable);
    if Chained(cx.schema, g, rows, path, i, bound, next) {
      var row: Row, tail: seq<Node> :| row in rows && ChainHolds(cx.schema, g, path, i, row, tail, bound) && next == ChainRow(path, i, row, tail, bound);
      var mid := StepRow(path, i, row, tail[0], bound);
      assert Stepped(cx, g, rows, path, i, bound, mid);
      assert mid in mids && ChainHolds(cx.schema, g, path, i + 1, mid, tail[1..], more);
    }
    if Chained(cx.schema, g, mids, path, i + 1, more, next) {
      var mid: Row, tail: seq<Node> :| mid in mids && ChainHolds(cx.schema, g, path, i + 1, mid, tail, more) && next == ChainRow(path, i + 1, mid, tail, more);
      assert Stepped(cx, g, rows, path, i, bound, mid);
      var row: Row, n: Node :| row in rows && StepHolds(cx.schema, g, path, i, row, n, bound) && mid == StepRow(path, i, row, n, bound);
      assert ([n] + tail)[0] == n && ([n] + tail)[1..] == tail;
      assert ChainHolds(cx.schema, g, path, i, row, [n] + tail, bound);
      assert next == ChainRow(path, i, row, [n] + tail, bound);
    }
  }

  lemma {:induction false} ChainRows(options: Options, g: Graph, op: Op, path: PatternPath, i: nat, bound: set<string>, nodeVars: set<string>, next: Row)
    requires path.Valid() && FixedLength(path) && i <= |path.rels| && g.Valid() && Apart(nodeVars, path)
    requires AllHold(g, Rows(op, Cx(options), g, map[]), bound, nodeVars)
    ensures CompileRels(options, op, path, i, bound).Ok?
    ensures CompileRels(options, op, path, i, bound).value.op.Some?
    ensures CompileRels(options, op, path, i, bound).value.bound == BoundFrom(path, i, bound)
    ensures next in Rows(CompileRels(options, op, path, i, bound).value.Input(), Cx(options), g, map[])
       <==> Chained(options.schema, g, Rows(op, Cx(options), g, map[]), path, i, bound, next)
    ensures AllHold(g, Rows(CompileRels(options, op, path, i, bound).value.Input(), Cx(options), g, map[]), BoundFrom(path, i, bound), nodeVars)
    decreases |path.rels| - i
  {
    hide Rows, CompileRel, Apart, FixedLength, AllHold, Stepped, Chained, Bind;
    var rows := Rows(op, Cx(options), g, map[]);
    if i == |path.rels| {
      NoSteps(options.schema, g, rows, path, bound, next);
    } else {
      RelAllHold(options, g, op, path, i, bound, nodeVars);
      var step := CompileRel(options, op, path, i, bound).value;
      var mids := Rows(step.Input(), Cx(options), g, map[]);
      forall mid: Row ensures mid in mids <==> Stepped(Cx(options), g, rows, path, i, bound, mid) {
        RelRows(options, g, op, path, i, bound, nodeVars, mid);
      }
      RelRows(options, g, op, path, i, bound, nodeVars, next);
      ChainRows(options, g, step.Input(), path, i + 1, step.bound, nodeVars, next);
      ChainSplits(Cx(options), g, rows, mids, path, i, bound, next);
    }
  }

  lemma NoSteps(schema: Schema, g: Graph, rows: seq<Row>, path: PatternPath, bound: set<string>, next: Row)
    requires path.Valid()
    ensures next in rows <==> Chained(schema, g, rows, path, |path.rels|, bound, next)
  {
    if next in rows {
      assert ChainHolds(schema, g, path, |path.rels|, next, [], bound) && next == ChainRow(path, |path.rels|, next, [], bound);
    }
  }

  // ---- the first node -----------------------------------------------------------------------------------------

  ghost predicate Anchored(schema: Schema, g: Graph, rows: seq<Row>, path: PatternPath, bound: set<string>, hasInput: bool, next: Row)
    requires path.Valid()
  {
    exists row: Row, n: Node :: row in rows && AnchorHolds(schema, g, path, row, n, bound, hasInput) && next == AnchorRow(path, row, n, bound, hasInput)
  }

  function InputRows(options: Options, g: Graph, input: Option<Op>): seq<Row> {
    if input.None? then [map[]] else Rows(input.value, Cx(options), g, map[])
  }

  /** A scan yields one row for every node with the label. */
  lemma ScannedRows(cx: Context, g: Graph, p: NodePattern, name: string, next: Row)
    ensures next in Rows(Scan(p, name), cx, g, map[])
       <==> exists n: Node :: n in g.nodes && cx.schema.HasLabel(n, p.labelName) && next == map[name := NodeV(n)]
  {
    hide Rows;
    RowsOfScan(name, p.labelName, cx, g, map[]);
    var nodes := if p.labelName.None? then g.nodes else Filter(g.nodes, InstanceTest(cx.schema, p.labelName.value));
    FlatMapMember(nodes, ScanRow(name), next);
    forall n: Node ensures n in nodes <==> n in g.nodes && cx.schema.HasLabel(n, p.labelName) {
      if p.labelName.Some? {
        FilterMember(g.nodes, InstanceTest(cx.schema, p.labelName.value), n);
      }
    }
  }

  predicate Joinable(row: Row, name: string, n: Node) {
    name in row ==> GroupKey(row[name]) == NodeKey(n)
  }

  lemma MergedRows(l: Row, name: string, n: Node, next: Row)
    ensures next in MergeWith(l)(map[name := NodeV(n)]) <==> Joinable(l, name, n) && next == l[name := NodeV(n)]
  {
    hide NodeKey;
    var r: Row := map[name := NodeV(n)];
    assert GroupKey(r[name]) == NodeKey(n);
    assert l + r == l[name := NodeV(n)];
    assert (exists v :: v in l && v in r && GroupKey(l[v]) != GroupKey(r[v])) <==> !Joinable(l, name, n) by {
      if !Joinable(l, name, n) {
        assert name in l && name in r && GroupKey(l[name]) != GroupKey(r[name]);
      }
    }
  }

  lemma ProductRows(cx: Context, g: Graph, left: Op, p: NodePattern, name: string, next: Row)
    ensures next in Rows(CartesianProduct(left, Scan(p, name)), cx, g, map[])
       <==> exists row: Row, n: Node :: row in Rows(left, cx, g, map[]) && n in g.nodes && cx.schema.HasLabel(n, p.labelName)
                                        && Joinable(row, name, n) && next == row[name := NodeV(n)]
  {
    hide Rows, Joinable, Scan, MergeWith;
    var lefts, rights := Rows(left, cx, g, map[]), Rows(Scan(p, name), cx, g, map[]);
    RowsOfProduct(left, Scan(p, name), cx, g, map[]);
    FlatMapMember(lefts, MergeEach(rights), next);
    if next in Rows(CartesianProduct(left, Scan(p, name)), cx, g, map[]) {
      var row: Row :| row in lefts && next in MergeEach(rights)(row);
      FlatMapMember(rights, MergeWith(row), next);
      var r: Row :| r in rights && next in MergeWith(row)(r);
      ScannedRows(cx, g, p, name, r);
      var n: Node :| n in g.nodes && cx.schema.HasLabel(n, p.labelName) && r == map[name := NodeV(n)];
      MergedRows(row, name, n, next);
    }
    if row: Row, n: Node :| row in lefts && n in g.nodes && cx.schema.HasLabel(n, p.labelName) && Joinable(row, name, n) && next == row[name := NodeV(n)] {
      var r: Row := map[name := NodeV(n)];
      ScannedRows(cx, g, p, name, r);
      MergedRows(row, name, n, next);
      FlatMapMember(rights, MergeWith(row), next);
      assert next in MergeEach(rights)(row);
    }
  }

  function AnchorScan(input: Option<Op>, p: NodePattern, name: string): Op {
    if input.None? then Scan(p, name) else CartesianProduct(input.value, Scan(p, name))
  }

  lemma AnchorScanRows(options: Options, g: Graph, input: Option<Op>, p: NodePattern, name: string, next: Row)
    ensures next in Rows(AnchorScan(input, p, name), Cx(options), g, map[])
       <==> exists row: Row, n: Node :: row in InputRows(options, g, input) && n in g.nodes && options.schema.HasLabel(n, p.labelName)
                                        && Joinable(row, name, n) && next == row[name := NodeV(n)]
  {
    hide Rows, Scan;
    if input.None? {
      ScannedRows(Cx(options), g, p, name, next);
      var none: Row := map[];
      assert none in InputRows(options, g, input);
      if n: Node :| n in g.nodes && options.schema.HasLabel(n, p.labelName) && next == map[name := NodeV(n)] {
        assert Joinable(none, name, n) && next == none[name := NodeV(n)];
      }
    } else {
      ProductRows(Cx(options), g, input.value, p, name, next);
    }
  }

  ghost predicate InputHolds(options: Options, g: Graph, input: Option<Op>, bound: set<string>, nodeVars: set<string>) {
    if input.None? then bound == {} else AllHold(g, Rows(input.value, Cx(options), g, map[]), bound, nodeVars)
  }

  lemma ScannedAnchorRows(options: Options, g: Graph, input: Option<Op>, path: PatternPath, bound: set<string>, next: Row)
    requires path.Valid() && !Reused(path, bound, input.Some?)
    ensures next in Rows(FoldProperties(AnchorScan(input, path.nodes[0], NodeName(path, 0)), path.nodes[0].properties, NodeName(path, 0)), Cx(options), g, map[])
       <==> Anchored(options.schema, g, InputRows(options, g, input), path, bound, input.Some?, next)
  {
    hide Rows, NodeName, AnchorScan, FoldProperties, InputRows, HasProperties;
    var name, p := NodeName(path, 0), path.nodes[0];
    var scan := AnchorScan(input, p, name);
    var rows := Rows(scan, Cx(options), g, map[]);
    forall r: Row | r in rows ensures name in r && r[name].NodeV? && r[name].node in g.nodes {
      AnchorScanRows(options, g, input, p, name, r);
    }
    FoldedRows(Cx(options), g, scan, p.properties, name, next);
    AnchorScanRows(options, g, input, p, name, next);
    if next in rows && HasProperties(next[name].node, p.properties) {
      var row: Row, n: Node :| row in InputRows(options, g, input) && n in g.nodes && options.schema.HasLabel(n, p.labelName)
                               && Joinable(row, name, n) && next == row[name := NodeV(n)];
      assert AnchorHolds(options.schema, g, path, row, n, bound, input.Some?) && next == AnchorRow(path, row, n, bound, input.Some?);
    }
    if row: Row, n: Node :| row in InputRows(options, g, input) && AnchorHolds(options.schema, g, path, row, n, bound, input.Some?)
                            && next == AnchorRow(path, row, n, bound, input.Some?) {
      assert Joinable(row, name, n) && next == row[name := NodeV(n)];
    }
  }

  lemma ReusedAnchorRows(options: Options, g: Graph, input: Option<Op>, path: PatternPath, bound: set<string>, nodeVars: set<string>, next: Row)
    requires path.Valid() && Reused(path, bound, input.Some?) && g.Valid() && Apart(nodeVars, path)
    requires InputHolds(options, g, input, bound, nodeVars)
    ensures next in Rows(FoldReused(input.value, path.nodes[0], NodeName(path, 0)), Cx(options), g, map[])
       <==> Anchored(options.schema, g, InputRows(options, g, input), path, bound, true, next)
  {
    hide Rows, FoldReused, HasProperties, Digits;
    var name, p := NodeName(path, 0), path.nodes[0];
    var rows := Rows(input.value, Cx(options), g, map[]);
    assert p in path.nodes && name in nodeVars && name in bound;
    forall r: Row | r in rows ensures name in r && r[name].NodeV? && r[name].node in g.nodes {
      assert HoldsNodes(g, r, bound, nodeVars);
    }
    LabelledRows(Cx(options), g, input.value, p, name, next);
    if next in rows && NodeMatches(options.schema, p, next[name].node) {
      assert AnchorHolds(options.schema, g, path, next, next[name].node, bound, true) && next == AnchorRow(path, next, next[name].node, bound, true);
    }
  }

  lemma AnchorRows(options: Options, g: Graph, input: Option<Op>, path: PatternPath, bound: set<string>, nodeVars: set<string>, next: Row)
    requires path.Valid() && g.Valid() && Apart(nodeVars, path) && InputHolds(options, g, input, bound, nodeVars)
    ensures Anchor(input, path, bound).bound == Bind(bound, path.nodes[0].variable)
    ensures next in Rows(Anchor(input, path, bound).Input(), Cx(options), g, map[])
       <==> Anchored(options.schema, g, InputRows(options, g, input), path, bound, input.Some?, next)
  {
    hide Rows, FoldReused, FoldProperties, NodeName, Apart, Anchored, InputRows, Scan, InputHolds;
    if Reused(path, bound, input.Some?) {
      ReusedAnchorRows(options, g, input, path, bound, nodeVars, next);
      assert Bind(bound, path.nodes[0].variable) == bound;
    } else {
      ScannedAnchorRows(options, g, input, path, bound, next);
    }
  }

  lemma AnchorHoldsNodes(schema: Schema, g: Graph, path: PatternPath, row: Row, n: Node, bound: set<string>, hasInput: bool, nodeVars: set<string>)
    requires path.Valid() && Apart(nodeVars, path) && HoldsNodes(g, row, bound, nodeVars)
    requires AnchorHolds(schema, g, path, row, n, bound, hasInput)
    ensures HoldsNodes(g, AnchorRow(path, row, n, bound, hasInput), Bind(bound, path.nodes[0].variable), nodeVars)
  {
    hide NodeMatches, GroupKey, Digits;
    assert path.nodes[0] in path.nodes;
  }

  lemma AnchorAllHold(options: Options, g: Graph, input: Option<Op>, path: PatternPath, bound: set<string>, nodeVars: set<string>)
    requires path.Valid() && g.Valid() && Apart(nodeVars, path) && InputHolds(options, g, input, bound, nodeVars)
    ensures AllHold(g, Rows(Anchor(input, path, bound).Input(), Cx(options), g, map[]), Bind(bound, path.nodes[0].variable), nodeVars)
  {
    hide Rows, Anchor, Apart, AnchorHolds, AnchorRow, HoldsNodes, Bind;
    forall next: Row | next in Rows(Anchor(input, path, bound).Input(), Cx(options), g, map[])
      ensures HoldsNodes(g, next, Bind(bound, path.nodes[0].variable), nodeVars)
    {
      AnchorRows(options, g, input, path, bound, nodeVars, next);
      var row: Row, n: Node :| row in InputRows(options, g, input) && AnchorHolds(options.schema, g, path, row, n, bound, input.Some?)
                               && next == AnchorRow(path, row, n, bound, input.Some?);
      InputRowHolds(options, g, input, bound, nodeVars, row);
      AnchorHoldsNodes(options.schema, g, path, row, n, bound, input.Some?, nodeVars);
    }
  }

  lemma InputRowHolds(options: Options, g: Graph, input: Option<Op>, bound: set<string>, nodeVars: set<string>, row: Row)
    requires InputHolds(options, g, input, bound, nodeVars) && row in InputRows(options, g, input)
    ensures HoldsNodes(g, row, bound, nodeVars)
  {
    hide Rows;
  }

  // ---- whole paths --------------------------------------------------------------------------------------------

  ghost predicate Joined(schema: Schema, g: Graph, rows: seq<Row>, path: PatternPath, bound: set<string>, hasInput: bool, next: Row)
    requires path.Valid()
  {
    exists row: Row, ns: seq<Node> :: row in rows && PathJoins(schema, g, path, row, ns, bound, hasInput) && next == PathRow(path, row, ns, bound, hasInput)
  }

  lemma AnchorThenChain(schema: Schema, g: Graph, rows: seq<Row>, mids: seq<Row>, path: PatternPath, bound: set<string>, hasInput: bool, next: Row)
    requires path.Valid()
    requires forall mid: Row :: mid in mids <==> Anchored(schema, g, rows, path, bound, hasInput, mid)
    ensures Joined(schema, g, rows, path, bound, hasInput, next)
       <==> Chained(schema, g, mids, path, 0, Bind(bound, path.nodes[0].variable), next)
  {
    hide AnchorHolds, AnchorRow, ChainHolds, ChainRow, Bind;
    var more := Bind(bound, path.nodes[0].variable);
    if Joined(schema, g, rows, path, bound, hasInput, next) {
      var row: Row, ns: seq<Node> :| row in rows && PathJoins(schema, g, path, row, ns, bound, hasInput) && next == PathRow(path, row, ns, bound, hasInput);
      assert Anchored(schema, g, rows, path, bound, hasInput, AnchorRow(path, row, ns[0], bound, hasInput));
    }
    if mid: Row, tail: seq<Node> :| mid in mids && ChainHolds(schema, g, path, 0, mid, tail, more) && next == ChainRow(path, 0, mid, tail, more) {
      assert Anchored(schema, g, rows, path, bound, hasInput, mid);
      var row: Row, n: Node :| row in rows && AnchorHolds(schema, g, path, row, n, bound, hasInput) && mid == AnchorRow(path, row, n, bound, hasInput);
      assert ([n] + tail)[0] == n && ([n] + tail)[1..] == tail;
      assert PathJoins(schema, g, path, row, [n] + tail, bound, hasInput);
    }
  }

  predicate Plannable(options: Options, path: PatternPath) {
    path.Valid() && FixedLength(path) && path.pathVariable.None? && RelError(options.schema, path.rels).None?
  }

  lemma PathRows(options: Options, g: Graph, input: Option<Op>, path: PatternPath, bound: set<string>, nodeVars: set<string>, next: Row)
    requires Plannable(options, path) && g.Valid() && Apart(nodeVars, path) && InputHolds(options, g, input, bound, nodeVars)
    ensures CompilePath(options, input, path, bound).Ok?
    ensures CompilePath(options, input, path, bound).value.op.Some?
    ensures CompilePath(options, input, path, bound).value.bound == BoundAfter(path, bound)
    ensures next in Rows(CompilePath(options, input, path, bound).value.Input(), Cx(options), g, map[])
       <==> Joined(options.schema, g, InputRows(options, g, input), path, bound, input.Some?, next)
    ensures InputHolds(options, g, CompilePath(options, input, path, bound).value.op, BoundAfter(path, bound), nodeVars)
  {
    hide Rows, Anchor, Apart, AllHold, Anchored, Chained, Joined, CompileRels, BoundFrom, InputRows, Bind, InputHolds;
    var st := Anchor(input, path, bound);
    var mids := Rows(st.Input(), Cx(options), g, map[]);
    var rows := InputRows(options, g, input);
    forall mid: Row ensures mid in mids <==> Anchored(options.schema, g, rows, path, bound, input.Some?, mid) {
      AnchorRows(options, g, input, path, bound, nodeVars, mid);
    }
    AnchorRows(options, g, input, path, bound, nodeVars, next);
    AnchorAllHold(options, g, input, path, bound, nodeVars);
    ChainRows(options, g, st.Input(), path, 0, st.bound, nodeVars, next);
    AnchorThenChain(options.schema, g, rows, mids, path, bound, input.Some?, next);
    HoldsAsInput(options, g, CompileRels(options, st.Input(), path, 0, st.bound).value, nodeVars);
  }

  lemma HoldsAsInput(options: Options, g: Graph, state: State, nodeVars: set<string>)
    requires state.op.Some? && AllHold(g, Rows(state.Input(), Cx(options), g, map[]), state.bound, nodeVars)
    ensures InputHolds(options, g, state.op, state.bound, nodeVars)
  {
    hide Rows, AllHold;
  }

  ghost predicate AllJoined(schema: Schema, g: Graph, rows: seq<Row>, paths: seq<PatternPath>, bound: set<string>, hasInput: bool, next: Row)
    requires forall p :: p in paths ==> p.Valid()
  {
    exists row: Row, nss: seq<seq<Node>> :: row in rows && PathsJoin(schema, g, paths, row, nss, bound, hasInput) && next == PathsRow(paths, row, nss, bound, hasInput)
  }

  lemma PathThenPaths(schema: Schema, g: Graph, rows: seq<Row>, mids: seq<Row>, paths: seq<PatternPath>, bound: set<string>, hasInput: bool, next: Row)
    requires paths != [] && forall p :: p in paths ==> p.Valid()
    requires forall mid: Row :: mid in mids <==> Joined(schema, g, rows, paths[0], bound, hasInput, mid)
    ensures AllJoined(schema, g, rows, paths, bound, hasInput, next)
       <==> AllJoined(schema, g, mids, paths[1..], BoundAfter(paths[0], bound), true, next)
  {
    hide PathJoins, PathRow, BoundAfter;
    var path, more := paths[0], BoundAfter(paths[0], bound);
    if AllJoined(schema, g, rows, paths, bound, hasInput, next) {
      var row: Row, nss: seq<seq<Node>> :| row in rows && PathsJoin(schema, g, paths, row, nss, bound, hasInput) && next == PathsRow(paths, row, nss, bound, hasInput);
      var mid := PathRow(path, row, nss[0], bound, hasInput);
      assert Joined(schema, g, rows, path, bound, hasInput, mid);
      assert mid in mids && PathsJoin(schema, g, paths[1..], mid, nss[1..], more, true) && next == PathsRow(paths[1..], mid, nss[1..], more, true);
    }
    if mid: Row, nss: seq<seq<Node>> :| mid in mids && PathsJoin(schema, g, paths[1..], mid, nss, more, true) && next == PathsRow(paths[1..], mid, nss, more, true) {
      assert Joined(schema, g, rows, path, bound, hasInput, mid);
      var row: Row, ns: seq<Node> :| row in rows && PathJoins(schema, g, path, row, ns, bound, hasInput) && mid == PathRow(path, row, ns, bound, hasInput);
      assert ([ns] + nss)[0] == ns && ([ns] + nss)[1..] == nss;
      assert PathsJoin(schema, g, paths, row, [ns] + nss, bound, hasInput);
    }
  }

  /** The rows of a fixed-length pattern over any input: one for every input row and choice of nodes that fits it. */
  lemma {:induction false} RowsAreJoins(options: Options, g: Graph, input: Option<Op>, paths: seq<PatternPath>, bound: set<string>, nodeVars: set<string>, next: Row)
    requires forall p :: p in paths ==> p.Valid() && Plannable(options, p) && Apart(nodeVars, p)
    requires g.Valid() && InputHolds(options, g, input, bound, nodeVars)
    ensures CompilePaths(options, input, paths, bound).Ok?
    ensures next in InputRows(options, g, CompilePaths(options, input, paths, bound).value.op)
       <==> AllJoined(options.schema, g, InputRows(options, g, input), paths, bound, input.Some?, next)
    decreases |paths|
  {
    hide Rows, Apart, Joined, AllJoined, CompilePath, BoundAfter, InputHolds, Plannable;
    var rows := InputRows(options, g, input);
    if paths == [] {
      NoPaths(options.schema, g, rows, bound, input.Some?, next);
    } else {
      assert paths[0] in paths;
      PathRows(options, g, input, paths[0], bound, nodeVars, next);
      var st := CompilePath(options, input, paths[0], bound).value;
      var mids := InputRows(options, g, st.op);
      forall mid: Row ensures mid in mids <==> Joined(options.schema, g, rows, paths[0], bound, input.Some?, mid) {
        PathRows(options, g, input, paths[0], bound, nodeVars, mid);
      }
      PathThenPaths(options.schema, g, rows, mids, paths, bound, input.Some?, next);
      RowsAreJoins(options, g, st.op, paths[1..], st.bound, nodeVars, next);
    }
  }

  lemma NoPaths(schema: Schema, g: Graph, rows: seq<Row>, bound: set<string>, hasInput: bool, next: Row)
    ensures next in rows <==> AllJoined(schema, g, rows, [], bound, hasInput, next)
  {
    if next in rows {
      assert PathsJoin(schema, g, [], next, [], bound, hasInput) && next == PathsRow([], next, [], bound, hasInput);
    }
  }

  // ---- what the joins mean for an assignment ------------------------------------------------------------------

  /** The nodes a match gives to the pattern's variables. */
  type Assignment = map<string, Node>

  ghost predicate Shows(row: Row, a: Assignment, names: set<string>) {
    forall v :: v in names ==> v in row && v in a && row[v] == NodeV(a[v])
  }

  predicate Named(a: Assignment, p: NodePattern, n: Node) {
    p.variable.Some? ==> p.variable.value in a && a[p.variable.value] == n
  }

  /** The nodes after the i-th, `at`, satisfy the rest of the path and are the assigned ones. */
  ghost predicate TailFits(schema: Schema, g: Graph, path: PatternPath, i: nat, at: Node, tail: seq<Node>, a: Assignment)
    requires path.Valid() && i <= |path.rels|
    decreases |tail|
  {
    if i == |path.rels| then tail == []
    else
      && tail != []
      && tail[0] in Expand(schema, g, at.id, path.rels[i].relType, path.rels[i].direction)
      && NodeMatches(schema, path.nodes[i + 1], tail[0]) && Named(a, path.nodes[i + 1], tail[0])
      && TailFits(schema, g, path, i + 1, tail[0], tail[1..], a)
  }

  ghost predicate PathFits(schema: Schema, g: Graph, path: PatternPath, ns: seq<Node>, a: Assignment)
    requires path.Valid()
  {
    && ns != []
    && ns[0] in g.nodes && NodeMatches(schema, path.nodes[0], ns[0]) && Named(a, path.nodes[0], ns[0])
    && TailFits(schema, g, path, 0, ns[0], ns[1..], a)
  }

  const ANON_ANCHOR := ANON_PREFIX + Digits(0)

  lemma AnchorName(path: PatternPath, i: nat, nodeVars: set<string>)
    requires path.Valid() && i < |path.nodes| && Apart(nodeVars, path)
    ensures i > 0 ==> NodeName(path, i) != ANON_ANCHOR
    ensures path.nodes[i].variable.Some? ==> NodeName(path, i) in nodeVars && NodeName(path, i) != ANON_ANCHOR
    ensures path.nodes[i].variable.None? ==> NodeName(path, i) !in nodeVars
    ensures forall r :: r in path.rels && r.variable.Some? ==> r.variable.value != ANON_ANCHOR && r.variable.value !in nodeVars
  {
    assert path.nodes[i] in path.nodes;
    if i > 0 && path.nodes[i].variable.None? {
      ValueOfDigits(i);
      ValueOfDigits(0);
      assert (ANON_PREFIX + Digits(i))[|ANON_PREFIX|..] == Digits(i);
      assert ANON_ANCHOR[|ANON_PREFIX|..] == Digits(0);
    }
  }

  /** A step changes only the name it newly binds and the relationship's. */
  lemma StepKeeps(path: PatternPath, i: nat, row: Row, n: Node, bound: set<string>, nodeVars: set<string>, v: string)
    requires path.Valid() && i < |path.rels| && Apart(nodeVars, path)
    requires v == ANON_ANCHOR || (v in nodeVars && (v in bound || v !in Bind(bound, path.nodes[i + 1].variable)))
    ensures v in StepRow(path, i, row, n, bound) <==> v in row
    ensures v in row ==> StepRow(path, i, row, n, bound)[v] == row[v]
  {
    hide Digits, Apart;
    AnchorName(path, i + 1, nodeVars);
    assert path.rels[i] in path.rels;
  }

  lemma {:induction false} BoundGrows(path: PatternPath, i: nat, bound: set<string>)
    requires path.Valid() && i <= |path.rels|
    ensures bound <= BoundFrom(path, i, bound)
    decreases |path.rels| - i
  {
    if i < |path.rels| {
      BoundGrows(path, i + 1, Bind(bound, path.nodes[i + 1].variable));
    }
  }

  lemma {:induction false} ChainKeeps(path: PatternPath, i: nat, row: Row, tail: seq<Node>, bound: set<string>, nodeVars: set<string>, v: string)
    requires path.Valid() && i <= |path.rels| && Apart(nodeVars, path)
    requires v == ANON_ANCHOR || (v in nodeVars && (v in bound || v !in BoundFrom(path, i, bound)))
    ensures v in ChainRow(path, i, row, tail, bound) <==> v in row
    ensures v in row ==> ChainRow(path, i, row, tail, bound)[v] == row[v]
    decreases |tail|
  {
    hide StepRow, Apart;
    if i < |path.rels| && tail != [] {
      var more := Bind(bound, path.nodes[i + 1].variable);
      BoundGrows(path, i + 1, more);
      StepKeeps(path, i, row, tail[0], bound, nodeVars, v);
      ChainKeeps(path, i + 1, StepRow(path, i, row, tail[0], bound), tail[1..], more, nodeVars, v);
    }
  }

  lemma StepMeans(schema: Schema, g: Graph, path: PatternPath, i: nat, row: Row, at: Node, n: Node, bound: set<string>, nodeVars: set<string>, a: Assignment)
    requires path.Valid() && i < |path.rels| && Apart(nodeVars, path) && bound <= nodeVars
    requires NodeName(path, i) in row && row[NodeName(path, i)] == NodeV(at) && Shows(row, a, bound)
    ensures StepHolds(schema, g, path, i, row, n, bound) && Shows(StepRow(path, i, row, n, bound), a, Bind(bound, path.nodes[i + 1].variable))
       <==> n in Expand(schema, g, at.id, path.rels[i].relType, path.rels[i].direction)
            && NodeMatches(schema, path.nodes[i + 1], n) && Named(a, path.nodes[i + 1], n)
    ensures StepHolds(schema, g, path, i, row, n, bound)
        ==> NodeName(path, i + 1) in StepRow(path, i, row, n, bound) && StepRow(path, i, row, n, bound)[NodeName(path, i + 1)] == NodeV(n)
    ensures Bind(bound, path.nodes[i + 1].variable) <= nodeVars
  {
    hide Expand, Digits, Apart, NodeMatches;
    AnchorName(path, i + 1, nodeVars);
    NamesDiffer(nodeVars, path, i, i + 1);
    assert path.rels[i] in path.rels;
    var next := StepRow(path, i, row, n, bound);
    forall v | v in bound ensures v in next && next[v] == row[v] {
      StepKeeps(path, i, row, n, bound, nodeVars, v);
    }
  }

  lemma {:induction false} ChainMeans(schema: Schema, g: Graph, path: PatternPath, i: nat, row: Row, at: Node, tail: seq<Node>,
                                      bound: set<string>, nodeVars: set<string>, a: Assignment)
    requires path.Valid() && i <= |path.rels| && Apart(nodeVars, path) && bound <= nodeVars
    requires NodeName(path, i) in row && row[NodeName(path, i)] == NodeV(at) && Shows(row, a, bound)
    ensures ChainHolds(schema, g, path, i, row, tail, bound) && Shows(ChainRow(path, i, row, tail, bound), a, BoundFrom(path, i, bound))
       <==> TailFits(schema, g, path, i, at, tail, a)
    decreases |tail|
  {
    hide StepHolds, StepRow, Expand, NodeMatches, Apart, NodeName, Bind, Named;
    if i < |path.rels| && tail != [] {
      var next, more := StepRow(path, i, row, tail[0], bound), Bind(bound, path.nodes[i + 1].variable);
      StepMeans(schema, g, path, i, row, at, tail[0], bound, nodeVars, a);
      if StepHolds(schema, g, path, i, row, tail[0], bound) {
        var last := ChainRow(path, i + 1, next, tail[1..], more);
        if Shows(last, a, BoundFrom(path, i + 1, more)) {
          BoundGrows(path, i + 1, more);
          forall v | v in more ensures v in next && v in a && next[v] == NodeV(a[v]) {
            ChainKeeps(path, i + 1, next, tail[1..], more, nodeVars, v);
          }
        }
        if Shows(next, a, more) {
          ChainMeans(schema, g, path, i + 1, next, tail[0], tail[1..], more, nodeVars, a);
        }
      }
    }
  }

  /** What is known of a row between two paths: its named nodes, and the node the anonymous anchors so far agree on. */
  ghost predicate RowFits(g: Graph, row: Row, bound: set<string>, nodeVars: set<string>, a: Assignment, anon: Option<Node>) {
    && bound <= nodeVars
    && Shows(row, a, bound)
    && (forall v :: v in nodeVars && v !in bound ==> v !in row)
    && (ANON_ANCHOR in row <==> anon.Some?)
    && (anon.Some? ==> anon.value in g.nodes && row[ANON_ANCHOR] == NodeV(anon.value))
  }

  predicate AnonFits(path: PatternPath, n: Node, anon: Option<Node>)
    requires path.Valid()
  {
    path.nodes[0].variable.None? && anon.Some? ==> n == anon.value
  }

  function NextAnon(path: PatternPath, n: Node, anon: Option<Node>): Option<Node>
    requires path.Valid()
  {
    if path.nodes[0].variable.None? then Some(n) else anon
  }

  lemma AnchorMeans(schema: Schema, g: Graph, path: PatternPath, row: Row, n: Node, bound: set<string>, hasInput: bool,
                    nodeVars: set<string>, a: Assignment, anon: Option<Node>)
    requires path.Valid() && g.Valid() && Apart(nodeVars, path) && NoAnonymous(nodeVars)
    requires RowFits(g, row, bound, nodeVars, a, anon) && (hasInput || bound == {})
    ensures AnchorHolds(schema, g, path, row, n, bound, hasInput) && Shows(AnchorRow(path, row, n, bound, hasInput), a, Bind(bound, path.nodes[0].variable))
       <==> n in g.nodes && NodeMatches(schema, path.nodes[0], n) && Named(a, path.nodes[0], n) && AnonFits(path, n, anon)
    ensures AnchorHolds(schema, g, path, row, n, bound, hasInput)
        ==> NodeName(path, 0) in AnchorRow(path, row, n, bound, hasInput) && AnchorRow(path, row, n, bound, hasInput)[NodeName(path, 0)] == NodeV(n)
    ensures Bind(bound, path.nodes[0].variable) <= nodeVars
    ensures forall v :: v in bound ==> v in AnchorRow(path, row, n, bound, hasInput) && AnchorRow(path, row, n, bound, hasInput)[v] == row[v]
  {
    hide Digits, Apart, NodeMatches;
    AnchorName(path, 0, nodeVars);
    if path.nodes[0].variable.None? && anon.Some? && n in g.nodes && NodeKey(anon.value) == NodeKey(n) {
      assert ("node:" + n.id)[5..] == n.id && ("node:" + anon.value.id)[5..] == anon.value.id;
      SameIdSameNode(g, n, anon.value);
    }
  }

  lemma AnchorFits(schema: Schema, g: Graph, path: PatternPath, row: Row, n: Node, bound: set<string>, hasInput: bool,
                   nodeVars: set<string>, a: Assignment, anon: Option<Node>)
    requires path.Valid() && g.Valid() && Apart(nodeVars, path) && NoAnonymous(nodeVars)
    requires RowFits(g, row, bound, nodeVars, a, anon) && (hasInput || bound == {}) && n in g.nodes
    requires Shows(AnchorRow(path, row, n, bound, hasInput), a, Bind(bound, path.nodes[0].variable))
    ensures RowFits(g, AnchorRow(path, row, n, bound, hasInput), Bind(bound, path.nodes[0].variable), nodeVars, a, NextAnon(path, n, anon))
  {
    hide Digits, Apart;
    AnchorName(path, 0, nodeVars);
  }

  /** A path changes only what it newly binds, generated names and relationship variables. */
  lemma PathKeeps(path: PatternPath, row: Row, ns: seq<Node>, bound: set<string>, hasInput: bool, nodeVars: set<string>, v: string)
    requires path.Valid() && Apart(nodeVars, path) && v in bound && bound <= nodeVars && hasInput
    ensures v in PathRow(path, row, ns, bound, hasInput) <==> v in row
    ensures v in row ==> PathRow(path, row, ns, bound, hasInput)[v] == row[v]
  {
    hide Digits, Apart;
    if ns != [] {
      AnchorName(path, 0, nodeVars);
      ChainKeeps(path, 0, AnchorRow(path, row, ns[0], bound, hasInput), ns[1..], Bind(bound, path.nodes[0].variable), nodeVars, v);
    }
  }

  lemma ChainFits(g: Graph, path: PatternPath, row: Row, tail: seq<Node>, bound: set<string>, nodeVars: set<string>, a: Assignment, anon: Option<Node>)
    requires path.Valid() && Apart(nodeVars, path) && RowFits(g, row, bound, nodeVars, a, anon)
    requires Shows(ChainRow(path, 0, row, tail, bound), a, BoundFrom(path, 0, bound))
    ensures RowFits(g, ChainRow(path, 0, row, tail, bound), BoundFrom(path, 0, bound), nodeVars, a, anon)
  {
    hide Digits, ChainRow, BoundFrom, NamesApart;
    BoundInside(path, 0, bound, nodeVars);
    BoundGrows(path, 0, bound);
    ChainKeeps(path, 0, row, tail, bound, nodeVars, ANON_ANCHOR);
    forall v | v in nodeVars && v !in BoundFrom(path, 0, bound) ensures v !in ChainRow(path, 0, row, tail, bound) {
      ChainKeeps(path, 0, row, tail, bound, nodeVars, v);
    }
  }

  lemma {:induction false} BoundInside(path: PatternPath, i: nat, bound: set<string>, nodeVars: set<string>)
    requires path.Valid() && i <= |path.rels| && NamesApart(nodeVars, path) && bound <= nodeVars
    ensures BoundFrom(path, i, bound) <= nodeVars
    decreases |path.rels| - i
  {
    if i < |path.rels| {
      assert path.nodes[i + 1] in path.nodes;
      BoundInside(path, i + 1, Bind(bound, path.nodes[i + 1].variable), nodeVars);
    }
  }

  lemma PathMeans(schema: Schema, g: Graph, path: PatternPath, row: Row, ns: seq<Node>, bound: set<string>, hasInput: bool,
                  nodeVars: set<string>, a: Assignment, anon: Option<Node>)
    requires path.Valid() && g.Valid() && Apart(nodeVars, path)
    requires RowFits(g, row, bound, nodeVars, a, anon) && (hasInput || bound == {})
    ensures PathJoins(schema, g, path, row, ns, bound, hasInput) && Shows(PathRow(path, row, ns, bound, hasInput), a, BoundAfter(path, bound))
       <==> PathFits(schema, g, path, ns, a) && AnonFits(path, ns[0], anon)
    ensures PathFits(schema, g, path, ns, a) && AnonFits(path, ns[0], anon)
        ==> RowFits(g, PathRow(path, row, ns, bound, hasInput), BoundAfter(path, bound), nodeVars, a, NextAnon(path, ns[0], anon))
  {
    hide AnchorHolds, AnchorRow, ChainHolds, ChainRow, Bind, BoundFrom, TailFits, NodeMatches, Named, AnonFits, NextAnon, NodeName, NamesApart, RowFits;
    if ns != [] {
      var n, more := ns[0], Bind(bound, path.nodes[0].variable);
      var mid := AnchorRow(path, row, n, bound, hasInput);
      AnchorMeans(schema, g, path, row, n, bound, hasInput, nodeVars, a, anon);
      if AnchorHolds(schema, g, path, row, n, bound, hasInput) {
        if Shows(ChainRow(path, 0, mid, ns[1..], more), a, BoundFrom(path, 0, more)) {
          BoundGrows(path, 0, more);
          forall v | v in more ensures v in mid && v in a && mid[v] == NodeV(a[v]) {
            ChainKeeps(path, 0, mid, ns[1..], more, nodeVars, v);
          }
        }
        if Shows(mid, a, more) {
          ChainMeans(schema, g, path, 0, mid, n, ns[1..], more, nodeVars, a);
          AnchorFits(schema, g, path, row, n, bound, hasInput, nodeVars, a, anon);
          if TailFits(schema, g, path, 0, n, ns[1..], a) {
            ChainFits(g, path, mid, ns[1..], more, nodeVars, a, NextAnon(path, n, anon));
          }
        }
      }
    }
  }

  ghost predicate PathsFit(schema: Schema, g: Graph, paths: seq<PatternPath>, nss: seq<seq<Node>>, a: Assignment, anon: Option<Node>)
    requires forall p :: p in paths ==> p.Valid()
    decreases |paths|
  {
    if paths == [] then nss == []
    else
      && nss != []
      && PathFits(schema, g, paths[0], nss[0], a) && AnonFits(paths[0], nss[0][0], anon)
      && PathsFit(schema, g, paths[1..], nss[1..], a, NextAnon(paths[0], nss[0][0], anon))
  }

  function BoundAfterAll(paths: seq<PatternPath>, bound: set<string>): set<string>
    requires forall p :: p in paths ==> p.Valid()
    decreases |paths|
  {
    if paths == [] then bound else BoundAfterAll(paths[1..], BoundAfter(paths[0], bound))
  }

  lemma {:induction false} PathsKeep(paths: seq<PatternPath>, row: Row, nss: seq<seq<Node>>, bound: set<string>, nodeVars: set<string>, v: string)
    requires forall p :: p in paths ==> p.Valid() && Apart(nodeVars, p)
    requires v in bound && bound <= nodeVars
    ensures v in PathsRow(paths, row, nss, bound, true) <==> v in row
    ensures v in row ==> PathsRow(paths, row, nss, bound, true)[v] == row[v]
    ensures v in BoundAfterAll(paths, bound)
    decreases |paths|
  {
    hide PathRow, Bind, BoundFrom, NamesApart;
    if paths != [] {
      assert paths[0] in paths;
      BoundsAfter(paths[0], bound, nodeVars);
      PathKeeps(paths[0], row, if nss == [] then [] else nss[0], bound, true, nodeVars, v);
      PathsKeep(paths[1..], if nss == [] then row else PathRow(paths[0], row, nss[0], bound, true), if nss == [] then [] else nss[1..],
                BoundAfter(paths[0], bound), nodeVars, v);
    }
  }

  lemma BoundsAfter(path: PatternPath, bound: set<string>, nodeVars: set<string>)
    requires path.Valid() && NamesApart(nodeVars, path) && bound <= nodeVars
    ensures bound <= BoundAfter(path, bound) <= nodeVars
  {
    hide BoundFrom;
    assert path.nodes[0] in path.nodes;
    BoundInside(path, 0, Bind(bound, path.nodes[0].variable), nodeVars);
    BoundGrows(path, 0, Bind(bound, path.nodes[0].variable));
  }

  lemma {:induction false} PathsMean(schema: Schema, g: Graph, paths: seq<PatternPath>, row: Row, nss: seq<seq<Node>>, bound: set<string>,
                                     hasInput: bool, nodeVars: set<string>, a: Assignment, anon: Option<Node>)
    requires g.Valid() && forall p :: p in paths ==> p.Valid() && Apart(nodeVars, p)
    requires RowFits(g, row, bound, nodeVars, a, anon) && (hasInput || bound == {})
    ensures PathsJoin(schema, g, paths, row, nss, bound, hasInput) && Shows(PathsRow(paths, row, nss, bound, hasInput), a, BoundAfterAll(paths, bound))
       <==> PathsFit(schema, g, paths, nss, a, anon)
    decreases |paths|
  {
    hide PathJoins, PathRow, PathFits, AnonFits, NextAnon, BoundAfter, Apart, NamesApart;
    if paths != [] && nss != [] {
      assert paths[0] in paths;
      var path, ns := paths[0], nss[0];
      var mid, more := PathRow(path, row, ns, bound, hasInput), BoundAfter(path, bound);
      PathMeans(schema, g, path, row, ns, bound, hasInput, nodeVars, a, anon);
      ApartParts(nodeVars, path);
      BoundsAfter(path, bound, nodeVars);
      if Shows(PathsRow(paths[1..], mid, nss[1..], more, true), a, BoundAfterAll(paths[1..], more)) {
        forall v | v in more ensures v in mid && v in a && mid[v] == NodeV(a[v]) {
          PathsKeep(paths[1..], mid, nss[1..], more, nodeVars, v);
        }
      }
      SolvesSome(schema, g, path, ns, a);
      if PathFits(schema, g, path, ns, a) && AnonFits(path, ns[0], anon) {
        PathsMean(schema, g, paths[1..], mid, nss[1..], more, true, nodeVars, a, NextAnon(path, ns[0], anon));
      }
    }
  }

  lemma ApartParts(nodeVars: set<string>, path: PatternPath)
    requires Apart(nodeVars, path)
    ensures NamesApart(nodeVars, path)
  {
    hide NamesApart;
  }

  // ---- solutions ----------------------------------------------------------------------------------------------

  /** The nodes satisfy the path, and those with a variable are the assigned ones. */
  ghost predicate Solves(schema: Schema, g: Graph, path: PatternPath, ns: seq<Node>, a: Assignment) {
    PathHolds(schema, g, path, ns) && forall i :: 0 <= i < |ns| ==> Named(a, path.nodes[i], ns[i])
  }

  /** The k-th path's first node is anonymous. */
  predicate Anonymous(paths: seq<PatternPath>, nss: seq<seq<Node>>, k: int)
    requires forall p :: p in paths ==> p.Valid()
  {
    0 <= k < |paths| && k < |nss| && nss[k] != [] && (assert paths[k].Valid(); paths[k].nodes[0].variable.None?)
  }

  ghost predicate AnchorsAgree(paths: seq<PatternPath>, nss: seq<seq<Node>>)
    requires forall p :: p in paths ==> p.Valid()
  {
    forall k, l :: Anonymous(paths, nss, k) && Anonymous(paths, nss, l) ==> nss[k][0] == nss[l][0]
  }

  /** Every path holds under the assignment, and the anonymous first nodes are one node. */
  ghost predicate Solution(schema: Schema, g: Graph, paths: seq<PatternPath>, nss: seq<seq<Node>>, a: Assignment)
    requires forall p :: p in paths ==> p.Valid()
  {
    && |nss| == |paths|
    && (forall k :: 0 <= k < |paths| ==> Solves(schema, g, paths[k], nss[k], a))
    && AnchorsAgree(paths, nss)
  }

  /** The i-th relationship leads from `at` to n, which is as the pattern and the assignment say. */
  ghost predicate Link(schema: Schema, g: Graph, path: PatternPath, i: nat, at: Node, n: Node, a: Assignment)
    requires path.Valid() && i < |path.rels|
  {
    n in Expand(schema, g, at.id, path.rels[i].relType, path.rels[i].direction) && NodeMatches(schema, path.nodes[i + 1], n) && Named(a, path.nodes[i + 1], n)
  }

  ghost predicate Links(schema: Schema, g: Graph, path: PatternPath, i: nat, ns: seq<Node>, a: Assignment)
    requires path.Valid() && i <= |path.rels|
  {
    |ns| == |path.rels| - i + 1 && forall j: nat :: j + 1 < |ns| ==> Link(schema, g, path, i + j, ns[j], ns[j + 1], a)
  }

  lemma {:induction false} TailFitsIs(schema: Schema, g: Graph, path: PatternPath, i: nat, ns: seq<Node>, a: Assignment)
    requires path.Valid() && i <= |path.rels| && ns != []
    ensures TailFits(schema, g, path, i, ns[0], ns[1..], a) <==> Links(schema, g, path, i, ns, a)
    decreases |ns|
  {
    hide Expand, NodeMatches, Named;
    if i < |path.rels| && |ns| > 1 {
      var rest := ns[1..];
      assert rest[1..] == ns[1..][1..];
      TailFitsIs(schema, g, path, i + 1, rest, a);
      assert Link(schema, g, path, i + 0, ns[0], ns[0 + 1], a) == Link(schema, g, path, i, ns[0], rest[0], a);
      if Links(schema, g, path, i, ns, a) {
        forall j: nat | j + 1 < |rest| ensures Link(schema, g, path, i + 1 + j, rest[j], rest[j + 1], a) {
          assert Link(schema, g, path, i + (j + 1), ns[j + 1], ns[j + 1 + 1], a);
        }
      }
      if TailFits(schema, g, path, i, ns[0], ns[1..], a) {
        forall j: nat | j + 1 < |ns| ensures Link(schema, g, path, i + j, ns[j], ns[j + 1], a) {
          if j > 0 {
            assert Link(schema, g, path, i + 1 + (j - 1), rest[j - 1], rest[j - 1 + 1], a);
          }
        }
      }
    }
  }

  lemma LinkAt(schema: Schema, g: Graph, path: PatternPath, ns: seq<Node>, a: Assignment, i: nat)
    requires path.Valid() && i < |path.rels| && Links(schema, g, path, 0, ns, a)
    ensures ns[i + 1] in Expand(schema, g, ns[i].id, path.rels[i].relType, path.rels[i].direction)
    ensures ns[i + 1] in g.nodes && NodeMatches(schema, path.nodes[i + 1], ns[i + 1]) && Named(a, path.nodes[i + 1], ns[i + 1])
  {
    hide Expand, NodeMatches, Named;
    assert Link(schema, g, path, 0 + i, ns[i], ns[i + 1], a);
    ExpandMembers(schema, g, ns[i].id, path.rels[i].relType, path.rels[i].direction, ns[i + 1]);
  }

  lemma PathFitsIs(schema: Schema, g: Graph, path: PatternPath, ns: seq<Node>, a: Assignment)
    requires path.Valid()
    ensures PathFits(schema, g, path, ns, a) <==> Solves(schema, g, path, ns, a)
  {
    hide Expand, NodeMatches, Named, TailFits;
    if ns != [] {
      TailFitsIs(schema, g, path, 0, ns, a);
      if Solves(schema, g, path, ns, a) {
        forall j: nat | j + 1 < |ns| ensures Link(schema, g, path, 0 + j, ns[j], ns[j + 1], a) {
          assert path.rels[j] in path.rels;
        }
      }
      if PathFits(schema, g, path, ns, a) {
        assert ns == [ns[0]] + ns[1..];
        forall i | 0 <= i < |path.rels|
          ensures ns[i + 1] in Expand(schema, g, ns[i].id, path.rels[i].relType, path.rels[i].direction)
        {
          LinkAt(schema, g, path, ns, a, i);
        }
        forall i | 0 <= i < |ns|
          ensures ns[i] in g.nodes && NodeMatches(schema, path.nodes[i], ns[i]) && Named(a, path.nodes[i], ns[i])
        {
          if i > 0 {
            LinkAt(schema, g, path, ns, a, i - 1);
          }
        }
      }
    }
  }

  /** Every anonymous first node from here on is the one already met. */
  ghost predicate AnonAgree(paths: seq<PatternPath>, nss: seq<seq<Node>>, anon: Option<Node>)
    requires forall p :: p in paths ==> p.Valid()
  {
    AnchorsAgree(paths, nss) && forall k :: Anonymous(paths, nss, k) && anon.Some? ==> nss[k][0] == anon.value
  }

  lemma AnonAgreeSplits(paths: seq<PatternPath>, nss: seq<seq<Node>>, anon: Option<Node>)
    requires forall p :: p in paths ==> p.Valid()
    requires paths != [] && nss != [] && nss[0] != []
    ensures AnonAgree(paths, nss, anon)
       <==> AnonFits(paths[0], nss[0][0], anon) && AnonAgree(paths[1..], nss[1..], NextAnon(paths[0], nss[0][0], anon))
  {
    var rest, tails := paths[1..], nss[1..];
    forall k: nat ensures Anonymous(rest, tails, k) <==> Anonymous(paths, nss, k + 1) {
    }
    if AnonAgree(paths, nss, anon) {
      assert paths[0] in paths;
      assert Anonymous(paths, nss, 0) <==> paths[0].nodes[0].variable.None?;
      forall k, l | Anonymous(rest, tails, k) && Anonymous(rest, tails, l) ensures tails[k][0] == tails[l][0] {
        assert Anonymous(paths, nss, k + 1) && Anonymous(paths, nss, l + 1);
      }
      forall k | Anonymous(rest, tails, k) && NextAnon(paths[0], nss[0][0], anon).Some? ensures tails[k][0] == NextAnon(paths[0], nss[0][0], anon).value {
        assert Anonymous(paths, nss, k + 1);
      }
    }
    if AnonFits(paths[0], nss[0][0], anon) && AnonAgree(rest, tails, NextAnon(paths[0], nss[0][0], anon)) {
      forall k | Anonymous(paths, nss, k)
        ensures anon.Some? ==> nss[k][0] == anon.value
        ensures paths[0].nodes[0].variable.None? ==> nss[k][0] == nss[0][0]
      {
        if k > 0 {
          assert Anonymous(rest, tails, k - 1) && tails[k - 1] == nss[k];
        }
      }
      forall k, l | Anonymous(paths, nss, k) && Anonymous(paths, nss, l) ensures nss[k][0] == nss[l][0] {
        if k > 0 && l > 0 {
          assert Anonymous(rest, tails, k - 1) && Anonymous(rest, tails, l - 1) && tails[k - 1] == nss[k] && tails[l - 1] == nss[l];
        }
      }
    }
  }

  ghost predicate AllSolve(schema: Schema, g: Graph, paths: seq<PatternPath>, nss: seq<seq<Node>>, a: Assignment) {
    |nss| == |paths| && forall k :: 0 <= k < |paths| ==> Solves(schema, g, paths[k], nss[k], a)
  }

  lemma AllSolveSplits(schema: Schema, g: Graph, paths: seq<PatternPath>, nss: seq<seq<Node>>, a: Assignment)
    requires paths != [] && nss != []
    ensures AllSolve(schema, g, paths, nss, a) <==> Solves(schema, g, paths[0], nss[0], a) && AllSolve(schema, g, paths[1..], nss[1..], a)
  {
    hide Solves;
    if Solves(schema, g, paths[0], nss[0], a) && AllSolve(schema, g, paths[1..], nss[1..], a) {
      forall k | 0 <= k < |paths| ensures Solves(schema, g, paths[k], nss[k], a) {
        if k > 0 {
          assert paths[1..][k - 1] == paths[k] && nss[1..][k - 1] == nss[k];
        }
      }
    }
  }

  lemma {:induction false} PathsFitIs(schema: Schema, g: Graph, paths: seq<PatternPath>, nss: seq<seq<Node>>, a: Assignment, anon: Option<Node>)
    requires forall p :: p in paths ==> p.Valid()
    ensures PathsFit(schema, g, paths, nss, a, anon) <==> AllSolve(schema, g, paths, nss, a) && AnonAgree(paths, nss, anon)
    decreases |paths|
  {
    hide PathFits, Solves, AnonFits, NextAnon, AllSolve, AnonAgree;
    if paths != [] && nss != [] {
      PathFitsIs(schema, g, paths[0], nss[0], a);
      AllSolveSplits(schema, g, paths, nss, a);
      SolvesSome(schema, g, paths[0], nss[0], a);
      if nss[0] != [] {
        AnonAgreeSplits(paths, nss, anon);
        PathsFitIs(schema, g, paths[1..], nss[1..], a, NextAnon(paths[0], nss[0][0], anon));
      }
    } else {
      NothingToSolve(schema, g, paths, nss, a, anon);
    }
  }

  lemma SolvesSome(schema: Schema, g: Graph, path: PatternPath, ns: seq<Node>, a: Assignment)
    requires path.Valid()
    ensures Solves(schema, g, path, ns, a) ==> ns != []
    ensures PathFits(schema, g, path, ns, a) ==> ns != []
  {
    hide TailFits, Expand;
  }

  lemma NothingToSolve(schema: Schema, g: Graph, paths: seq<PatternPath>, nss: seq<seq<Node>>, a: Assignment, anon: Option<Node>)
    requires (paths == [] || nss == []) && forall p :: p in paths ==> p.Valid()
    ensures PathsFit(schema, g, paths, nss, a, anon) <==> AllSolve(schema, g, paths, nss, a) && AnonAgree(paths, nss, anon)
  {
  }

  // ---- the theorem --------------------------------------------------------------------------------------------

  /** The row gives every variable of the pattern the node the assignment gives it. */
  ghost predicate Gives(row: Row, a: Assignment, paths: seq<PatternPath>) {
    forall p, n, v :: p in paths && n in p.nodes && n.variable == Some(v) ==> v in row && v in a && row[v] == NodeV(a[v])
  }

  lemma {:induction false} BoundFromIs(path: PatternPath, i: nat, bound: set<string>, v: string)
    requires path.Valid() && i <= |path.rels|
    ensures v in BoundFrom(path, i, bound) <==> v in bound || exists j :: i < j < |path.nodes| && path.nodes[j].variable == Some(v)
    decreases |path.rels| - i
  {
    if i < |path.rels| {
      BoundFromIs(path, i + 1, Bind(bound, path.nodes[i + 1].variable), v);
    }
  }

  lemma BoundAfterIs(path: PatternPath, bound: set<string>, v: string)
    requires path.Valid()
    ensures v in BoundAfter(path, bound) <==> v in bound || exists n :: n in path.nodes && n.variable == Some(v)
  {
    BoundFromIs(path, 0, Bind(bound, path.nodes[0].variable), v);
    if n :| n in path.nodes && n.variable == Some(v) {
      var j :| 0 <= j < |path.nodes| && path.nodes[j] == n;
    }
  }

  lemma {:induction false} BoundAfterAllIs(paths: seq<PatternPath>, bound: set<string>, v: string)
    requires forall p :: p in paths ==> p.Valid()
    ensures v in BoundAfterAll(paths, bound) <==> v in bound || exists p, n :: p in paths && n in p.nodes && n.variable == Some(v)
    decreases |paths|
  {
    hide BoundAfter;
    if paths != [] {
      BoundAfterIs(paths[0], bound, v);
      BoundAfterAllIs(paths[1..], BoundAfter(paths[0], bound), v);
      assert paths == [paths[0]] + paths[1..];
    }
  }

  lemma GivesIsShows(row: Row, a: Assignment, paths: seq<PatternPath>)
    requires forall p :: p in paths ==> p.Valid()
    ensures Gives(row, a, paths) <==> Shows(row, a, BoundAfterAll(paths, {}))
  {
    hide BoundAfterAll;
    forall v ensures v in BoundAfterAll(paths, {}) <==> exists p, n :: p in paths && n in p.nodes && n.variable == Some(v) {
      BoundAfterAllIs(paths, {}, v);
    }
  }

  /** Some row of the compiled pattern gives the variables the assigned nodes. */
  ghost predicate Yielded(options: Options, g: Graph, paths: seq<PatternPath>, a: Assignment)
    requires forall p :: p in paths ==> p.Valid()
    requires CompilePaths(options, None, paths, {}).Ok?
  {
    exists row: Row :: row in InputRows(options, g, CompilePaths(options, None, paths, {}).value.op) && Gives(row, a, paths)
  }

  /**
   The assignments the rows of a fixed-length pattern show are the ones under which every path holds in the graph, the
   anonymous first nodes of all paths being one and the same node.
   */
  lemma AssignmentsAreSolutions(options: Options, g: Graph, paths: seq<PatternPath>, nodeVars: set<string>, a: Assignment)
    requires forall p :: p in paths ==> p.Valid() && Plannable(options, p) && Apart(nodeVars, p)
    requires g.Valid()
    ensures CompilePaths(options, None, paths, {}).Ok?
    ensures Yielded(options, g, paths, a) <==> exists nss: seq<seq<Node>> :: Solution(options.schema, g, paths, nss, a)
  {
    hide CompilePaths, Gives, PathsJoin, PathsRow, PathsFit, BoundAfterAll, Solves, AnchorsAgree, Plannable, Apart, Shows, InputRows;
    var none: Row := map[];
    RowsAreJoins(options, g, None, paths, {}, nodeVars, none);
    var rows := InputRows(options, g, CompilePaths(options, None, paths, {}).value.op);
    NoRowYet(options, g, nodeVars, a);
    if Yielded(options, g, paths, a) {
      var row: Row :| row in rows && Gives(row, a, paths);
      RowsAreJoins(options, g, None, paths, {}, nodeVars, row);
      var r: Row, nss: seq<seq<Node>> :| r in InputRows(options, g, None) && PathsJoin(options.schema, g, paths, r, nss, {}, false)
                                         && row == PathsRow(paths, r, nss, {}, false);
      GivesIsShows(row, a, paths);
      PathsMean(options.schema, g, paths, none, nss, {}, false, nodeVars, a, None);
      PathsFitIs(options.schema, g, paths, nss, a, None);
      assert Solution(options.schema, g, paths, nss, a);
    }
    if nss: seq<seq<Node>> :| Solution(options.schema, g, paths, nss, a) {
      PathsFitIs(options.schema, g, paths, nss, a, None);
      PathsMean(options.schema, g, paths, none, nss, {}, false, nodeVars, a, None);
      var row := PathsRow(paths, none, nss, {}, false);
      assert none in InputRows(options, g, None) && PathsJoin(options.schema, g, paths, none, nss, {}, false);
      RowsAreJoins(options, g, None, paths, {}, nodeVars, row);
      GivesIsShows(row, a, paths);
    }
  }

  lemma NoRowYet(options: Options, g: Graph, nodeVars: set<string>, a: Assignment)
    ensures RowFits(g, map[], {}, nodeVars, a, None)
    ensures InputHolds(options, g, None, {}, nodeVars)
    ensures InputRows(options, g, None) == [map[]]
  {
  }

  // ---- the condition ------------------------------------------------------------------------------------------

  ghost predicate SameCells(r: Row, q: Row, names: set<string>) {
    forall v :: v in names ==> (v in r <==> v in q) && (v in r ==> r[v] == q[v])
  }

  lemma FewerCells(r: Row, q: Row, names: set<string>, some: set<string>)
    requires SameCells(r, q, names) && some <= names
    ensures SameCells(r, q, some)
  {
  }

  /** An expression reads only its variables. */
  lemma {:induction false} EvaluateReads(e: Expr, r: Row, q: Row, env: Env)
    requires SameCells(r, q, Variables(e))
    ensures Evaluate(e, r, env) == Evaluate(e, q, env)
    decreases e, 1
  {
    hide CompareScalars, EvaluateArithmetic, EvaluateIndex, EntryNamed, AttributeOf, Truthy, VariablesOfAll, VariablesOfFields;
    if e.Comparison? || e.Arithmetic? || e.Index? || e.In? {
      PairReads(e, r, q, env);
    } else {
      match e
      case Boolean(_, operands) => EvaluateAllReads(operands, r, q, env);
      case IsNull(operand, _) => EvaluateReads(operand, r, q, env);
      case UnaryMinus(operand) => EvaluateReads(operand, r, q, env);
      case ListLiteral(items) => EvaluateAllReads(items, r, q, env);
      case MapLiteral(fields) => EvaluateFieldsReads(fields, r, q, env);
      case Call(_, args, _, _) => EvaluateAllReads(args, r, q, env);
      case _ =>
    }
  }

  lemma PairReads(e: Expr, r: Row, q: Row, env: Env)
    requires SameCells(r, q, Variables(e)) && (e.Comparison? || e.Arithmetic? || e.Index? || e.In?)
    ensures Evaluate(e, r, env) == Evaluate(e, q, env)
    decreases e, 0
  {
    hide CompareScalars, EvaluateArithmetic, EvaluateIndex, SameCells, VariablesOfAll;
    match e {
      case Comparison(left, _, right) =>
        FewerCells(r, q, Variables(e), Variables(left));
        FewerCells(r, q, Variables(e), Variables(right));
        EvaluateReads(left, r, q, env);
        EvaluateReads(right, r, q, env);
      case Arithmetic(left, _, right) =>
        FewerCells(r, q, Variables(e), Variables(left));
        FewerCells(r, q, Variables(e), Variables(right));
        EvaluateReads(left, r, q, env);
        EvaluateReads(right, r, q, env);
      case Index(target, index) =>
        FewerCells(r, q, Variables(e), Variables(target));
        FewerCells(r, q, Variables(e), Variables(index));
        EvaluateReads(target, r, q, env);
        EvaluateReads(index, r, q, env);
      case In(operand, list) =>
        FewerCells(r, q, Variables(e), Variables(operand));
        FewerCells(r, q, Variables(e), VariablesOfAll(list));
        EvaluateReads(operand, r, q, env);
        EvaluateAllReads(list, r, q, env);
    }
  }

  lemma {:induction false} EvaluateAllReads(es: seq<Expr>, r: Row, q: Row, env: Env)
    requires SameCells(r, q, VariablesOfAll(es))
    ensures EvaluateAll(es, r, env) == EvaluateAll(es, q, env)
    decreases es, 2
  {
    hide Evaluate, Variables;
    if es != [] {
      EvaluateReads(es[0], r, q, env);
      EvaluateAllReads(es[1..], r, q, env);
    }
  }

  lemma {:induction false} EvaluateFieldsReads(fields: seq<Field>, r: Row, q: Row, env: Env)
    requires SameCells(r, q, VariablesOfFields(fields))
    ensures EvaluateFields(fields, r, env) == EvaluateFields(fields, q, env)
    decreases fields, 2
  {
    if fields != [] {
      EvaluateReads(fields[0].expr, r, q, env);
      EvaluateFieldsReads(fields[1..], r, q, env);
    }
  }

  /** The row that holds exactly the assigned nodes. */
  function AssignedRow(a: Assignment): Row {
    map v | v in a :: NodeV(a[v])
  }

  ghost predicate HasVariable(paths: seq<PatternPath>, v: string) {
    exists p, n :: p in paths && n in p.nodes && n.variable == Some(v)
  }

  /**
   MATCH ... WHERE: the assignments its rows show are the solutions of the pattern on which the condition is true, for a
   condition over the pattern's node variables.
   */
  lemma MatchesAreSolutions(options: Options, g: Graph, paths: seq<PatternPath>, where: Expr, nodeVars: set<string>, a: Assignment)
    requires forall p :: p in paths ==> p.Valid() && Plannable(options, p) && Apart(nodeVars, p)
    requires g.Valid() && paths != [] && forall v :: v in Variables(where) ==> HasVariable(paths, v)
    ensures CompileMatch(options, None, Match(paths, Some(where), false), {}).Ok?
    ensures (exists row: Row :: row in Rows(CompileMatch(options, None, Match(paths, Some(where), false), {}).value.Input(), Cx(options), g, map[])
                                && Gives(row, a, paths))
       <==> (exists nss: seq<seq<Node>> :: Solution(options.schema, g, paths, nss, a)) && Passes(where, AssignedRow(a), options.env)
  {
    hide Rows, Gives, Evaluate, Solution, CompilePaths, Apart, Plannable, HasVariable;
    AssignmentsAreSolutions(options, g, paths, nodeVars, a);
    var state := CompilePaths(options, None, paths, {}).value;
    PatternHasPlan(options, paths);
    var rows := InputRows(options, g, state.op);
    assert rows == Rows(state.Input(), Cx(options), g, map[]);
    RowsOfFilter(state.Input(), where, Cx(options), g, map[]);
    forall row: Row | Gives(row, a, paths) ensures Passes(where, row, options.env) == Passes(where, AssignedRow(a), options.env) {
      GivesCells(row, a, paths, Variables(where));
      EvaluateReads(where, row, AssignedRow(a), options.env);
    }
    forall row: Row ensures row in Filter(rows, ConditionTest(where, options.env)) <==> row in rows && Passes(where, row, options.env) {
      FilterMember(rows, ConditionTest(where, options.env), row);
    }
  }

  lemma GivesCells(row: Row, a: Assignment, paths: seq<PatternPath>, names: set<string>)
    requires Gives(row, a, paths) && forall v :: v in names ==> HasVariable(paths, v)
    ensures SameCells(row, AssignedRow(a), names)
  {
    forall v | v in names ensures v in row && v in a && row[v] == NodeV(a[v]) {
      assert HasVariable(paths, v);
    }
  }

  lemma PatternHasPlan(options: Options, paths: seq<PatternPath>)
    requires forall p :: p in paths ==> p.Valid()
    requires paths != [] && CompilePaths(options, None, paths, {}).Ok?
    ensures CompilePaths(options, None, paths, {}).value.op.Some?
  {
    hide CompilePath, RelError;
    PathsHavePlan(options, None, paths, {});
  }

  lemma {:induction false} PathsHavePlan(options: Options, input: Option<Op>, paths: seq<PatternPath>, bound: set<string>)
    requires forall p :: p in paths ==> p.Valid()
    requires CompilePaths(options, input, paths, bound).Ok? && (input.Some? || paths != [])
    ensures CompilePaths(options, input, paths, bound).value.op.Some?
    decreases |paths|
  {
    hide Anchor, RelError, LastVarLength;
    if paths != [] {
      var st := CompilePath(options, input, paths[0], bound).value;
      RelsHavePlan(options, Anchor(input, paths[0], bound).Input(), paths[0], 0, Anchor(input, paths[0], bound).bound);
      PathsHavePlan(options, st.op, paths[1..], st.bound);
    }
  }

  lemma {:induction false} RelsHavePlan(options: Options, op: Op, path: PatternPath, i: nat, bound: set<string>)
    requires path.Valid() && i <= |path.rels| && CompileRels(options, op, path, i, bound).Ok?
    ensures CompileRels(options, op, path, i, bound).value.op.Some?
    decreases |path.rels| - i
  {
    if i < |path.rels| {
      var next := CompileRel(options, op, path, i, bound).value;
      RelsHavePlan(options, next.Input(), path, i + 1, next.bound);
    }
  }

  // ---- the proviso --------------------------------------------------------------------------------------------

  predicate HasNamedAnchor(path: PatternPath) {
    path.nodes != [] && path.nodes[0].variable.Some?
  }

  predicate OneAnonymousAnchor(paths: seq<PatternPath>)
    requires forall p :: p in paths ==> p.Valid()
  {
    forall k, l :: 0 <= k < l < |paths| ==> HasNamedAnchor(paths[k]) || HasNamedAnchor(paths[l])
  }

  ghost predicate Solvable(schema: Schema, g: Graph, path: PatternPath, a: Assignment) {
    exists ns: seq<Node> :: Solves(schema, g, path, ns, a)
  }

  ghost predicate EachSolved(schema: Schema, g: Graph, paths: seq<PatternPath>, a: Assignment) {
    forall k :: 0 <= k < |paths| ==> Solvable(schema, g, paths[k], a)
  }

  lemma {:induction false} ChooseSolutions(schema: Schema, g: Graph, paths: seq<PatternPath>, a: Assignment) returns (nss: seq<seq<Node>>)
    requires EachSolved(schema, g, paths, a)
    ensures AllSolve(schema, g, paths, nss, a)
    decreases |paths|
  {
    hide Solves;
    nss := [];
    if paths != [] {
      assert Solvable(schema, g, paths[0], a);
      var ns: seq<Node> :| Solves(schema, g, paths[0], ns, a);
      var rest := ChooseSolutions(schema, g, paths[1..], a);
      nss := [ns] + rest;
      assert nss[1..] == rest;
      AllSolveSplits(schema, g, paths, nss, a);
    }
  }

  /** With at most one anonymous first node, the rows show exactly the assignments under which each path holds. */
  lemma NamedAnchorsAreExact(options: Options, g: Graph, paths: seq<PatternPath>, nodeVars: set<string>, a: Assignment)
    requires forall p :: p in paths ==> p.Valid() && Plannable(options, p) && Apart(nodeVars, p)
    requires g.Valid() && OneAnonymousAnchor(paths)
    ensures CompilePaths(options, None, paths, {}).Ok?
    ensures Yielded(options, g, paths, a) <==> EachSolved(options.schema, g, paths, a)
  {
    hide CompilePaths, Yielded, Solves, Plannable, Apart;
    AssignmentsAreSolutions(options, g, paths, nodeVars, a);
    if nss: seq<seq<Node>> :| Solution(options.schema, g, paths, nss, a) {
      forall k | 0 <= k < |paths| ensures Solvable(options.schema, g, paths[k], a) {
        assert Solves(options.schema, g, paths[k], nss[k], a);
      }
    }
    if EachSolved(options.schema, g, paths, a) {
      var nss := ChooseSolutions(options.schema, g, paths, a);
      assert Solution(options.schema, g, paths, nss, a);
    }
  }

  function Labelled(labelName: string): PatternPath {
    PatternPath([NodePattern(None, Some(labelName), [])], [], None)
  }

  function OneOfEach(): Graph {
    Graph([Node("1", "A", map[], []), Node("2", "B", map[], [])])
  }

  function TwoConcepts(): Schema {
    Schema(map["A" := "A", "B" := "B"], map["A" := {"A"}, "B" := {"B"}], map[])
  }

  /** Each label is had by the one node of its concept. */
  lemma OnlyNode(k: nat, ns: seq<Node>)
    requires k < 2
    ensures Solves(TwoConcepts(), OneOfEach(), Labelled(["A", "B"][k]), ns, map[]) <==> ns == [OneOfEach().nodes[k]]
  {
    assert OneOfEach().nodes[0].concept == "A" && OneOfEach().nodes[1].concept == "B";
  }

  /** MATCH (:A), (:B) yields no row on a graph with an A and a B: both anonymous nodes are called the same. */
  lemma AnonymousAnchorsAreJoined(options: Options) returns (schema: Schema, g: Graph)
    ensures g.Valid() && EachSolved(schema, g, [Labelled("A"), Labelled("B")], map[])
    ensures CompilePaths(options.(schema := schema), None, [Labelled("A"), Labelled("B")], {}).Ok?
    ensures !Yielded(options.(schema := schema), g, [Labelled("A"), Labelled("B")], map[])
  {
    hide CompilePaths, Yielded, Digits, Solves;
    schema, g := TwoConcepts(), OneOfEach();
    var paths, nodeVars: set<string> := [Labelled("A"), Labelled("B")], {};
    var none: Assignment := map[];
    OnlyNode(0, [g.nodes[0]]);
    OnlyNode(1, [g.nodes[1]]);
    assert Solvable(schema, g, paths[0], none) && Solvable(schema, g, paths[1], none);
    AssignmentsAreSolutions(options.(schema := schema), g, paths, nodeVars, none);
    forall nss: seq<seq<Node>> ensures !Solution(schema, g, paths, nss, none) {
      if |nss| == 2 && Solves(schema, g, paths[0], nss[0], none) && Solves(schema, g, paths[1], nss[1], none) {
        OnlyNode(0, nss[0]);
        OnlyNode(1, nss[1]);
        assert Anonymous(paths, nss, 0) && Anonymous(paths, nss, 1);
      }
    }
  }
}
