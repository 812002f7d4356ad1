/**
 MERGE: match the whole pattern, or write it.

 `MatcherFindsIff` says when the compiled pattern finds a match for a row; `MergeOperator` runs the clause, each row seeing
 what the ones before it merged, and reuses what this query wrote for a row that the matcher still does not find.
 `FitsPersist`: a match survives what later rows create and what gentle ON actions set.
 */
module Merging {
  import opened Wrappers
  import opened Values
  import opened Query
  import opened Evaluation
  import opened Graphs
  import opened Seqs
  import opened Operators
  import P = Planner
  import VarLength
  import opened GraphWrites
  import M = MatchExactness
  import S = PushDownSoundness

  // ---- the pattern of a MERGE ---------------------------------------------------------------------------------

  /** What the clause is compiled with; `newId` is the id generator and `accepts` what the model allows. */
  datatype Merging = Merging(options: P.Options, path: PatternPath, bound: set<string>, nodeVars: set<string>, newId: Graph -> string,
                         accepts: (Graph, Edge) -> bool, onMatch: (Graph, Row) -> Graph, onCreate: (Graph, Row) -> Graph) {
    function Schema(): Schema {
      options.schema
    }
  }

  function IsBoundAt(m: Merging, i: nat): bool
    requires i < |m.path.nodes|
  {
    P.IsBound(m.bound, m.path.nodes[i].variable)
  }

  /** What is checked before the first row: typed, directed relationships; a label exactly where a node may be created. */
  ghost predicate Mergeable(m: Merging) {
    && M.Plannable(m.options, m.path) && M.Apart(m.nodeVars, m.path) && m.bound <= m.nodeVars
    && (forall r :: r in m.path.rels ==> r.relType.Some? && r.direction != Undirected)
    && (forall i :: 0 <= i < |m.path.nodes| ==>
          if IsBoundAt(m, i) then m.path.nodes[i].labelName.None? && m.path.nodes[i].properties == [] else m.path.nodes[i].labelName.Some?)
    && (forall g :: !Exists(g, m.newId(g)))
  }

  function AttrsOf(properties: seq<Property>): map<string, Scalar> {
    if properties == [] then map[] else AttrsOf(properties[..|properties| - 1])[properties[|properties| - 1].key := properties[|properties| - 1].value]
  }

  datatype Link<T> = Link(from: T, member: string, to: T)

  /** What a relationship of the path joins, in its direction. */
  function LinkAt<T>(path: PatternPath, at: seq<T>, i: nat): Link<T>
    requires i < |path.rels| && i + 1 < |at|
  {
    var member := if path.rels[i].relType.Some? then path.rels[i].relType.value else "";
    if path.rels[i].direction.Outgoing? then Link(at[i], member, at[i + 1]) else Link(at[i + 1], member, at[i])
  }

  /** The edge a relationship of the path stands for. */
  function EdgeAt(path: PatternPath, ids: seq<string>, i: nat): Edge
    requires i < |path.rels| && i + 1 < |ids|
  {
    var l := LinkAt(path, ids, i);
    Edge(l.from, l.member, l.to)
  }

  // ---- writing the pattern ------------------------------------------------------------------------------------

  datatype Made = Made(g: Graph, row: Row, ids: seq<string>)

  function NodeFor(schema: Schema, p: NodePattern, id: string): Node {
    Node(id, if p.labelName.Some? && p.labelName.value in schema.concepts then schema.concepts[p.labelName.value] else "", AttrsOf(p.properties), [])
  }

  /** The first n nodes: a variable the row holds is reused, anything else is created. None when something throws. */
  function MakeNodes(m: Merging, g: Graph, row: Row, n: nat): (r: Option<Made>)
    requires n <= |m.path.nodes|
    ensures r.Some? ==> |r.value.ids| == n
  {
    if n == 0 then Some(Made(g, row, []))
    else
      match MakeNodes(m, g, row, n - 1)
      case None => None
      case Some(made) =>
        var p := m.path.nodes[n - 1];
        if p.variable.Some? && p.variable.value in made.row then
          match made.row[p.variable.value]
          case NodeV(node) => Some(made.(ids := made.ids + [node.id]))
          case _ => None
        else if p.labelName.None? || p.labelName.value !in m.Schema().concepts then None
        else
          var node := NodeFor(m.Schema(), p, m.newId(made.g));
          Some(Made(Created(made.g, node.id, node.concept, node.attrs),
                    if p.variable.Some? then made.row[p.variable.value := NodeV(node)] else made.row,
                    made.ids + [node.id]))
  }

  predicate Acceptable(m: Merging, g: Graph, e: Edge) {
    && Exists(g, e.from) && Exists(g, e.to) && e.member in m.Schema().EdgeMembers(ViewOf(g, e.from).value.concept) && m.accepts(g, e)
  }

  /** The first k relationships; one that is there already is left as it is. */
  function MakeRels(m: Merging, g: Graph, ids: seq<string>, k: nat): Option<Graph>
    requires k <= |m.path.rels| < |ids|
  {
    if k == 0 then Some(g)
    else
      match MakeRels(m, g, ids, k - 1)
      case None => None
      case Some(h) =>
        var e := EdgeAt(m.path, ids, k - 1);
        if !Acceptable(m, h, e) then None else if HasEdge(h, e) then Some(h) else Some(EdgeAdded(h, e))
  }

  /** The first k relationship variables are bound, each to its relationship in its real direction. */
  function WithRels(path: PatternPath, row: Row, ids: seq<string>, k: nat): Row
    requires k <= |path.rels| < |ids|
  {
    if k == 0 then row
    else
      var rel := path.rels[k - 1];
      WithRel(WithRels(path, row, ids, k - 1), rel.variable, VarLength.Oriented(rel.direction, rel.relType, ids[k - 1], ids[k]))
  }

  /** The whole pattern, written for a row. */
  function WritePattern(m: Merging, g: Graph, row: Row): Option<Made>
    requires m.path.Valid()
  {
    match MakeNodes(m, g, row, |m.path.nodes|)
    case None => None
    case Some(made) =>
      match MakeRels(m, made.g, made.ids, |m.path.rels|)
      case None => None
      case Some(h) => Some(Made(h, WithRels(m.path, made.row, made.ids, |m.path.rels|), made.ids))
  }

  // ---- what one query remembers -------------------------------------------------------------------------------

  function IdIn(row: Row, variable: Option<string>): Option<string> {
    if variable.Some? && variable.value in row && row[variable.value].NodeV? then Some(row[variable.value].node.id) else None
  }

  /** What tells apart two rows' writes of the pattern: the nodes the row fixes. */
  function Key(path: PatternPath, row: Row): (r: seq<Option<string>>)
    ensures |r| == |path.nodes| && forall i :: 0 <= i < |r| ==> r[i] == IdIn(row, path.nodes[i].variable)
  {
    seq(|path.nodes|, i requires 0 <= i < |path.nodes| => IdIn(row, path.nodes[i].variable))
  }

  /** What a write bound, under the key of its row. */
  type Known = map<seq<Option<string>>, Row>

  function NewIn(before: Row, after: Row): Row {
    map v | v in after && v !in before :: after[v]
  }

  predicate InRow(row: Row, variable: Option<string>) {
    variable.Some? && variable.value in row
  }

  /** What the row holds for the pattern's variables are nodes. */
  predicate HoldsNodes(path: PatternPath, row: Row) {
    forall p :: p in path.nodes && InRow(row, p.variable) ==> row[p.variable.value].NodeV?
  }

  /** Every node to be created has the label of a concept. */
  predicate LabelsKnown(m: Merging, row: Row) {
    forall p :: p in m.path.nodes && !InRow(row, p.variable) ==> p.labelName.Some? && p.labelName.value in m.Schema().concepts
  }

  // ---- merging ------------------------------------------------------------------------------------------------

  /** A row read now: node values are mirrors, and show their node as it is. */
  function Refreshed(row: Row, g: Graph): Row {
    map v | v in row :: match row[v]
                        case NodeV(n) => (match Find(g.nodes, n.id) case Some(now) => NodeV(now) case None => row[v])
                        case other => other
  }

  function MatchesOf(m: Merging, g: Graph, row: Row): seq<Row>
    requires m.path.Valid()
  {
    match P.CompilePath(m.options, Some(BindingRow(row)), m.path, m.bound)
    case Ok(state) => Rows(state.Input(), M.Cx(m.options), g, map[])
    case Err(_) => []
  }

  function ActOnAll(g: Graph, rows: seq<Row>, act: (Graph, Row) -> Graph): Graph {
    if rows == [] then g else act(ActOnAll(g, rows[..|rows| - 1], act), rows[|rows| - 1])
  }

  datatype Merged = Merged(g: Graph, rows: seq<Row>, known: Known, created: nat)

  /**
   One row: its matches with ON MATCH applied; or else what this query wrote for its key, with ON MATCH applied; or else the
   pattern written and ON CREATE applied.
   */
  function MergeRow(m: Merging, g: Graph, known: Known, row: Row): Option<Merged>
    requires m.path.Valid()
  {
    var now := Refreshed(row, g);
    if !HoldsNodes(m.path, now) then None
    else
      var matches := MatchesOf(m, g, now);
      var key := Key(m.path, now);
      if matches != [] then Some(Merged(ActOnAll(g, matches, m.onMatch), matches, known, 0))
      else if !LabelsKnown(m, now) then None
      else if key in known then
        var again := Refreshed(now + known[key], g);
        Some(Merged(m.onMatch(g, again), [again], known, 0))
      else
        match WritePattern(m, g, now)
        case None => None
        case Some(made) => Some(Merged(m.onCreate(made.g, made.row), [made.row], known[key := NewIn(now, made.row)], 1))
  }

  /** The first n rows of a query, each seeing what the ones before it merged. */
  function MergeFirst(m: Merging, g: Graph, rows: seq<Row>, n: nat): Option<Merged>
    requires m.path.Valid() && n <= |rows|
  {
    if n == 0 then Some(Merged(g, [], map[], 0))
    else
      match MergeFirst(m, g, rows, n - 1)
      case None => None
      case Some(before) =>
        match MergeRow(m, before.g, before.known, rows[n - 1])
        case None => None
        case Some(last) => Some(Merged(last.g, before.rows + last.rows, last.known, before.created + last.created))
  }

  class MergeOperator {
    const m: Merging
    var graph: Graph
    var pending: Known

    constructor (clause: Merging, g: Graph)
      ensures m == clause && graph == g && pending == map[]
    {
      m, graph, pending := clause, g, map[];
    }

    /** Every row's matches, or the row its pattern was written for; None when something throws. */
    method Run(rows: seq<Row>) returns (r: Option<seq<Row>>, created: nat)
      requires m.path.Valid() && pending == map[]
      modifies this
      ensures match MergeFirst(m, old(graph), rows, |rows|)
              case None => r.None?
              case Some(merged) => r == Some(merged.rows) && graph == merged.g && pending == merged.known && created == merged.created
    {
      hide MergeRow;
      var out: seq<Row> := [];
      created := 0;
      for i := 0 to |rows|
        invariant MergeFirst(m, old(graph), rows, i) == Some(Merged(graph, out, pending, created))
      {
        var last, written := MergeOne(rows[i]);
        if last.None? {
          NoneFrom(m, old(graph), rows, i + 1, |rows|);
          return None, created;
        }
        out := out + last.value;
        created := created + written;
      }
      r := Some(out);
    }

    method MergeOne(given: Row) returns (r: Option<seq<Row>>, created: nat)
      requires m.path.Valid()
      modifies this
      ensures match MergeRow(m, old(graph), old(pending), given)
              case None => r.None?
              case Some(merged) => r == Some(merged.rows) && graph == merged.g && pending == merged.known && created == merged.created
    {
      hide MatchesOf, MakeNodes, MakeRels, Refreshed, HoldsNodes, LabelsKnown, Key, NewIn, WithRels;
      var row := Refreshed(given, graph);
      if !HoldsNodes(m.path, row) {
        return None, 0;
      }
      var matches := MatchesOf(m, graph, row);
      if matches != [] {
        ActOnMatches(matches);
        return Some(matches), 0;
      }
      if !LabelsKnown(m, row) {
        return None, 0;
      }
      var key := Key(m.path, row);
      if key in pending {
        var again := Refreshed(row + pending[key], graph);
        graph := m.onMatch(graph, again);
        return Some([again]), 0;
      }
      var made := CreatePath(row);
      if made.None? {
        return None, 0;
      }
      pending := pending[key := NewIn(row, made.value)];
      graph := m.onCreate(graph, made.value);
      r, created := Some([made.value]), 1;
    }

    method ActOnMatches(matches: seq<Row>)
      modifies `graph
      ensures graph == ActOnAll(old(graph), matches, m.onMatch)
    {
      for j := 0 to |matches|
        invariant graph == ActOnAll(old(graph), matches[..j], m.onMatch)
      {
        assert matches[..j + 1][..j] == matches[..j];
        graph := m.onMatch(graph, matches[j]);
      }
      assert matches[..|matches|] == matches;
    }

    /** Writes the pattern: the row that names what it made. */
    method CreatePath(row: Row) returns (r: Option<Row>)
      requires m.path.Valid()
      modifies `graph
      ensures match WritePattern(m, old(graph), row)
              case None => r.None?
              case Some(made) => r == Some(made.row) && graph == made.g
    {
      hide MakeNodes, MakeRels, WithRels;
      var nodes := CreateNodes(row);
      if nodes.None? {
        return None;
      }
      r := CreateRels(nodes.value.0, nodes.value.1);
    }

    /** Reuses the bound nodes and creates the rest: the row that names them, and their ids. */
    method CreateNodes(row: Row) returns (r: Option<(Row, seq<string>)>)
      requires m.path.Valid()
      modifies `graph
      ensures match MakeNodes(m, old(graph), row, |m.path.nodes|)
              case None => r.None?
              case Some(made) => r == Some((made.row, made.ids)) && graph == made.g && |made.ids| == |m.path.nodes|
    {
      hide NodeFor, Created;
      var current, ids := row, [];
      for i := 0 to |m.path.nodes|
        invariant |ids| == i && MakeNodes(m, old(graph), row, i) == Some(Made(graph, current, ids))
      {
        var p := m.path.nodes[i];
        if p.variable.Some? && p.variable.value in current {
          if !current[p.variable.value].NodeV? {
            NoNodesFrom(m, old(graph), row, i + 1, |m.path.nodes|);
            return None;
          }
          ids := ids + [current[p.variable.value].node.id];
        } else {
          if p.labelName.None? || p.labelName.value !in m.Schema().concepts {
            NoNodesFrom(m, old(graph), row, i + 1, |m.path.nodes|);
            return None;
          }
          var node := NodeFor(m.Schema(), p, m.newId(graph));
          graph := Created(graph, node.id, node.concept, node.attrs);
          current := if p.variable.Some? then current[p.variable.value := NodeV(node)] else current;
          ids := ids + [node.id];
        }
      }
      r := Some((current, ids));
    }

    /** Creates each relationship in its direction, unless it is there, and binds it; None when one is refused. */
    method CreateRels(row: Row, ids: seq<string>) returns (r: Option<Row>)
      requires m.path.Valid() && |ids| == |m.path.nodes|
      modifies `graph
      ensures match MakeRels(m, old(graph), ids, |m.path.rels|)
              case None => r.None?
              case Some(h) => r == Some(WithRels(m.path, row, ids, |m.path.rels|)) && graph == h
    {
      hide Acceptable, HasEdge, EdgeAdded;
      var current := row;
      for i := 0 to |m.path.rels|
        invariant MakeRels(m, old(graph), ids, i) == Some(graph) && current == WithRels(m.path, row, ids, i)
      {
        var e, rel := EdgeAt(m.path, ids, i), m.path.rels[i];
        if !Acceptable(m, graph, e) {
          NoRelsFrom(m, old(graph), ids, i + 1, |m.path.rels|);
          return None;
        }
        if !HasEdge(graph, e) {
          graph := EdgeAdded(graph, e);
        }
        current := WithRel(current, rel.variable, VarLength.Oriented(rel.direction, rel.relType, ids[i], ids[i + 1]));
      }
      r := Some(current);
    }
  }

  lemma {:induction false} NoneFrom(m: Merging, g: Graph, rows: seq<Row>, i: nat, n: nat)
    requires m.path.Valid() && i <= n <= |rows| && MergeFirst(m, g, rows, i).None?
    ensures MergeFirst(m, g, rows, n).None?
  {
    hide MergeRow;
    if i < n {
      NoneFrom(m, g, rows, i, n - 1);
    }
  }

  lemma {:induction false} NoNodesFrom(m: Merging, g: Graph, row: Row, i: nat, n: nat)
    requires i <= n <= |m.path.nodes| && MakeNodes(m, g, row, i).None?
    ensures MakeNodes(m, g, row, n).None?
  {
    if i < n {
      NoNodesFrom(m, g, row, i, n - 1);
    }
  }

  lemma {:induction false} NoRelsFrom(m: Merging, g: Graph, ids: seq<string>, i: nat, n: nat)
    requires i <= n <= |m.path.rels| < |ids| && MakeRels(m, g, ids, i).None?
    ensures MakeRels(m, g, ids, n).None?
  {
    if i < n {
      NoRelsFrom(m, g, ids, i, n - 1);
    }
  }

  // ---- matching by identity -----------------------------------------------------------------------------------

  /** The row fixes the bound variables, and the anonymous first node an earlier clause may have left. */
  ghost predicate RowOk(m: Merging, g: Graph, row: Row) {
    && (forall v :: v in m.bound ==> v in row && row[v].NodeV? && Exists(g, row[v].node.id))
    && (forall v :: v in m.nodeVars && v !in m.bound ==> v !in row)
    && (M.ANON_ANCHOR in row ==> row[M.ANON_ANCHOR].NodeV? && Exists(g, row[M.ANON_ANCHOR].node.id))
  }

  /** The nodes with these ids satisfy the path. */
  ghost predicate IdsHold(schema: Schema, g: Graph, path: PatternPath, ids: seq<string>) {
    && |ids| == |path.nodes| == |path.rels| + 1
    && (forall i :: 0 <= i < |ids| ==> Exists(g, ids[i]) && M.NodeMatches(schema, path.nodes[i], NodeOf(g, ids[i])))
    && (forall i :: 0 <= i < |path.rels| ==> HasEdge(g, EdgeAt(path, ids, i)))
  }

  /** A variable stands for one node, a bound one for the row's. */
  ghost predicate IdsNamed(path: PatternPath, ids: seq<string>, row: Row, bound: set<string>) {
    && |ids| == |path.nodes|
    && (forall i, j :: 0 <= i < j < |ids| && path.nodes[i].variable.Some? && path.nodes[i].variable == path.nodes[j].variable ==> ids[i] == ids[j])
    && (forall i :: 0 <= i < |ids| && P.IsBound(bound, path.nodes[i].variable) ==>
          path.nodes[i].variable.value in row && row[path.nodes[i].variable.value].NodeV? && row[path.nodes[i].variable.value].node.id == ids[i])
  }

  /** An anonymous first node must be the one an earlier path of the scope left in the row. */
  predicate AnchorAgrees(path: PatternPath, ids: seq<string>, row: Row) {
    path.nodes != [] && ids != [] && path.nodes[0].variable.None? && M.ANON_ANCHOR in row && row[M.ANON_ANCHOR].NodeV?
    ==> row[M.ANON_ANCHOR].node.id == ids[0]
  }

  ghost predicate Fits(m: Merging, g: Graph, row: Row, ids: seq<string>) {
    IdsHold(m.Schema(), g, m.path, ids) && IdsNamed(m.path, ids, row, m.bound) && AnchorAgrees(m.path, ids, row)
  }

  lemma HopIsEdge(schema: Schema, g: Graph, id: string, t: string, direction: Direction, n: Node)
    requires WellFormed(schema, g) && direction != Undirected && n in g.nodes
    ensures n in Expand(schema, g, id, Some(t), direction)
       <==> HasEdge(g, if direction.Outgoing? then Edge(id, t, n.id) else Edge(n.id, t, id))
  {
    hide OutgoingNodes, IncomingNodes;
    var e := if direction.Outgoing? then Edge(id, t, n.id) else Edge(n.id, t, id);
    var hops := Expand(schema, g, id, Some(t), direction);
    FindMember(g, n);
    if direction.Outgoing? {
      OutgoingDegree(schema, g, id, Some(t), n.id);
    } else {
      IncomingDegree(schema, g, id, Some(t), n.id);
    }
    DegreeOfType(schema, g, e.from, e.to, t);
    IdsCount(g, hops, n);
    if n.id in Ids(hops) {
      var i :| 0 <= i < |hops| && hops[i].id == n.id;
      ExpandMembers(schema, g, id, Some(t), direction, hops[i]);
      FindMember(g, hops[i]);
    }
  }

  /** The variable of a directed relationship holds the very reference that was followed, in its real direction. */
  predicate HoldsEdge(g: Graph, out: Row, v: string, t: string, direction: Direction, from: string, to: string) {
    var e := if direction.Outgoing? then Edge(from, t, to) else Edge(to, t, from);
    v in out && out[v] == RelV(Rel(e.from, t, e.to)) && HasEdge(g, e)
  }

  lemma ExpandedRelIsEdge(schema: Schema, g: Graph, row: Row, from: string, to: string, rel: RelPattern, toLabel: Option<string>, out: Row)
    requires WellFormed(schema, g) && from in row && row[from].NodeV? && rel.relType.Some? && rel.direction != Undirected
    requires rel.variable.Some? && rel.variable.value != to && out in ExpandRow(schema, g, row, from, to, rel, toLabel)
    ensures to in out && out[to].NodeV? && schema.HasLabel(out[to].node, toLabel)
    ensures HoldsEdge(g, out, rel.variable.value, rel.relType.value, rel.direction, row[from].node.id, out[to].node.id)
  {
    hide Expand, WellFormed, HasEdge;
    var id := row[from].node.id;
    var hops := Expand(schema, g, id, rel.relType, rel.direction);
    FlatMapMember(hops, ExpandTo(schema, row, id, to, rel, toLabel), out);
    var n :| n in hops && out in ExpandTo(schema, row, id, to, rel, toLabel)(n);
    ExpandMembers(schema, g, id, rel.relType, rel.direction, n);
    HopIsEdge(schema, g, id, rel.relType.value, rel.direction, n);
  }

  lemma ExpandedIntoRelIsEdge(schema: Schema, g: Graph, row: Row, from: string, to: string, rel: RelPattern, out: Row)
    requires WellFormed(schema, g) && from in row && row[from].NodeV? && to in row && row[to].NodeV?
    requires rel.relType.Some? && rel.direction != Undirected && rel.variable.Some? && out in ExpandIntoRow(schema, g, row, from, to, rel)
    ensures HoldsEdge(g, out, rel.variable.value, rel.relType.value, rel.direction, row[from].node.id, row[to].node.id)
  {
    hide Expand, WellFormed, HasEdge;
    var id := row[from].node.id;
    var hops := Expand(schema, g, id, rel.relType, rel.direction);
    var n :| n in hops && n.id == row[to].node.id;
    ExpandMembers(schema, g, id, rel.relType, rel.direction, n);
    HopIsEdge(schema, g, id, rel.relType.value, rel.direction, n);
  }

  lemma IdsCount(g: Graph, hops: seq<Node>, n: Node)
    ensures n.id in Ids(hops) <==> multiset(Ids(hops))[n.id] > 0
    ensures n in hops ==> n.id in Ids(hops)
  {
    if n in hops {
      var i :| 0 <= i < |hops| && hops[i] == n;
      assert Ids(hops)[i] == n.id;
    }
  }

  lemma DegreeOfType(schema: Schema, g: Graph, from: string, to: string, t: string)
    requires WellFormed(schema, g)
    ensures Degree(g, from, to, Some(t)) > 0 <==> HasEdge(g, Edge(from, t, to))
  {
    FindIs(g.nodes, from);
    if Find(g.nodes, from).Some? {
      var n := Find(g.nodes, from).value;
      LinksAre(n.refs, schema.EdgeMembers(n.concept), to, Some(t), t);
      if Links(n.refs, to, Some(t)) != {} {
        var member :| member in Links(n.refs, to, Some(t));
        LinksAre(n.refs, schema.EdgeMembers(n.concept), to, Some(t), member);
      }
    }
  }

  function NodeOf(g: Graph, id: string): Node {
    match Find(g.nodes, id)
    case Some(n) => n
    case None => Node(id, "", map[], [])
  }

  function NodesAt(g: Graph, ids: seq<string>): (r: seq<Node>)
    ensures |r| == |ids| && forall i :: 0 <= i < |ids| ==> r[i] == NodeOf(g, ids[i])
  {
    seq(|ids|, i requires 0 <= i < |ids| => NodeOf(g, ids[i]))
  }

  /** Satisfying the path by nodes and by ids is the same. */
  lemma HoldsByIds(m: Merging, g: Graph, ids: seq<string>)
    requires Mergeable(m) && WellFormed(m.Schema(), g) && forall i :: 0 <= i < |ids| ==> Exists(g, ids[i])
    ensures M.PathHolds(m.Schema(), g, m.path, NodesAt(g, ids)) <==> IdsHold(m.Schema(), g, m.path, ids)
  {
    hide Expand, M.NodeMatches, WellFormed, M.Apart, HasEdge;
    var ns := NodesAt(g, ids);
    forall i | 0 <= i < |ids| ensures ns[i] in g.nodes && ns[i].id == ids[i] {
      FindIs(g.nodes, ids[i]);
    }
    if |ids| == |m.path.rels| + 1 {
      forall i | 0 <= i < |m.path.rels|
        ensures ns[i + 1] in Expand(m.Schema(), g, ns[i].id, m.path.rels[i].relType, m.path.rels[i].direction) <==> HasEdge(g, EdgeAt(m.path, ids, i))
      {
        assert m.path.rels[i] in m.path.rels;
        HopIsEdge(m.Schema(), g, ns[i].id, m.path.rels[i].relType.value, m.path.rels[i].direction, ns[i + 1]);
      }
    }
  }

  // ---- what the compiled pattern finds ------------------------------------------------------------------------

  function Held(row: Row, v: string): Option<Node> {
    if v in row && row[v].NodeV? then Some(row[v].node) else None
  }

  predicate NamesAt(row: Row, v: string, id: string) {
    Held(row, v).Some? && Held(row, v).value.id == id
  }

  /** The row holds these nodes for the variables of the path. */
  ghost predicate ShowsIds(path: PatternPath, row: Row, ids: seq<string>) {
    |ids| == |path.nodes| && forall i :: 0 <= i < |ids| && path.nodes[i].variable.Some? ==> NamesAt(row, path.nodes[i].variable.value, ids[i])
  }

  /** The nodes a row holds for some names. */
  function HeldBy(row: Row, names: set<string>): M.Assignment {
    map v | v in names && Held(row, v).Some? :: Held(row, v).value
  }

  function Anon(row: Row): Option<Node> {
    Held(row, M.ANON_ANCHOR)
  }

  lemma RefreshedHolds(m: Merging, g: Graph, row: Row)
    requires Mergeable(m) && WellFormed(m.Schema(), g) && RowOk(m, g, row)
    ensures RowOk(m, g, Refreshed(row, g))
    ensures forall v :: v in m.bound ==> Held(Refreshed(row, g), v).Some? && Held(Refreshed(row, g), v).value in g.nodes
    ensures Anon(Refreshed(row, g)).Some? <==> M.ANON_ANCHOR in row
    ensures Anon(Refreshed(row, g)).Some? ==> Anon(Refreshed(row, g)).value in g.nodes
    ensures forall ids :: (IdsNamed(m.path, ids, Refreshed(row, g), m.bound) <==> IdsNamed(m.path, ids, row, m.bound))
                          && (AnchorAgrees(m.path, ids, Refreshed(row, g)) <==> AnchorAgrees(m.path, ids, row))
  {
    hide M.Plannable, M.Apart, WellFormed;
    forall v | v in row && row[v].NodeV? ensures Refreshed(row, g)[v].NodeV? && Refreshed(row, g)[v].node.id == row[v].node.id {
      FindIs(g.nodes, row[v].node.id);
    }
    forall v | v in row && row[v].NodeV? && Exists(g, row[v].node.id) ensures Refreshed(row, g)[v].node in g.nodes {
      FindIs(g.nodes, row[v].node.id);
    }
  }

  /** The node variables of the path. */
  function VarsOf(path: PatternPath): set<string> {
    set n | n in path.nodes && n.variable.Some? :: n.variable.value
  }

  function At(nodes: seq<NodePattern>, v: string): nat
    requires exists n :: n in nodes && n.variable == Some(v)
    ensures At(nodes, v) < |nodes| && nodes[At(nodes, v)].variable == Some(v)
    ensures forall i :: 0 <= i < At(nodes, v) ==> nodes[i].variable != Some(v)
  {
    if nodes[0].variable == Some(v) then 0 else 1 + At(nodes[1..], v)
  }

  /** The assignment of nodes at the positions of the path, and of what the row holds. */
  function Assigned(m: Merging, row: Row, ns: seq<Node>): M.Assignment
    requires |ns| == |m.path.nodes| && forall v :: v in m.bound ==> Held(row, v).Some?
  {
    map v | v in m.bound + VarsOf(m.path) :: if v in m.bound then Held(row, v).value else ns[At(m.path.nodes, v)]
  }

  lemma AssignedNames(m: Merging, g: Graph, row: Row, ids: seq<string>)
    requires WellFormed(m.Schema(), g) && IdsNamed(m.path, ids, row, m.bound) && forall i :: 0 <= i < |ids| ==> Exists(g, ids[i])
    requires forall v :: v in m.bound ==> Held(row, v).Some? && Held(row, v).value in g.nodes
    ensures forall i :: 0 <= i < |ids| ==> M.Named(Assigned(m, row, NodesAt(g, ids)), m.path.nodes[i], NodesAt(g, ids)[i])
    ensures M.Shows(row, Assigned(m, row, NodesAt(g, ids)), m.bound)
  {
    var ns := NodesAt(g, ids);
    var a := Assigned(m, row, ns);
    forall i | 0 <= i < |ids| ensures M.Named(a, m.path.nodes[i], ns[i]) {
      if m.path.nodes[i].variable.Some? {
        var v := m.path.nodes[i].variable.value;
        assert m.path.nodes[i] in m.path.nodes && v in VarsOf(m.path);
        if v in m.bound {
          FindMember(g, Held(row, v).value);
        } else {
          var j := At(m.path.nodes, v);
          assert ids[j] == ids[i];
        }
      }
    }
  }

  lemma CurrentFits(m: Merging, g: Graph, row: Row, a: M.Assignment)
    requires Mergeable(m) && RowOk(m, g, row) && M.Shows(row, a, m.bound)
    requires Anon(row).Some? ==> Anon(row).value in g.nodes
    ensures M.RowFits(g, row, m.bound, m.nodeVars, a, Anon(row))
    ensures (forall v :: v in m.bound ==> Held(row, v).Some? && Held(row, v).value in g.nodes)
        ==> M.InputHolds(m.options, g, Some(BindingRow(row)), m.bound, m.nodeVars)
  {
    hide M.Plannable, M.Apart, Exists;
    var input := BindingRow(row);
    assert Rows(input, M.Cx(m.options), g, map[]) == [row];
  }

  lemma ShownAreNamed(path: PatternPath, bound: set<string>, next: Row, ns: seq<Node>, a: M.Assignment)
    requires path.Valid() && |ns| == |path.nodes| && M.Shows(next, a, M.BoundAfter(path, bound))
    requires forall i :: 0 <= i < |ns| ==> M.Named(a, path.nodes[i], ns[i])
    ensures ShowsIds(path, next, Ids(ns))
  {
    hide M.BoundAfter;
    forall i | 0 <= i < |ns| && path.nodes[i].variable.Some? ensures NamesAt(next, path.nodes[i].variable.value, ns[i].id) {
      M.BoundAfterIs(path, bound, path.nodes[i].variable.value);
      assert path.nodes[i] in path.nodes && M.Named(a, path.nodes[i], ns[i]);
    }
  }

  /** Ids that fit give a row of the compiled pattern that shows them. */
  lemma FitGivesMatch(m: Merging, g: Graph, row: Row, ids: seq<string>) returns (next: Row)
    requires Mergeable(m) && WellFormed(m.Schema(), g) && RowOk(m, g, row) && Fits(m, g, row, ids)
    requires forall v :: v in m.bound ==> Held(row, v).Some? && Held(row, v).value in g.nodes
    requires Anon(row).Some? ==> Anon(row).value in g.nodes
    ensures next in MatchesOf(m, g, row) && ShowsIds(m.path, next, ids)
  {
    hide M.Apart, M.PathHolds, Rows, P.CompilePath, M.PathJoins, M.PathRow, M.RowFits, M.InputHolds, M.Named, M.Shows, RowOk;
    var ns := NodesAt(g, ids);
    HoldsByIds(m, g, ids);
    AssignedNames(m, g, row, ids);
    var a := Assigned(m, row, ns);
    CurrentFits(m, g, row, a);
    assert M.Solves(m.Schema(), g, m.path, ns, a);
    M.PathFitsIs(m.Schema(), g, m.path, ns, a);
    assert M.AnonFits(m.path, ns[0], Anon(row)) by {
      if m.path.nodes[0].variable.None? && Anon(row).Some? {
        FindMember(g, Anon(row).value);
      }
    }
    M.PathMeans(m.Schema(), g, m.path, row, ns, m.bound, true, m.nodeVars, a, Anon(row));
    next := M.PathRow(m.path, row, ns, m.bound, true);
    ShownAreNamed(m.path, m.bound, next, ns, a);
    assert Ids(ns) == ids by {
      NodesHaveIds(g, ids);
    }
    InputIsRow(m, g, row);
    assert M.Joined(m.Schema(), g, [row], m.path, m.bound, true, next) by {
      assert row in [row];
    }
    M.PathRows(m.options, g, Some(BindingRow(row)), m.path, m.bound, m.nodeVars, next);
    assert next in MatchesOf(m, g, row);
  }

  lemma NodesHaveIds(g: Graph, ids: seq<string>)
    requires forall i :: 0 <= i < |ids| ==> Exists(g, ids[i])
    ensures Ids(NodesAt(g, ids)) == ids
  {
    forall i | 0 <= i < |ids| ensures NodesAt(g, ids)[i].id == ids[i] {
      FindIs(g.nodes, ids[i]);
    }
  }

  lemma InputIsRow(m: Merging, g: Graph, row: Row)
    ensures M.InputRows(m.options, g, Some(BindingRow(row))) == [row]
  {
  }

  /** A row of the compiled pattern shows ids that fit. */
  lemma MatchGivesFit(m: Merging, g: Graph, row: Row, next: Row) returns (ids: seq<string>)
    requires Mergeable(m) && WellFormed(m.Schema(), g) && RowOk(m, g, row) && next in MatchesOf(m, g, row)
    requires forall v :: v in m.bound ==> Held(row, v).Some? && Held(row, v).value in g.nodes
    requires Anon(row).Some? ==> Anon(row).value in g.nodes
    ensures Fits(m, g, row, ids) && ShowsIds(m.path, next, ids)
  {
    hide M.Apart, M.PathHolds, Rows, P.CompilePath, M.PathJoins, M.PathRow, M.RowFits, M.InputHolds, M.BoundAfter, RowOk;
    CurrentFits(m, g, row, HeldBy(row, m.bound));
    InputIsRow(m, g, row);
    M.PathRows(m.options, g, Some(BindingRow(row)), m.path, m.bound, m.nodeVars, next);
    assert next in MatchesOf(m, g, row);
    var r: Row, ns: seq<Node> :| r in [row] && M.PathJoins(m.Schema(), g, m.path, r, ns, m.bound, true) && next == M.PathRow(m.path, r, ns, m.bound, true);
    var a := MatchAssignment(m, g, row, ns, next);
    CurrentFits(m, g, row, a);
    M.PathMeans(m.Schema(), g, m.path, row, ns, m.bound, true, m.nodeVars, a, Anon(row));
    M.PathFitsIs(m.Schema(), g, m.path, ns, a);
    ids := SolutionIds(m, g, row, ns, a);
    ShownAreNamed(m.path, m.bound, next, ns, a);
  }

  lemma MatchAssignment(m: Merging, g: Graph, row: Row, ns: seq<Node>, next: Row) returns (a: M.Assignment)
    requires Mergeable(m) && WellFormed(m.Schema(), g) && RowOk(m, g, row) && next == M.PathRow(m.path, row, ns, m.bound, true)
    requires next in MatchesOf(m, g, row)
    requires forall v :: v in m.bound ==> Held(row, v).Some? && Held(row, v).value in g.nodes
    requires Anon(row).Some? ==> Anon(row).value in g.nodes
    ensures M.Shows(next, a, M.BoundAfter(m.path, m.bound)) && M.Shows(row, a, m.bound)
  {
    hide M.PathHolds, Rows, P.CompilePath, M.PathRow, M.RowFits, M.BoundAfter, M.BoundFrom;
    CurrentFits(m, g, row, HeldBy(row, m.bound));
    M.PathRows(m.options, g, Some(BindingRow(row)), m.path, m.bound, m.nodeVars, next);
    var after := M.BoundAfter(m.path, m.bound);
    a := HeldBy(next, after);
    forall v | v in after ensures v in m.nodeVars {
      M.BoundAfterIs(m.path, m.bound, v);
    }
    forall v | v in m.bound ensures v in after && next[v] == row[v] && v in next {
      M.BoundAfterIs(m.path, m.bound, v);
      M.PathKeeps(m.path, row, ns, m.bound, true, m.nodeVars, v);
    }
    assert M.HoldsNodes(g, next, after, m.nodeVars);
  }

  lemma SolutionIds(m: Merging, g: Graph, row: Row, ns: seq<Node>, a: M.Assignment) returns (ids: seq<string>)
    requires Mergeable(m) && WellFormed(m.Schema(), g) && M.Solves(m.Schema(), g, m.path, ns, a) && M.Shows(row, a, m.bound)
    requires ns != [] && M.AnonFits(m.path, ns[0], Anon(row))
    ensures Fits(m, g, row, ids) && ids == Ids(ns)
  {
    hide M.Apart, Expand, M.NodeMatches;
    ids := Ids(ns);
    forall i | 0 <= i < |ns| ensures Find(g.nodes, ids[i]) == Some(ns[i]) {
      FindMember(g, ns[i]);
    }
    assert NodesAt(g, ids) == ns;
    HoldsByIds(m, g, ids);
    forall i | 0 <= i < |ids| && m.path.nodes[i].variable.Some? ensures m.path.nodes[i].variable.value in a && ids[i] == a[m.path.nodes[i].variable.value].id {
      assert M.Named(a, m.path.nodes[i], ns[i]);
    }
  }

  /** The compiled pattern finds something for a row exactly when some nodes fit it. */
  lemma MatcherFindsIff(m: Merging, g: Graph, row: Row)
    requires Mergeable(m) && WellFormed(m.Schema(), g) && RowOk(m, g, row)
    ensures MatchesOf(m, g, Refreshed(row, g)) != [] <==> exists ids :: Fits(m, g, row, ids)
  {
    hide M.Apart, M.FixedLength, P.RelError, WellFormed, RowOk, MatchesOf, IdsNamed, IdsHold, AnchorAgrees;
    RefreshedHolds(m, g, row);
    var now := Refreshed(row, g);
    assert forall ids :: Fits(m, g, row, ids) <==> Fits(m, g, now, ids);
    if MatchesOf(m, g, now) != [] {
      var ids := MatchGivesFit(m, g, now, MatchesOf(m, g, now)[0]);
    }
    if ids :| Fits(m, g, now, ids) {
      var next := FitGivesMatch(m, g, now, ids);
    }
  }

  // ---- graphs that keep a match -------------------------------------------------------------------------------

  predicate AsksFor(path: PatternPath, key: string) {
    exists p, q :: p in path.nodes && q in p.properties && q.key == key
  }

  predicate Follows(path: PatternPath, member: string) {
    exists r :: r in path.rels && r.relType == Some(member)
  }

  /** Every node stays with its concept and the properties the pattern asks for, and so do the pattern's relationships. */
  ghost predicate Gentle(m: Merging, g: Graph, h: Graph) {
    && WellFormed(m.Schema(), h)
    && (forall id :: Exists(g, id) ==> Exists(h, id) && NodeOf(h, id).concept == NodeOf(g, id).concept)
    && (forall id, key :: Exists(g, id) && AsksFor(m.path, key) && key in NodeOf(g, id).attrs ==>
          key in NodeOf(h, id).attrs && NodeOf(h, id).attrs[key] == NodeOf(g, id).attrs[key])
    && (forall e :: HasEdge(g, e) && Follows(m.path, e.member) ==> HasEdge(h, e))
  }

  /** The ON actions leave alone what the pattern asks for. */
  ghost predicate GentleActions(m: Merging) {
    forall g, row: Row :: WellFormed(m.Schema(), g) ==> Gentle(m, g, m.onMatch(g, row)) && Gentle(m, g, m.onCreate(g, row))
  }

  /** SET v.name = value, or REMOVE v.name. */
  function SetAction(variable: string, name: string, value: Option<Scalar>): (Graph, Row) -> Graph {
    (g: Graph, row: Row) => match Held(row, variable)
                            case None => g
                            case Some(n) => AttrSet(g, n.id, name, value)
  }

  /** Setting or removing a property the pattern does not ask for is gentle. */
  lemma PlainSetIsGentle(m: Merging, variable: string, name: string, value: Option<Scalar>, g: Graph, row: Row)
    requires !AsksFor(m.path, name) && WellFormed(m.Schema(), g)
    ensures Gentle(m, g, SetAction(variable, name, value)(g, row))
  {
    hide WellFormed, AsksFor, Follows, HasEdge, AttrSet;
    var h := SetAction(variable, name, value)(g, row);
    if Held(row, variable).Some? {
      var id := Held(row, variable).value.id;
      AttrSetWorks(m.Schema(), g, id, name, value);
      forall x | Exists(g, x)
        ensures Exists(h, x) && NodeOf(h, x).concept == NodeOf(g, x).concept
        ensures forall key :: AsksFor(m.path, key) && key in NodeOf(g, x).attrs ==> key in NodeOf(h, x).attrs && NodeOf(h, x).attrs[key] == NodeOf(g, x).attrs[key]
      {
        assert ViewOf(h, x).Some? && ViewOf(g, x).Some?;
      }
    }
  }

  lemma GentleAgain(m: Merging, g: Graph, h: Graph, k: Graph)
    requires Gentle(m, g, h) && Gentle(m, h, k)
    ensures Gentle(m, g, k)
  {
    hide WellFormed, AsksFor, Follows, HasEdge;
  }

  lemma HoldPersists(m: Merging, g: Graph, h: Graph, ids: seq<string>)
    requires m.path.Valid() && (forall r :: r in m.path.rels ==> r.relType.Some?) && Gentle(m, g, h) && IdsHold(m.Schema(), g, m.path, ids)
    ensures IdsHold(m.Schema(), h, m.path, ids)
  {
    hide WellFormed, HasEdge, Exists;
    forall i | 0 <= i < |ids| ensures M.NodeMatches(m.Schema(), m.path.nodes[i], NodeOf(h, ids[i])) {
      var p, n := m.path.nodes[i], NodeOf(g, ids[i]);
      assert Exists(g, ids[i]) && M.NodeMatches(m.Schema(), p, n) && p in m.path.nodes;
      forall q | q in p.properties ensures q.key in NodeOf(h, ids[i]).attrs && NodeOf(h, ids[i]).attrs[q.key] == q.value {
        assert AsksFor(m.path, q.key);
      }
    }
    forall i | 0 <= i < |m.path.rels| ensures HasEdge(h, EdgeAt(m.path, ids, i)) {
      assert m.path.rels[i] in m.path.rels && Follows(m.path, EdgeAt(m.path, ids, i).member);
    }
  }

  lemma FitsPersist(m: Merging, g: Graph, h: Graph, row: Row, ids: seq<string>)
    requires m.path.Valid() && (forall r :: r in m.path.rels ==> r.relType.Some?) && Gentle(m, g, h) && Fits(m, g, row, ids)
    ensures Fits(m, h, row, ids)
  {
    hide Gentle, IdsHold, IdsNamed, AnchorAgrees;
    HoldPersists(m, g, h, ids);
  }

  lemma RowPersists(m: Merging, g: Graph, h: Graph, row: Row)
    requires Gentle(m, g, h) && RowOk(m, g, row)
    ensures RowOk(m, h, row)
  {
    hide WellFormed, HasEdge, Exists, AsksFor, Follows;
  }

  lemma {:induction false} ActionsAreGentle(m: Merging, g: Graph, rows: seq<Row>)
    requires GentleActions(m) && WellFormed(m.Schema(), g)
    ensures Gentle(m, g, ActOnAll(g, rows, m.onMatch))
    decreases |rows|
  {
    hide WellFormed, HasEdge, Exists, AsksFor, Follows;
    if rows != [] {
      ActionsAreGentle(m, g, rows[..|rows| - 1]);
      var h := ActOnAll(g, rows[..|rows| - 1], m.onMatch);
      GentleAgain(m, g, h, m.onMatch(h, rows[|rows| - 1]));
    }
  }
}
