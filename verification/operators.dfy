/**
 Query operators as functions from a graph to rows. The rows of an operator are the rows its generator yields, in order.
 The plan of an OPTIONAL MATCH is compiled for each row with that row as its only input; here it is compiled once, with
 `Argument` standing for the row.
 */
module Operators {
  import opened Wrappers
  import opened Numbers
  import opened NumberText
  import opened Values
  import opened Query
  import opened Evaluation
  import opened Graphs
  import opened Seqs
  import opened Ordering
  import VarLength

  datatype AggregateItem = AggregateItem(column: string, fname: string, args: seq<Expr>, distinct: bool, star: bool)

  datatype Op =
    | SingleRow
    | Argument
    | BindingRow(row: Row)
    | AllNodesScan(variable: string)
    | LabelScan(variable: string, labelName: string)
    | ExpandOp(child: Op, from: string, to: string, rel: RelPattern, toLabel: Option<string>)
    | ExpandInto(child: Op, from: string, to: string, rel: RelPattern)
    | VarLengthExpand(child: Op, from: string, to: string, rel: RelPattern, hop: VarLength.Hop, pathVar: Option<string>)
    | LabelFilter(child: Op, variable: string, labelName: string)
    | FilterOp(child: Op, condition: Expr)
    | CartesianProduct(left: Op, right: Op)
    | OptionalApply(child: Op, inner: Op, optionalVars: seq<string>)
    | UnwindOp(child: Op, expr: Expr, variable: string)
    | ProjectOp(child: Op, items: seq<ReturnItem>)
    | AggregateOp(child: Op, grouping: seq<ReturnItem>, aggregates: seq<AggregateItem>)
    | DistinctOp(child: Op, columns: seq<string>)
    | SortOp(child: Op, keys: seq<SortItem>)
    | SkipOp(child: Op, count: Number)
    | LimitOp(child: Op, count: Number)

  // ---- rows ---------------------------------------------------------------------------------------------------

  function WithRel(row: Row, relVar: Option<string>, rel: Rel): Row {
    if relVar.None? then row else row[relVar.value := RelV(rel)]
  }

  /** Overlays r onto l, unless a shared variable holds different values. */
  function Merge(l: Row, r: Row): Option<Row> {
    if exists v :: v in l && v in r && GroupKey(l[v]) != GroupKey(r[v]) then None else Some(l + r)
  }

  function MergeWith(l: Row): Row -> seq<Row> {
    (r: Row) => var m := Merge(l, r); if m.Some? then [m.value] else []
  }

  function MergeRows(l: Row, rights: seq<Row>): seq<Row> {
    FlatMap(rights, MergeWith(l))
  }

  function ScanRow(variable: string): Node -> seq<Row> {
    (n: Node) => [map[variable := NodeV(n)]]
  }

  function ExpandTo(schema: Schema, row: Row, fromId: string, to: string, rel: RelPattern, toLabel: Option<string>): Node -> seq<Row> {
    (n: Node) =>
      if !schema.HasLabel(n, toLabel) then []
      else [WithRel(row[to := NodeV(n)], rel.variable, VarLength.Oriented(rel.direction, rel.relType, fromId, n.id))]
  }

  function ExpandRow(schema: Schema, g: Graph, row: Row, from: string, to: string, rel: RelPattern, toLabel: Option<string>): seq<Row> {
    if from !in row || !row[from].NodeV? then []
    else
      var id := row[from].node.id;
      FlatMap(Expand(schema, g, id, rel.relType, rel.direction), ExpandTo(schema, row, id, to, rel, toLabel))
  }

  predicate Reaches(nodes: seq<Node>, id: string) {
    exists n :: n in nodes && n.id == id
  }

  /** Constrains a hop to end in the bound node; adds no node binding, and yields the row at most once. */
  function ExpandIntoRow(schema: Schema, g: Graph, row: Row, from: string, to: string, rel: RelPattern): seq<Row> {
    if from !in row || !row[from].NodeV? || to !in row || !row[to].NodeV? then []
    else
      var a, b := row[from].node.id, row[to].node.id;
      if !Reaches(Expand(schema, g, a, rel.relType, rel.direction), b) then []
      else [WithRel(row, rel.variable, VarLength.Oriented(rel.direction, rel.relType, a, b))]
  }

  function TrailRow(row: Row, to: string, rel: RelPattern, pathVar: Option<string>, t: VarLength.Trail): Row
    requires t.nodes != []
  {
    var r1 := row[to := NodeV(t.nodes[|t.nodes| - 1])];
    var r2 := if pathVar.None? then r1 else r1[pathVar.value := PathV(t.nodes, t.rels)];
    if rel.variable.None? then r2
    else r2[rel.variable.value := ListV(seq(|t.rels|, i requires 0 <= i < |t.rels| => RelV(t.rels[i])))]
  }

  function VarLengthRow(schema: Schema, g: Graph, row: Row, from: string, to: string, rel: RelPattern, hop: VarLength.Hop,
                        pathVar: Option<string>): seq<Row> {
    if from !in row || !row[from].NodeV? then []
    else
      FlatMap(VarLength.Enumerate(schema, g, hop, row[from].node),
              (t: VarLength.Trail) => if t.nodes == [] then [] else [TrailRow(row, to, rel, pathVar, t)])
  }

  predicate LabelHolds(schema: Schema, g: Graph, row: Row, variable: string, labelName: string) {
    variable in row && row[variable].NodeV? &&
    var mirror := Find(g.nodes, row[variable].node.id);
    mirror.Some? && schema.IsInstanceOf(mirror.value, labelName)
  }

  function UnwindRow(row: Row, expr: Expr, variable: string, env: Env): seq<Row> {
    match Evaluate(expr, row, env)
    case NullV => []
    case ListV(items) => FlatMap(items, item => [row[variable := item]])
    case v => [row[variable := v]]
  }

  function Padded(row: Row, vars: seq<string>): Row
    decreases |vars|
  {
    if vars == [] then row else Padded(row[vars[0] := NullV], vars[1..])
  }

  // ---- projection ---------------------------------------------------------------------------------------------

  function ProjectRow(row: Row, items: seq<ReturnItem>, env: Env): Row {
    if items == [] then map[]
    else
      var n := |items| - 1;
      ProjectRow(row, items[..n], env)[items[n].ColumnName() := Evaluate(items[n].expr, row, env)]
  }

  function ValueKeys(vs: seq<Value>): (r: seq<string>)
    ensures |r| == |vs| && forall i :: 0 <= i < |r| ==> r[i] == GroupKey(vs[i])
  {
    seq(|vs|, i requires 0 <= i < |vs| => GroupKey(vs[i]))
  }

  function ItemValues(row: Row, items: seq<ReturnItem>, env: Env): (r: seq<Value>)
    ensures |r| == |items| && forall i :: 0 <= i < |r| ==> r[i] == Evaluate(items[i].expr, row, env)
  {
    seq(|items|, i requires 0 <= i < |items| => Evaluate(items[i].expr, row, env))
  }

  /** The values of a group's grouping items and the rows of the group, in input order. */
  datatype Group = Group(values: seq<Value>, rows: seq<Row>)

  /** Adds a row to the group with its key, or opens a new last group. */
  function AddToGroups(groups: seq<Group>, values: seq<Value>, row: Row): seq<Group> {
    if groups == [] then [Group(values, [row])]
    else if ValueKeys(groups[0].values) == ValueKeys(values) then
      [Group(groups[0].values, groups[0].rows + [row])] + groups[1..]
    else [groups[0]] + AddToGroups(groups[1..], values, row)
  }

  function GroupRows(rows: seq<Row>, grouping: seq<ReturnItem>, env: Env): seq<Group> {
    if rows == [] then []
    else
      var n := |rows| - 1;
      AddToGroups(GroupRows(rows[..n], grouping, env), ItemValues(rows[n], grouping, env), rows[n])
  }

  /** What one aggregate sees of a group: the argument of every row, repeated keys dropped under DISTINCT. */
  function Accepted(rows: seq<Row>, item: AggregateItem, seen: set<string>, env: Env): seq<Value> {
    if rows == [] then []
    else
      var v := if item.star || item.args == [] then NullV else Evaluate(item.args[0], rows[0], env);
      var skip := item.distinct && !item.star && GroupKey(v) in seen;
      (if skip then [] else [v]) + Accepted(rows[1..], item, seen + {GroupKey(v)}, env)
  }

  function Lower(c: char): char {
    if 'A' <= c <= 'Z' then ((c as int) + 32) as char else c
  }

  function LowerAll(s: string): string {
    if s == "" then "" else [Lower(s[0])] + LowerAll(s[1..])
  }

  predicate IsAggregateName(fname: string) {
    LowerAll(fname) in {"count", "collect", "sum", "avg", "min", "max"}
  }

  function IntNumber(n: nat): Number {
    Normalize(n, 0)
  }

  function NonNulls(vs: seq<Value>): seq<Value> {
    Filter(vs, v => v != NullV)
  }

  function NumbersOf(vs: seq<Value>): seq<Number> {
    FlatMap(vs, (v: Value) => if v.ScalarV? && v.scalar.Num? then [v.scalar.n] else [])
  }

  function Total(ns: seq<Number>, env: Env): Number {
    if ns == [] then Decimal(0, 0) else env.arithmetic(Add, Total(ns[..|ns| - 1], env), ns[|ns| - 1])
  }

  /** The first of the extreme values. */
  function Extreme(vs: seq<Value>, best: Value, largest: bool): Value {
    if vs == [] then best
    else
      var c := Compare(vs[0], best);
      Extreme(vs[1..], if (if largest then c > 0 else c < 0) then vs[0] else best, largest)
  }

  function AggregateValue(item: AggregateItem, vs: seq<Value>, env: Env): Value {
    var name := LowerAll(item.fname);
    var present := NonNulls(vs);
    var ns := NumbersOf(vs);
    if name == "count" then ScalarV(Num(IntNumber(if item.star then |vs| else |present|)))
    else if name == "collect" then ListV(present)
    else if name == "sum" then ScalarV(Num(Total(ns, env)))
    else if name == "avg" then (if ns == [] then NullV else ScalarV(Num(env.arithmetic(Div, Total(ns, env), IntNumber(|ns|)))))
    else if present == [] then NullV
    else Extreme(present[1..], present[0], name == "max")
  }

  function GroupingCells(values: seq<Value>, grouping: seq<ReturnItem>): Row
    requires |values| == |grouping|
  {
    if grouping == [] then map[]
    else
      var n := |grouping| - 1;
      GroupingCells(values[..n], grouping[..n])[grouping[n].ColumnName() := values[n]]
  }

  function AggregateCells(row: Row, group: Group, aggregates: seq<AggregateItem>, env: Env): Row {
    if aggregates == [] then row
    else
      var n := |aggregates| - 1;
      var item := aggregates[n];
      AggregateCells(row, group, aggregates[..n], env)[item.column := AggregateValue(item, Accepted(group.rows, item, {}, env), env)]
  }

  function EmitGroup(group: Group, grouping: seq<ReturnItem>, aggregates: seq<AggregateItem>, env: Env): Row {
    var cells := if |group.values| == |grouping| then GroupingCells(group.values, grouping) else map[];
    AggregateCells(cells, group, aggregates, env)
  }

  function EmitEach(grouping: seq<ReturnItem>, aggregates: seq<AggregateItem>, env: Env): Group -> seq<Row> {
    (group: Group) => [EmitGroup(group, grouping, aggregates, env)]
  }

  function AggregateRows(rows: seq<Row>, grouping: seq<ReturnItem>, aggregates: seq<AggregateItem>, env: Env): seq<Row> {
    var groups := GroupRows(rows, grouping, env);
    var all := if groups == [] && grouping == [] then [Group([], [])] else groups;
    FlatMap(all, EmitEach(grouping, aggregates, env))
  }

  /** The key DISTINCT compares rows by; a missing column has a key of its own. */
  function DistinctKey(row: Row, columns: seq<string>): (r: seq<string>)
    ensures |r| == |columns|
  {
    seq(|columns|, i requires 0 <= i < |columns| => if columns[i] in row then GroupKey(row[columns[i]]) else "undefined")
  }

  function DistinctRows(rows: seq<Row>, columns: seq<string>, seen: set<seq<string>>): seq<Row> {
    if rows == [] then []
    else
      var key := DistinctKey(rows[0], columns);
      if key in seen then DistinctRows(rows[1..], columns, seen)
      else [rows[0]] + DistinctRows(rows[1..], columns, seen + {key})
  }

  function Product(m: nat, p: nat): nat {
    m * p
  }

  function WholePart(m: nat, p: nat): nat
    requires p >= 1
  {
    m / p
  }

  /** The whole part, toward zero, of a non-negative number; 0 for a negative one. */
  function SkipCount(n: Number): nat {
    if n.m <= 0 then 0 else if n.e >= 0 then Product(n.m, Pow10(n.e)) else WholePart(n.m, Pow10(-n.e))
  }

  /** How many rows a limit lets through: it stops at the first count not below it. */
  function LimitCount(n: Number): nat {
    if n.m <= 0 then 0
    else if n.e >= 0 then Product(n.m, Pow10(n.e))
    else WholePart(n.m, Pow10(-n.e)) + (if n.m % Pow10(-n.e) == 0 then 0 else 1)
  }

  function Dropped<T>(s: seq<T>, n: nat): seq<T> {
    s[MinNat(n, |s|)..]
  }

  function Taken<T>(s: seq<T>, n: nat): seq<T> {
    s[..MinNat(n, |s|)]
  }

  // ---- operators ----------------------------------------------------------------------------------------------

  datatype Context = Context(schema: Schema, env: Env)

  function ExpandEach(schema: Schema, g: Graph, from: string, to: string, rel: RelPattern, toLabel: Option<string>): Row -> seq<Row> {
    (row: Row) => ExpandRow(schema, g, row, from, to, rel, toLabel)
  }

  function ExpandIntoEach(schema: Schema, g: Graph, from: string, to: string, rel: RelPattern): Row -> seq<Row> {
    (row: Row) => ExpandIntoRow(schema, g, row, from, to, rel)
  }

  function VarLengthEach(schema: Schema, g: Graph, from: string, to: string, rel: RelPattern, hop: VarLength.Hop,
                         pathVar: Option<string>): Row -> seq<Row> {
    (row: Row) => VarLengthRow(schema, g, row, from, to, rel, hop, pathVar)
  }

  function LabelTest(schema: Schema, g: Graph, variable: string, labelName: string): Row -> bool {
    (row: Row) => LabelHolds(schema, g, row, variable, labelName)
  }

  function ConditionTest(condition: Expr, env: Env): Row -> bool {
    (row: Row) => Passes(condition, row, env)
  }

  function MergeEach(rights: seq<Row>): Row -> seq<Row> {
    (row: Row) => MergeRows(row, rights)
  }

  function UnwindEach(expr: Expr, variable: string, env: Env): Row -> seq<Row> {
    (row: Row) => UnwindRow(row, expr, variable, env)
  }

  function ProjectEach(items: seq<ReturnItem>, env: Env): Row -> seq<Row> {
    (row: Row) => [ProjectRow(row, items, env)]
  }

  function InstanceTest(schema: Schema, labelName: string): Node -> bool {
    (n: Node) => schema.IsInstanceOf(n, labelName)
  }

  /** The matches of a row, or the row with nulls for what did not match. */
  function OrPadded(matches: seq<Row>, row: Row, vars: seq<string>): seq<Row> {
    if matches != [] then matches else [Padded(row, vars)]
  }

  function Rows(op: Op, cx: Context, g: Graph, arg: Row): seq<Row>
    decreases op
  {
    match op
    case SingleRow => [map[]]
    case Argument => [arg]
    case BindingRow(row) => [row]
    case AllNodesScan(v) => FlatMap(g.nodes, ScanRow(v))
    case LabelScan(v, labelName) => FlatMap(Filter(g.nodes, InstanceTest(cx.schema, labelName)), ScanRow(v))
    case ExpandOp(child, from, to, rel, toLabel) =>
      FlatMap(Rows(child, cx, g, arg), ExpandEach(cx.schema, g, from, to, rel, toLabel))
    case ExpandInto(child, from, to, rel) =>
      FlatMap(Rows(child, cx, g, arg), ExpandIntoEach(cx.schema, g, from, to, rel))
    case VarLengthExpand(child, from, to, rel, hop, pathVar) =>
      FlatMap(Rows(child, cx, g, arg), VarLengthEach(cx.schema, g, from, to, rel, hop, pathVar))
    case LabelFilter(child, v, labelName) =>
      Filter(Rows(child, cx, g, arg), LabelTest(cx.schema, g, v, labelName))
    case FilterOp(child, condition) => Filter(Rows(child, cx, g, arg), ConditionTest(condition, cx.env))
    case CartesianProduct(left, right) => FlatMap(Rows(left, cx, g, arg), MergeEach(Rows(right, cx, g, arg)))
    case OptionalApply(child, inner, vars) =>
      FlatMap(Rows(child, cx, g, arg), row => OrPadded(Rows(inner, cx, g, row), row, vars))
    case UnwindOp(child, expr, v) => FlatMap(Rows(child, cx, g, arg), UnwindEach(expr, v, cx.env))
    case ProjectOp(child, items) => FlatMap(Rows(child, cx, g, arg), ProjectEach(items, cx.env))
    case AggregateOp(child, grouping, aggregates) => AggregateRows(Rows(child, cx, g, arg), grouping, aggregates, cx.env)
    case DistinctOp(child, columns) => DistinctRows(Rows(child, cx, g, arg), columns, {})
    case SortOp(child, keys) => SortRows(Rows(child, cx, g, arg), keys, cx.env)
    case SkipOp(child, count) => Dropped(Rows(child, cx, g, arg), SkipCount(count))
    case LimitOp(child, count) => Taken(Rows(child, cx, g, arg), LimitCount(count))
  }

  // The rows of the operators that read the graph, one equation each.

  lemma RowsOfScan(v: string, labelName: Option<string>, cx: Context, g: Graph, arg: Row)
    ensures Rows(if labelName.None? then AllNodesScan(v) else LabelScan(v, labelName.value), cx, g, arg)
         == FlatMap(if labelName.None? then g.nodes else Filter(g.nodes, InstanceTest(cx.schema, labelName.value)), ScanRow(v))
  {
    hide FlatMap, Filter;
  }

  lemma RowsOfExpand(child: Op, from: string, to: string, rel: RelPattern, toLabel: Option<string>, cx: Context, g: Graph, arg: Row)
    ensures Rows(ExpandOp(child, from, to, rel, toLabel), cx, g, arg)
         == FlatMap(Rows(child, cx, g, arg), ExpandEach(cx.schema, g, from, to, rel, toLabel))
  {
    hide FlatMap, Filter;
  }

  lemma RowsOfExpandInto(child: Op, from: string, to: string, rel: RelPattern, cx: Context, g: Graph, arg: Row)
    ensures Rows(ExpandInto(child, from, to, rel), cx, g, arg)
         == FlatMap(Rows(child, cx, g, arg), ExpandIntoEach(cx.schema, g, from, to, rel))
  {
    hide FlatMap, Filter;
  }

  lemma RowsOfLabelFilter(child: Op, v: string, labelName: string, cx: Context, g: Graph, arg: Row)
    ensures Rows(LabelFilter(child, v, labelName), cx, g, arg)
         == Filter(Rows(child, cx, g, arg), LabelTest(cx.schema, g, v, labelName))
  {
    hide FlatMap, Filter;
  }

  lemma RowsOfFilter(child: Op, condition: Expr, cx: Context, g: Graph, arg: Row)
    ensures Rows(FilterOp(child, condition), cx, g, arg) == Filter(Rows(child, cx, g, arg), ConditionTest(condition, cx.env))
  {
    hide FlatMap, Filter;
  }

  lemma RowsOfProduct(left: Op, right: Op, cx: Context, g: Graph, arg: Row)
    ensures Rows(CartesianProduct(left, right), cx, g, arg) == FlatMap(Rows(left, cx, g, arg), MergeEach(Rows(right, cx, g, arg)))
  {
    hide FlatMap, Filter;
  }
}
