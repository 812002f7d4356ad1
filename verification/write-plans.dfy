/**
 The planner's operators as clauses of a pulled plan.

 `StepsOf` reads an operator as the steps above its input. Run one after the other over complete rows they give the
 operator's rows (`OperatorIsSteps`), and pulling rows through them gives the same (`ReadPlanDrains`), so what a read query
 answers does not depend on how its generators interleave. `WriteQueryDrains` says it of the plan of a write query, each
 reading clause being what the planner compiles it to, run for every row over the graph as the clauses before left it
 (`ClauseMeans`), and each WITH the projection it is over a read (`ProjectionMeans`). The projection of the last part is put
 off until the writes are committed, so a LIMIT 0 skips writes only in a WITH.
 */
module WritePlans {
  import opened Wrappers
  import opened Values
  import opened Query
  import opened Evaluation
  import opened Graphs
  import opened Seqs
  import opened Operators
  import P = Planner
  import Ordering
  import VarLength
  import E = Eager

  type Step<!W> = E.Step<Graph, Row, W>

  // ---- operators as steps -------------------------------------------------------------------------------------

  function KeepIf(test: Row -> bool): Row -> seq<Row> {
    (row: Row) => if test(row) then [row] else []
  }

  function OptionalEach(inner: Op, vars: seq<string>, cx: Context, g: Graph): Row -> seq<Row> {
    row => OrPadded(Rows(inner, cx, g, row), row, vars)
  }

  function Once(): Row -> nat {
    (row: Row) => 1
  }

  function Reading(f: Graph -> (Row -> seq<Row>)): (Graph, Row, nat) -> seq<Row> {
    (g: Graph, row: Row, i: nat) => f(g)(row)
  }

  /** A step that makes rows of each row, reading the graph once. */
  function Reads<W>(f: Graph -> (Row -> seq<Row>)): Step<W> {
    E.ReadStep(Once(), Reading(f))
  }

  function RowsIn(op: Op, cx: Context): Graph -> seq<Row> {
    (g: Graph) => Rows(op, cx, g, map[])
  }

  function Joining(): (Row, Row) -> seq<Row> {
    (l: Row, r: Row) => MergeWith(l)(r)
  }

  function NewKey(columns: seq<string>): (seq<Row>, Row) -> bool {
    (seen: seq<Row>, row: Row) => forall i :: 0 <= i < |seen| ==> DistinctKey(seen[i], columns) != DistinctKey(row, columns)
  }

  function After(n: nat): (seq<Row>, Row) -> bool {
    (seen: seq<Row>, row: Row) => |seen| >= n
  }

  function Grouped(grouping: seq<ReturnItem>, aggregates: seq<AggregateItem>, env: Env): seq<Row> -> seq<Row> {
    (rows: seq<Row>) => AggregateRows(rows, grouping, aggregates, env)
  }

  function Sorted(keys: seq<SortItem>, env: Env): seq<Row> -> seq<Row> {
    (rows: seq<Row>) => Ordering.SortRows(rows, keys, env)
  }

  /** What an operator makes of one row of its operand, if it looks at one row at a time. */
  function EachOf(op: Op, cx: Context): Graph -> (Row -> seq<Row>) {
    match op
    case ExpandOp(_, from, to, rel, toLabel) => (g: Graph) => ExpandEach(cx.schema, g, from, to, rel, toLabel)
    case ExpandInto(_, from, to, rel) => (g: Graph) => ExpandIntoEach(cx.schema, g, from, to, rel)
    case VarLengthExpand(_, from, to, rel, hop, pathVar) => (g: Graph) => VarLengthEach(cx.schema, g, from, to, rel, hop, pathVar)
    case LabelFilter(_, v, labelName) => (g: Graph) => KeepIf(LabelTest(cx.schema, g, v, labelName))
    case FilterOp(_, condition) => (g: Graph) => KeepIf(ConditionTest(condition, cx.env))
    case OptionalApply(_, inner, vars) => (g: Graph) => OptionalEach(inner, vars, cx, g)
    case UnwindOp(_, expr, v) => (g: Graph) => UnwindEach(expr, v, cx.env)
    case ProjectOp(_, items) => (g: Graph) => ProjectEach(items, cx.env)
    case _ => (g: Graph) => (row: Row) => [row]
  }

  /** The operand whose rows an operator works on. */
  function Operand(op: Op): Option<Op> {
    match op
    case ExpandOp(child, _, _, _, _) => Some(child)
    case ExpandInto(child, _, _, _) => Some(child)
    case VarLengthExpand(child, _, _, _, _, _) => Some(child)
    case LabelFilter(child, _, _) => Some(child)
    case FilterOp(child, _) => Some(child)
    case CartesianProduct(left, _) => Some(left)
    case OptionalApply(child, _, _) => Some(child)
    case UnwindOp(child, _, _) => Some(child)
    case ProjectOp(child, _) => Some(child)
    case AggregateOp(child, _, _) => Some(child)
    case DistinctOp(child, _) => Some(child)
    case SortOp(child, _) => Some(child)
    case SkipOp(child, _) => Some(child)
    case LimitOp(child, _) => Some(child)
    case _ => None
  }

  predicate IsScan(op: Op) {
    op.AllNodesScan? || op.LabelScan?
  }

  function StepOf<W>(op: Op, cx: Context): Step<W> {
    match op
    case CartesianProduct(_, right) => E.ProductStep(RowsIn(right, cx), Joining())
    case AggregateOp(_, grouping, aggregates) => E.WholeStep(Grouped(grouping, aggregates, cx.env))
    case DistinctOp(_, columns) => E.GateStep(NewKey(columns))
    case SortOp(_, keys) => E.WholeStep(Sorted(keys, cx.env))
    case SkipOp(_, count) => E.GateStep(After(SkipCount(count)))
    case LimitOp(_, count) => E.LimitStep(LimitCount(count))
    case _ => Reads(EachOf(op, cx))
  }

  /** An operator as the steps above its input; a scan has none. */
  function StepsOf<W>(op: Op, cx: Context): seq<Step<W>>
    decreases op
  {
    if Operand(op).Some? then StepsOf(Operand(op).value, cx) + [StepOf(op, cx)]
    else if IsScan(op) then [E.ScanStep(RowsIn(op, cx))]
    else []
  }

  // ---- one step -----------------------------------------------------------------------------------------------

  lemma ReadsMeans<W>(f: Graph -> (Row -> seq<Row>), rows: seq<Row>, g: Graph)
    ensures E.OneClause(Reads<W>(f), rows, g) == (FlatMap(rows, f(g)), g)
  {
    var each := E.ReadAll(Once(), Reading(f), g);
    forall row | row in rows ensures each(row) == f(g)(row) {
      assert E.AllInstalments(row, 1, 1, Reading(f), g) == [];
    }
    FlatMapEqual(rows, each, f(g));
  }

  lemma {:induction false} KeepIfMeans(rows: seq<Row>, test: Row -> bool)
    ensures FlatMap(rows, KeepIf(test)) == Filter(rows, test)
  {
    if rows != [] {
      KeepIfMeans(rows[1..], test);
    }
  }

  function KeysOf(rows: seq<Row>, columns: seq<string>): set<seq<string>> {
    set i | 0 <= i < |rows| :: DistinctKey(rows[i], columns)
  }

  lemma KeysMore(seen: seq<Row>, row: Row, columns: seq<string>)
    ensures KeysOf(seen + [row], columns) == KeysOf(seen, columns) + {DistinctKey(row, columns)}
    ensures NewKey(columns)(seen, row) <==> DistinctKey(row, columns) !in KeysOf(seen, columns)
  {
    hide DistinctKey;
    var more := seen + [row];
    assert more[|seen|] == row;
    assert forall i :: 0 <= i < |seen| ==> more[i] == seen[i];
  }

  lemma {:induction false} NewKeysPass(rows: seq<Row>, seen: seq<Row>, columns: seq<string>)
    ensures E.Passed(rows, seen, NewKey(columns)) == DistinctRows(rows, columns, KeysOf(seen, columns))
    decreases |rows|
  {
    if rows != [] {
      var key, more := DistinctKey(rows[0], columns), seen + [rows[0]];
      NewKeysPass(rows[1..], more, columns);
      KeysMore(seen, rows[0], columns);
      hide KeysOf, DistinctKey;
      if key in KeysOf(seen, columns) {
        assert KeysOf(seen, columns) + {key} == KeysOf(seen, columns);
      }
    }
  }

  lemma {:induction false} AfterPasses(rows: seq<Row>, seen: seq<Row>, n: nat)
    ensures E.Passed(rows, seen, After(n)) == Dropped(rows, if |seen| >= n then 0 else n - |seen|)
    decreases |rows|
  {
    if rows != [] {
      AfterPasses(rows[1..], seen + [rows[0]], n);
    }
  }

  lemma PairsAre(rows: seq<Row>, rights: seq<Row>)
    ensures FlatMap(rows, E.PairEach(rights, Joining())) == FlatMap(rows, MergeEach(rights))
  {
    forall row | row in rows ensures E.PairEach(rights, Joining())(row) == MergeEach(rights)(row) {
      var join := Joining();
      forall r: Row ensures join(row, r) == MergeWith(row)(r) {
      }
      FlatMapEqual(rights, E.WithLeft(row, join), MergeWith(row));
    }
    FlatMapEqual(rows, E.PairEach(rights, Joining()), MergeEach(rights));
  }

  /** The right side of a product is a scan. */
  predicate ProductOk(op: Op) {
    op.CartesianProduct? ==> IsScan(op.right)
  }

  /** One step over the rows of the operand gives the rows of the operator. */
  lemma StepMeans<W>(op: Op, cx: Context, g: Graph, arg: Row)
    requires Operand(op).Some? && ProductOk(op)
    ensures E.OneClause(StepOf<W>(op, cx), Rows(Operand(op).value, cx, g, arg), g) == (Rows(op, cx, g, arg), g)
  {
    hide Filter, FlatMap, DistinctRows, Ordering.SortRows, AggregateRows, E.PairEach, E.ReadAll, E.Passed, ExpandEach, ExpandIntoEach, VarLengthEach,
      UnwindEach, ProjectEach, LabelTest, ConditionTest, KeepIf;
    var rows := Rows(Operand(op).value, cx, g, arg);
    match op {
      case CartesianProduct(_, right) =>
        PairsAre(rows, Rows(right, cx, g, map[]));
        assert Rows(right, cx, g, map[]) == Rows(right, cx, g, arg);
      case AggregateOp(_, _, _) =>
      case DistinctOp(_, columns) =>
        NewKeysPass(rows, [], columns);
        assert KeysOf([], columns) == {};
      case SortOp(_, _) =>
      case SkipOp(_, count) => AfterPasses(rows, [], SkipCount(count));
      case LimitOp(_, count) => assert rows[..|rows|] == rows;
      case LabelFilter(_, v, labelName) =>
        ReadsMeans<W>(EachOf(op, cx), rows, g);
        KeepIfMeans(rows, LabelTest(cx.schema, g, v, labelName));
      case FilterOp(_, condition) =>
        ReadsMeans<W>(EachOf(op, cx), rows, g);
        KeepIfMeans(rows, ConditionTest(condition, cx.env));
      case OptionalApply(_, inner, vars) =>
        ReadsMeans<W>(EachOf(op, cx), rows, g);
        OptionalMeans(rows, inner, vars, cx, g);
      case _ => ReadsMeans<W>(EachOf(op, cx), rows, g);
    }
  }

  lemma OptionalMeans(rows: seq<Row>, inner: Op, vars: seq<string>, cx: Context, g: Graph)
    ensures FlatMap(rows, OptionalEach(inner, vars, cx, g)) == FlatMap(rows, row => OrPadded(Rows(inner, cx, g, row), row, vars))
  {
    FlatMapEqual(rows, OptionalEach(inner, vars, cx, g), row => OrPadded(Rows(inner, cx, g, row), row, vars));
  }

  // ---- all steps ----------------------------------------------------------------------------------------------

  /** Operators that make rows of one row at a time; a product has a scan at the right. */
  predicate OneByOne(op: Op) {
    Operand(op).Some? && ProductOk(op) && !op.AggregateOp? && !op.DistinctOp? && !op.SortOp? && !op.SkipOp? && !op.LimitOp?
  }

  /** The operator works on this input, or on nothing but the graph, row by row where that is asked. */
  predicate Over(op: Op, input: Option<Op>, each: bool)
    decreases op
  {
    || Some(op) == input
    || (input.None? && (op.SingleRow? || IsScan(op)))
    || (Operand(op).Some? && ProductOk(op) && (each ==> OneByOne(op)) && Over(Operand(op).value, input, each))
  }

  /** Its steps, clause at a time, give the operator's rows and leave the graph alone. */
  lemma {:induction false} OperatorIsSteps<W>(op: Op, cx: Context, g: Graph, arg: Row)
    requires Over(op, None, false) || Over(op, Some(Argument), false)
    ensures E.ClauseAtATime(StepsOf<W>(op, cx), [if Over(op, Some(Argument), false) then arg else map[]], g) == (Rows(op, cx, g, arg), g)
    decreases op
  {
    if Operand(op).Some? {
      hide Rows, StepOf, E.OneClause;
      var child := Operand(op).value;
      OperatorIsSteps<W>(child, cx, g, arg);
      StepMeans<W>(op, cx, g, arg);
      var steps := StepsOf<W>(op, cx);
      assert steps[..|steps| - 1] == StepsOf<W>(child, cx);
      OneInput(op);
    } else if IsScan(op) {
      assert [E.Step<Graph, Row, W>.ScanStep(RowsIn(op, cx))][..0] == [];
    }
  }

  lemma {:induction false} OneInput(op: Op)
    ensures !(Over(op, None, false) && Over(op, Some(Argument), false))
    decreases op
  {
    if Operand(op).Some? {
      OneInput(Operand(op).value);
    }
  }

  lemma {:induction false} ScansAtMostFirst<W>(op: Op, cx: Context)
    ensures forall i :: 0 <= i < |StepsOf<W>(op, cx)| ==> !StepsOf<W>(op, cx)[i].WriteStep? && (StepsOf<W>(op, cx)[i].ScanStep? ==> i == 0)
    ensures Over(op, Some(Argument), false) ==> forall i :: 0 <= i < |StepsOf<W>(op, cx)| ==> !StepsOf<W>(op, cx)[i].ScanStep?
    decreases op
  {
    if Operand(op).Some? {
      ScansAtMostFirst<W>(Operand(op).value, cx);
    }
  }

  /** Without writes a LIMIT 0 skips nothing that counts. */
  lemma {:induction false} ReadsSkipNothing<W>(steps: seq<Step<W>>, rows: seq<Row>, g: Graph)
    requires forall i :: 0 <= i < |steps| ==> !steps[i].WriteStep?
    ensures E.Drained(steps, rows, g) == E.ClauseAtATime(steps, rows, g) && E.ClauseAtATime(steps, rows, g).1 == g
    decreases |steps|
  {
    if steps != [] {
      ReadsSkipNothing(steps[..|steps| - 1], rows, g);
    }
  }

  /** The pulled plan of steps. */
  function Pulled<W>(steps: seq<Step<W>>): E.Op<Graph, Row, W> {
    var op := E.CompileAll(steps, map[]);
    if op.Some? then op.value else E.Source([map[]])
  }

  lemma PulledDrains<W>(steps: seq<Step<W>>, g: Graph)
    requires E.ScansFirst(steps)
    ensures E.Drain(Pulled(steps), g) == E.Drained(steps, [map[]], g)
  {
    E.WholeIsFeed(steps, map[], g);
  }

  /** Pulling the rows of a read operator one at a time gives its rows, LIMIT 0 or not. */
  lemma OperatorDrains<W>(op: Op, cx: Context, g: Graph)
    requires Over(op, None, false)
    ensures E.Drain(Pulled<W>(StepsOf(op, cx)), g) == (Rows(op, cx, g, map[]), g)
  {
    hide Rows, StepsOf, E.Drain, Pulled;
    ScansAtMostFirst<W>(op, cx);
    PulledDrains<W>(StepsOf(op, cx), g);
    ReadsSkipNothing<W>(StepsOf(op, cx), [map[]], g);
    OneInput(op);
    OperatorIsSteps<W>(op, cx, g, map[]);
  }

  // ---- what the planner compiles ------------------------------------------------------------------------------

  lemma {:induction false} FoldedOver(op: Op, properties: seq<Property>, name: string, input: Option<Op>, each: bool)
    requires Over(op, input, each)
    ensures Over(P.FoldProperties(op, properties, name), input, each)
    decreases |properties|
  {
    if properties != [] {
      FoldedOver(FilterOp(op, P.PropertyTest(name, properties[0])), properties[1..], name, input, each);
    }
  }

  lemma InputIsOver(input: Option<Op>, bound: set<string>, each: bool)
    ensures Over(P.State(input, bound).Input(), input, each)
  {
  }

  lemma AnchorIsOver(input: Option<Op>, path: PatternPath, bound: set<string>, each: bool)
    requires path.Valid()
    ensures P.Anchor(input, path, bound).op.Some? && Over(P.Anchor(input, path, bound).op.value, input, each)
  {
    var node := path.nodes[0];
    var name := P.NodeName(path, 0);
    hide P.NodeName;
    var scan := P.Scan(node, name);
    if P.IsBound(bound, node.variable) && input.Some? {
      FoldedOver(if node.labelName.None? then input.value else LabelFilter(input.value, name, node.labelName.value), node.properties, name, input, each);
    } else {
      FoldedOver(if input.None? then scan else CartesianProduct(input.value, scan), node.properties, name, input, each);
    }
  }

  lemma RelIsOver(options: P.Options, op: Op, path: PatternPath, i: nat, bound: set<string>, input: Option<Op>, each: bool)
    requires path.Valid() && i < |path.rels| && Over(op, input, each) && P.CompileRel(options, op, path, i, bound).Ok?
    ensures P.CompileRel(options, op, path, i, bound).value.op.Some? && Over(P.CompileRel(options, op, path, i, bound).value.op.value, input, each)
  {
    var rel, node := path.rels[i], path.nodes[i + 1];
    var from, to := P.NodeName(path, i), P.NodeName(path, i + 1);
    hide P.NodeName, P.HopOf, P.LastVarLength;
    if rel.IsVariableLength() {
      var pathVar := if i == P.LastVarLength(path.rels) then path.pathVariable else None;
      FoldedOver(VarLengthExpand(op, from, to, rel, P.HopOf(rel, node, options.maxVarLength), pathVar), node.properties, to, input, each);
    } else if P.IsBound(bound, node.variable) {
      var into := ExpandInto(op, from, to, rel);
      FoldedOver(if node.labelName.None? then into else LabelFilter(into, to, node.labelName.value), node.properties, to, input, each);
    } else {
      FoldedOver(ExpandOp(op, from, to, rel, node.labelName), node.properties, to, input, each);
    }
  }

  lemma {:induction false} RelsAreOver(options: P.Options, op: Op, path: PatternPath, i: nat, bound: set<string>, input: Option<Op>, each: bool)
    requires path.Valid() && i <= |path.rels| && Over(op, input, each) && P.CompileRels(options, op, path, i, bound).Ok?
    ensures P.CompileRels(options, op, path, i, bound).value.op.Some? && Over(P.CompileRels(options, op, path, i, bound).value.op.value, input, each)
    decreases |path.rels| - i
  {
    hide P.CompileRel, Over;
    if i < |path.rels| {
      RelIsOver(options, op, path, i, bound, input, each);
      var next := P.CompileRel(options, op, path, i, bound).value;
      RelsAreOver(options, next.Input(), path, i + 1, next.bound, input, each);
    }
  }

  lemma PathIsOver(options: P.Options, op: Option<Op>, path: PatternPath, bound: set<string>, input: Option<Op>, each: bool)
    requires path.Valid() && P.CompilePath(options, op, path, bound).Ok? && (if op.Some? then Over(op.value, input, each) else input.None?)
    ensures P.CompilePath(options, op, path, bound).value.op.Some? && Over(P.CompilePath(options, op, path, bound).value.op.value, input, each)
  {
    hide P.CompileRels, P.RelError, P.LastVarLength;
    AnchorIsOver(op, path, bound, each);
    var anchored := P.Anchor(op, path, bound);
    OverOver(anchored.op.value, op, input, each);
    hide P.Anchor;
    RelsAreOver(options, anchored.Input(), path, 0, anchored.bound, input, each);
  }

  /** What works on an operator works on what that works on. */
  lemma {:induction false} OverOver(op: Op, mid: Option<Op>, input: Option<Op>, each: bool)
    requires Over(op, mid, each) && if mid.Some? then Over(mid.value, input, each) else input.None?
    ensures Over(op, input, each)
    decreases op
  {
    if Some(op) != mid && Operand(op).Some? && Over(Operand(op).value, mid, each) {
      OverOver(Operand(op).value, mid, input, each);
    }
  }

  lemma {:induction false} PathsAreOver(options: P.Options, op: Option<Op>, paths: seq<PatternPath>, bound: set<string>, input: Option<Op>, each: bool)
    requires (forall p :: p in paths ==> p.Valid()) && P.CompilePaths(options, op, paths, bound).Ok? && (if op.Some? then Over(op.value, input, each) else input.None?)
    ensures var out := P.CompilePaths(options, op, paths, bound).value.op; if out.Some? then Over(out.value, input, each) else input.None?
    decreases |paths|
  {
    hide P.CompilePath, Over;
    if paths != [] {
      PathIsOver(options, op, paths[0], bound, input, each);
      var next := P.CompilePath(options, op, paths[0], bound).value;
      PathsAreOver(options, next.op, paths[1..], next.bound, input, each);
    }
  }

  /** A reading clause is compiled to an operator over its input. */
  lemma ClauseIsOver(options: P.Options, op: Option<Op>, bound: set<string>, clause: Clause, input: Option<Op>, each: bool)
    requires P.ValidClause(clause) && P.CompileClause(options, P.State(op, bound), clause).Ok? && (if op.Some? then Over(op.value, input, each) else input.None?)
    ensures P.CompileClause(options, P.State(op, bound), clause).value.op.Some? && Over(P.CompileClause(options, P.State(op, bound), clause).value.op.value, input, each)
  {
    hide P.CompilePaths, P.Declared, P.Unbound;
    if clause.Match? && !clause.optional {
      PathsAreOver(options, op, clause.paths, bound, input, each);
    }
  }

  lemma OnTop(op: Op, child: Op, input: Option<Op>)
    requires Operand(op) == Some(child) && ProductOk(op) && Over(child, input, false)
    ensures Over(op, input, false)
  {
  }

  lemma ProjectionIsOver(options: P.Options, op: Op, p: Projection, implicitOrder: bool, input: Option<Op>)
    requires Over(op, input, false) && P.BuildProjection(options, op, p, implicitOrder).Ok?
    ensures Over(P.BuildProjection(options, op, p, implicitOrder).value, input, false)
  {
    hide Over, P.Resolve, P.ResolveSort, P.AggregateItems, P.GroupingItems, Ordering.Columns, P.Count;
    var projected := P.ProjectedOp(op, p).value;
    OnTop(projected, op, input);
    var distinct := if p.distinct then DistinctOp(projected, Ordering.Columns(p.items)) else projected;
    if p.distinct {
      OnTop(distinct, projected, input);
    }
    var filtered := P.WhereOp(distinct, p).value;
    if p.where.Some? {
      OnTop(filtered, distinct, input);
    }
    var sorted := P.OrderOp(filtered, p, implicitOrder).value;
    if p.orderBy.Some? || implicitOrder {
      OnTop(sorted, filtered, input);
    }
    var skipped := if p.skip.None? then sorted else P.SkippedOp(options, sorted, p.skip.value).value;
    if p.skip.Some? {
      OnTop(skipped, sorted, input);
    }
    if p.limit.Some? {
      OnTop(P.SliceOp(options, sorted, p).value, skipped, input);
    }
  }

  lemma {:induction false} ClausesAreOver(options: P.Options, state: P.State, clauses: seq<Clause>)
    requires (forall c :: c in clauses ==> P.ValidClause(c)) && P.CompileClauses(options, state, clauses).Ok?
    requires state.op.Some? ==> Over(state.op.value, None, false)
    ensures var out := P.CompileClauses(options, state, clauses).value; out.op.Some? ==> Over(out.op.value, None, false)
    decreases |clauses|
  {
    hide P.CompileClause, Over;
    if clauses != [] {
      ClauseIsOver(options, state.op, state.bound, clauses[0], None, false);
      ClausesAreOver(options, P.CompileClause(options, state, clauses[0]).value, clauses[1..]);
    }
  }

  lemma {:induction false} PartsAreOver(options: P.Options, parts: seq<QueryPart>, state: P.State)
    requires (forall p :: p in parts ==> P.ValidPart(p)) && P.CompileParts(options, parts, state).Ok?
    requires state.op.Some? ==> Over(state.op.value, None, false)
    ensures var out := P.CompileParts(options, parts, state).value; out.op.Some? ==> Over(out.op.value, None, false)
    decreases |parts|
  {
    hide P.CompilePart, Over;
    if parts != [] {
      PartIsOver(options, parts[0], state, |parts| == 1);
      PartsAreOver(options, parts[1..], P.CompilePart(options, parts[0], state.op, state.bound, |parts| == 1).value);
    }
  }

  lemma PartIsOver(options: P.Options, part: QueryPart, state: P.State, isFinal: bool)
    requires P.ValidPart(part) && P.CompilePart(options, part, state.op, state.bound, isFinal).Ok?
    requires state.op.Some? ==> Over(state.op.value, None, false)
    ensures var out := P.CompilePart(options, part, state.op, state.bound, isFinal).value; out.op.Some? && Over(out.op.value, None, false)
  {
    hide P.PartError, P.CompileClauses, P.BuildProjection, Over, Ordering.Columns;
    ClausesAreOver(options, P.State(state.op, state.bound), part.reading);
    var next := P.CompileClauses(options, P.State(state.op, state.bound), part.reading).value;
    NoInputIsOver(next);
    if part.projection.Some? {
      ProjectionIsOver(options, next.Input(), part.projection.value, isFinal && options.ensureOrder, None);
    }
  }

  lemma NoInputIsOver(state: P.State)
    requires state.op.Some? ==> Over(state.op.value, None, false)
    ensures Over(state.Input(), None, false)
  {
  }

  /** Pulling rows through the plan of a read query gives its answer and leaves the graph alone, however its operators interleave. */
  lemma ReadPlanDrains<W>(options: P.Options, model: QueryModel, g: Graph)
    requires P.ValidModel(model) && P.Plan(options, model).Ok?
    ensures var op := P.Plan(options, model).value; var cx := Context(options.schema, options.env);
            E.Drain(Pulled<W>(StepsOf(op, cx)), g) == (Rows(op, cx, g, map[]), g)
  {
    hide Rows, StepsOf, E.Drain, Pulled, P.CompileParts;
    PartsAreOver(options, model.parts, P.State(None, {}));
    NoInputIsOver(P.CompileParts(options, model.parts, P.State(None, {})).value);
    hide Over;
    OperatorDrains<W>(P.Plan(options, model).value, Context(options.schema, options.env), g);
  }

  // ---- a reading clause over the rows before it ---------------------------------------------------------------

  lemma {:induction false} FlatMapTwice<R, S, T>(rows: seq<R>, f: R -> seq<S>, h: S -> seq<T>, k: R -> seq<T>)
    requires forall r :: r in rows ==> k(r) == FlatMap(f(r), h)
    ensures FlatMap(FlatMap(rows, f), h) == FlatMap(rows, k)
  {
    if rows != [] {
      FlatMapTwice(rows[1..], f, h, k);
      FlatMapConcat(f(rows[0]), FlatMap(rows[1..], f), h);
    }
  }

  /** The rows of an operator for a row of its input. */
  function RowsFrom(op: Op, cx: Context, g: Graph): Row -> seq<Row> {
    (row: Row) => Rows(op, cx, g, row)
  }

  function OneRow(op: Op, cx: Context, g: Graph): Row -> seq<Row> {
    if op.CartesianProduct? then E.PairEach(RowsIn(op.right, cx)(g), Joining()) else EachOf(op, cx)(g)
  }

  lemma OneByOneIs<W>(op: Op, cx: Context, g: Graph, rows: seq<Row>)
    requires OneByOne(op)
    ensures E.OneClause(StepOf<W>(op, cx), rows, g) == (FlatMap(rows, OneRow(op, cx, g)), g)
  {
    if !op.CartesianProduct? {
      ReadsMeans<W>(EachOf(op, cx), rows, g);
    }
  }

  lemma {:induction false} FlatMapSelf(rows: seq<Row>, f: Row -> seq<Row>)
    requires forall row :: f(row) == [row]
    ensures FlatMap(rows, f) == rows
  {
    if rows != [] {
      FlatMapSelf(rows[1..], f);
    }
  }

  /** Over rows that are at hand, an operator that goes row by row gives the rows it gives for each of them. */
  lemma {:induction false} StepsGoRowByRow<W>(op: Op, cx: Context, g: Graph, rows: seq<Row>)
    requires Over(op, Some(Argument), true)
    ensures E.ClauseAtATime(StepsOf<W>(op, cx), rows, g) == (FlatMap(rows, RowsFrom(op, cx, g)), g)
    decreases op
  {
    if op == Argument {
      FlatMapSelf(rows, RowsFrom(op, cx, g));
    } else {
      var child := Operand(op).value;
      var steps := StepsOf<W>(op, cx);
      assert steps[..|steps| - 1] == StepsOf<W>(child, cx);
      hide Rows, StepOf, E.OneClause, FlatMap;
      StepsGoRowByRow<W>(child, cx, g, rows);
      OneByOneIs<W>(op, cx, g, FlatMap(rows, RowsFrom(child, cx, g)));
      forall row | row in rows ensures RowsFrom(op, cx, g)(row) == FlatMap(RowsFrom(child, cx, g)(row), OneRow(op, cx, g)) {
        StepMeans<W>(op, cx, g, row);
        OneByOneIs<W>(op, cx, g, Rows(child, cx, g, row));
      }
      FlatMapTwice(rows, RowsFrom(child, cx, g), OneRow(op, cx, g), RowsFrom(op, cx, g));
    }
  }

  // ---- the plan of a write query ------------------------------------------------------------------------------

  /** What a writing clause does with a row; left open here. */
  type Writing<!W> = Clause -> Step<W>

  /** The steps so far, whether there is anything to work on yet, and the variables in scope. */
  datatype Planned<!W> = Planned(steps: seq<Step<W>>, started: bool, bound: set<string>)

  function DeclaredBy(clause: Clause): set<string> {
    match clause
    case Create(paths) => P.SetOf(P.Declared(paths))
    case Merge(pattern, _, _) => P.SetOf(P.Declared([pattern]))
    case _ => {}
  }

  function Rest(started: bool): Option<Op> {
    if started then Some(Argument) else None
  }

  /** A writing clause is a step of its own; a reading one is compiled over the rows so far. */
  function PlanClause<W>(options: P.Options, writing: Writing<W>, planned: Planned<W>, clause: Clause): Result<Planned<W>, P.PlanError>
    requires P.ValidClause(clause)
  {
    if clause.IsWriting() then Ok(Planned(planned.steps + [writing(clause)], true, planned.bound + DeclaredBy(clause)))
    else
      var next :- P.CompileClause(options, P.State(Rest(planned.started), planned.bound), clause);
      Ok(Planned(planned.steps + StepsOf(next.Input(), Context(options.schema, options.env)), true, next.bound))
  }

  function PlanClauses<W>(options: P.Options, writing: Writing<W>, planned: Planned<W>, clauses: seq<Clause>): Result<Planned<W>, P.PlanError>
    requires forall c :: c in clauses ==> P.ValidClause(c)
    decreases |clauses|
  {
    if clauses == [] then Ok(planned)
    else
      var next :- PlanClause(options, writing, planned, clauses[0]);
      PlanClauses(options, writing, next, clauses[1..])
  }

  /** One part; the projection of the last is put off until the writes are committed. */
  function PlanPart<W>(options: P.Options, writing: Writing<W>, planned: Planned<W>, part: QueryPart, isFinal: bool): Result<Planned<W>, P.PlanError>
    requires P.ValidPart(part)
  {
    var next :- PlanClauses(options, writing, planned, part.reading);
    if part.projection.None? || isFinal then Ok(next.(started := true))
    else
      var op :- P.BuildProjection(options, P.State(Rest(next.started), next.bound).Input(), part.projection.value, false);
      Ok(Planned(next.steps + StepsOf(op, Context(options.schema, options.env)), true, P.SetOf(Ordering.Columns(part.projection.value.items))))
  }

  function PlanForWrite<W>(options: P.Options, writing: Writing<W>, planned: Planned<W>, parts: seq<QueryPart>): Result<Planned<W>, P.PlanError>
    requires forall p :: p in parts ==> P.ValidPart(p)
    decreases |parts|
  {
    if parts == [] then Ok(planned)
    else
      var next :- PlanPart(options, writing, planned, parts[0], |parts| == 1);
      PlanForWrite(options, writing, next, parts[1..])
  }

  ghost predicate AllWrite<W(!new)>(writing: Writing<W>) {
    forall c :: writing(c).WriteStep?
  }

  /** Only the first step may scan on its own, and only if nothing was there before. */
  predicate PlannedOk<W>(planned: Planned<W>) {
    E.ScansFirst(planned.steps) && (!planned.started ==> planned.steps == [])
  }

  lemma StepsAdded<W>(steps: seq<Step<W>>, op: Op, cx: Context)
    requires E.ScansFirst(steps) && (Over(op, Some(Argument), false) || steps == [])
    ensures E.ScansFirst(steps + StepsOf(op, cx))
  {
    ScansAtMostFirst<W>(op, cx);
    hide StepsOf;
    var all := steps + StepsOf(op, cx);
    forall i | 0 <= i < |all| && all[i].ScanStep? ensures i == 0 {
      assert all[i] == if i < |steps| then steps[i] else StepsOf<W>(op, cx)[i - |steps|];
    }
  }

  lemma {:induction false} EachIsAny(op: Op, input: Option<Op>)
    requires Over(op, input, true)
    ensures Over(op, input, false)
    decreases op
  {
    if Some(op) != input && Operand(op).Some? {
      EachIsAny(Operand(op).value, input);
    }
  }

  lemma ClauseCompiled(options: P.Options, started: bool, bound: set<string>, clause: Clause)
    requires P.ValidClause(clause) && P.CompileClause(options, P.State(Rest(started), bound), clause).Ok?
    ensures var op := P.CompileClause(options, P.State(Rest(started), bound), clause).value.Input(); Over(op, Rest(started), true) && Over(op, Rest(started), false)
  {
    hide P.CompileClause;
    ClauseIsOver(options, Rest(started), bound, clause, Rest(started), true);
    EachIsAny(P.CompileClause(options, P.State(Rest(started), bound), clause).value.Input(), Rest(started));
  }

  lemma ClausePlanned<W(!new)>(options: P.Options, writing: Writing<W>, planned: Planned<W>, clause: Clause)
    requires P.ValidClause(clause) && PlanClause(options, writing, planned, clause).Ok? && PlannedOk(planned) && AllWrite(writing)
    ensures PlannedOk(PlanClause(options, writing, planned, clause).value)
  {
    hide P.CompileClause, StepsOf, Over;
    if clause.IsWriting() {
      assert writing(clause).WriteStep?;
    } else {
      ClauseCompiled(options, planned.started, planned.bound, clause);
      StepsAdded(planned.steps, P.CompileClause(options, P.State(Rest(planned.started), planned.bound), clause).value.Input(), Context(options.schema, options.env));
    }
  }

  lemma {:induction false} ClausesPlanned<W(!new)>(options: P.Options, writing: Writing<W>, planned: Planned<W>, clauses: seq<Clause>)
    requires (forall c :: c in clauses ==> P.ValidClause(c)) && PlanClauses(options, writing, planned, clauses).Ok? && PlannedOk(planned) && AllWrite(writing)
    ensures PlannedOk(PlanClauses(options, writing, planned, clauses).value)
    decreases |clauses|
  {
    hide PlanClause, PlannedOk;
    if clauses != [] {
      ClausePlanned(options, writing, planned, clauses[0]);
      ClausesPlanned(options, writing, PlanClause(options, writing, planned, clauses[0]).value, clauses[1..]);
    }
  }

  lemma PartPlanned<W(!new)>(options: P.Options, writing: Writing<W>, planned: Planned<W>, part: QueryPart, isFinal: bool)
    requires P.ValidPart(part) && PlanPart(options, writing, planned, part, isFinal).Ok? && PlannedOk(planned) && AllWrite(writing)
    ensures PlannedOk(PlanPart(options, writing, planned, part, isFinal).value)
  {
    hide PlanClauses, P.BuildProjection, StepsOf, Over, Ordering.Columns;
    ClausesPlanned(options, writing, planned, part.reading);
    var next := PlanClauses(options, writing, planned, part.reading).value;
    if part.projection.Some? && !isFinal {
      var input := P.State(Rest(next.started), next.bound).Input();
      InputIsOver(Rest(next.started), next.bound, false);
      ProjectionIsOver(options, input, part.projection.value, false, Rest(next.started));
      StepsAdded(next.steps, P.BuildProjection(options, input, part.projection.value, false).value, Context(options.schema, options.env));
    }
  }

  lemma {:induction false} PartsPlanned<W(!new)>(options: P.Options, writing: Writing<W>, planned: Planned<W>, parts: seq<QueryPart>)
    requires (forall p :: p in parts ==> P.ValidPart(p)) && PlanForWrite(options, writing, planned, parts).Ok? && PlannedOk(planned) && AllWrite(writing)
    ensures PlannedOk(PlanForWrite(options, writing, planned, parts).value)
    decreases |parts|
  {
    hide PlanPart, PlannedOk;
    if parts != [] {
      PartPlanned(options, writing, planned, parts[0], |parts| == 1);
      PartsPlanned(options, writing, PlanPart(options, writing, planned, parts[0], |parts| == 1).value, parts[1..]);
    }
  }

  /** Draining the plan of a write query gives the rows and the graph of its clauses one after the other, if no WITH has a LIMIT 0. */
  lemma WriteQueryDrains<W(!new)>(options: P.Options, writing: Writing<W>, model: QueryModel, g: Graph)
    requires P.ValidModel(model) && AllWrite(writing) && PlanForWrite(options, writing, Planned([], false, {}), model.parts).Ok?
    requires var steps := PlanForWrite(options, writing, Planned([], false, {}), model.parts).value.steps; forall i :: 0 <= i < |steps| ==> steps[i] != E.LimitStep(0)
    ensures var steps := PlanForWrite(options, writing, Planned([], false, {}), model.parts).value.steps;
            E.Drain(Pulled(steps), g) == E.ClauseAtATime(steps, [map[]], g)
  {
    hide PlanForWrite, E.Drain, Pulled, E.Drained;
    var steps := PlanForWrite(options, writing, Planned([], false, {}), model.parts).value.steps;
    PartsPlanned(options, writing, Planned([], false, {}), model.parts);
    PulledDrains(steps, g);
    E.NothingSkipped(steps, [map[]], g);
  }

  lemma {:induction false} StepsConcat<W>(a: seq<Step<W>>, b: seq<Step<W>>, rows: seq<Row>, g: Graph)
    ensures E.ClauseAtATime(a + b, rows, g) == var mid := E.ClauseAtATime(a, rows, g); E.ClauseAtATime(b, mid.0, mid.1)
    decreases |b|
  {
    hide E.OneClause;
    if b == [] {
      assert a + b == a;
    } else {
      var n := |b| - 1;
      assert (a + b)[..|a| + n] == a + b[..n] && (a + b)[|a| + n] == b[n];
      StepsConcat(a, b[..n], rows, g);
    }
  }

  /**
   What one more clause of a write query means: a writing clause acts on each row in turn; a reading clause gives, for every
   row, the rows its compiled pattern has for that row over the graph as the clauses before left it.
   */
  lemma ClauseMeans<W(!new)>(options: P.Options, writing: Writing<W>, planned: Planned<W>, clause: Clause, g: Graph)
    requires P.ValidClause(clause) && PlanClause(options, writing, planned, clause).Ok? && PlannedOk(planned)
    ensures var next := PlanClause(options, writing, planned, clause).value; var cx := Context(options.schema, options.env);
            var before, after := E.ClauseAtATime(planned.steps, [map[]], g), E.ClauseAtATime(next.steps, [map[]], g);
            if clause.IsWriting() then after == E.OneClause(writing(clause), before.0, before.1)
            else
              var op := P.CompileClause(options, P.State(Rest(planned.started), planned.bound), clause).value.Input();
              after.1 == before.1 && after.0 == if planned.started then FlatMap(before.0, RowsFrom(op, cx, before.1)) else Rows(op, cx, g, map[])
  {
    hide P.CompileClause, E.OneClause, Rows, FlatMap, Over;
    var before := E.ClauseAtATime(planned.steps, [map[]], g);
    if clause.IsWriting() {
      var all := planned.steps + [writing(clause)];
      assert all[..|all| - 1] == planned.steps;
    } else {
      hide StepsOf, E.ClauseAtATime;
      var cx := Context(options.schema, options.env);
      var op := P.CompileClause(options, P.State(Rest(planned.started), planned.bound), clause).value.Input();
      ClauseCompiled(options, planned.started, planned.bound, clause);
      StepsConcat(planned.steps, StepsOf<W>(op, cx), [map[]], g);
      if planned.started {
        StepsGoRowByRow<W>(op, cx, before.1, before.0);
      } else {
        OneInput(op);
        OperatorIsSteps<W>(op, cx, g, map[]);
        NoSteps<W>(g);
      }
    }
  }

  lemma NoSteps<W>(g: Graph)
    ensures E.ClauseAtATime<Graph, Row, W>([], [map[]], g) == ([map[]], g)
  {
  }

  // ---- a WITH over the rows before it -------------------------------------------------------------------------

  /** The operator on another operand. */
  function On(op: Op, child: Op): Op {
    match op
    case CartesianProduct(_, right) => CartesianProduct(child, right)
    case ExpandOp(_, from, to, rel, toLabel) => ExpandOp(child, from, to, rel, toLabel)
    case ExpandInto(_, from, to, rel) => ExpandInto(child, from, to, rel)
    case VarLengthExpand(_, from, to, rel, hop, pathVar) => VarLengthExpand(child, from, to, rel, hop, pathVar)
    case LabelFilter(_, v, labelName) => LabelFilter(child, v, labelName)
    case FilterOp(_, condition) => FilterOp(child, condition)
    case OptionalApply(_, inner, vars) => OptionalApply(child, inner, vars)
    case UnwindOp(_, expr, v) => UnwindOp(child, expr, v)
    case ProjectOp(_, items) => ProjectOp(child, items)
    case AggregateOp(_, grouping, aggregates) => AggregateOp(child, grouping, aggregates)
    case DistinctOp(_, columns) => DistinctOp(child, columns)
    case SortOp(_, keys) => SortOp(child, keys)
    case SkipOp(_, count) => SkipOp(child, count)
    case LimitOp(_, count) => LimitOp(child, count)
    case _ => op
  }

  /** The same operators, over the argument here and over an input there. */
  predicate Alike(a: Op, b: Op, input: Op)
    decreases a
  {
    || (a == Argument && b == input)
    || (Operand(a).Some? && Operand(b).Some? && ProductOk(b) && a == On(b, Operand(a).value) && Alike(Operand(a).value, Operand(b).value, input))
  }

  lemma SameStep<W>(op: Op, child: Op, cx: Context)
    requires Operand(op).Some?
    ensures StepOf<W>(On(op, child), cx) == StepOf<W>(op, cx)
  {
  }

  lemma {:induction false} AlikeMeans<W>(a: Op, b: Op, input: Op, cx: Context, g: Graph, arg: Row)
    requires Alike(a, b, input)
    ensures E.ClauseAtATime(StepsOf<W>(a, cx), Rows(input, cx, g, arg), g) == (Rows(b, cx, g, arg), g)
    decreases a
  {
    hide Rows, StepOf, E.OneClause, On;
    if a != Argument {
      var child := Operand(a).value;
      var steps := StepsOf<W>(a, cx);
      assert steps[..|steps| - 1] == StepsOf<W>(child, cx);
      AlikeMeans<W>(child, Operand(b).value, input, cx, g, arg);
      SameStep<W>(b, child, cx);
      StepMeans<W>(b, cx, g, arg);
    }
  }

  lemma OnBoth(a: Op, b: Op, child: Op, other: Op, input: Op)
    requires Operand(b) == Some(other) && ProductOk(b) && a == On(b, child) && Operand(a) == Some(child) && Alike(child, other, input)
    ensures Alike(a, b, input)
  {
  }

  lemma ProjectedAlike(p: Projection, input: Op)
    requires P.ProjectedOp(Argument, p).Ok?
    ensures P.ProjectedOp(input, p).Ok? && Alike(P.ProjectedOp(Argument, p).value, P.ProjectedOp(input, p).value, input)
  {
    hide P.AggregateItems, P.GroupingItems;
    assert Alike(Argument, input, input);
    hide Alike;
    OnBoth(P.ProjectedOp(Argument, p).value, P.ProjectedOp(input, p).value, Argument, input, input);
  }

  lemma WhereAlike(a: Op, b: Op, p: Projection, input: Op)
    requires Alike(a, b, input) && P.WhereOp(a, p).Ok?
    ensures P.WhereOp(b, p).Ok? && Alike(P.WhereOp(a, p).value, P.WhereOp(b, p).value, input)
  {
    hide Alike, P.Resolve, P.UnknownReference;
    if p.where.Some? {
      OnBoth(P.WhereOp(a, p).value, P.WhereOp(b, p).value, a, b, input);
    }
  }

  lemma OrderAlike(a: Op, b: Op, p: Projection, implicitOrder: bool, input: Op)
    requires Alike(a, b, input) && P.OrderOp(a, p, implicitOrder).Ok?
    ensures P.OrderOp(b, p, implicitOrder).Ok? && Alike(P.OrderOp(a, p, implicitOrder).value, P.OrderOp(b, p, implicitOrder).value, input)
  {
    hide Alike, P.ResolveSort, Ordering.Columns;
    if p.orderBy.Some? || implicitOrder {
      OnBoth(P.OrderOp(a, p, implicitOrder).value, P.OrderOp(b, p, implicitOrder).value, a, b, input);
    }
  }

  lemma SliceAlike(options: P.Options, a: Op, b: Op, p: Projection, input: Op)
    requires Alike(a, b, input) && P.SliceOp(options, a, p).Ok?
    ensures P.SliceOp(options, b, p).Ok? && Alike(P.SliceOp(options, a, p).value, P.SliceOp(options, b, p).value, input)
  {
    hide Alike, P.Count;
    var c := if p.skip.None? then a else P.SkippedOp(options, a, p.skip.value).value;
    var d := if p.skip.None? then b else P.SkippedOp(options, b, p.skip.value).value;
    if p.skip.Some? {
      OnBoth(c, d, a, b, input);
    }
    if p.limit.Some? {
      OnBoth(P.SliceOp(options, a, p).value, P.SliceOp(options, b, p).value, c, d, input);
    }
  }

  lemma ProjectionsAlike(options: P.Options, p: Projection, implicitOrder: bool, input: Op)
    requires P.BuildProjection(options, Argument, p, implicitOrder).Ok?
    ensures P.BuildProjection(options, input, p, implicitOrder).Ok?
    ensures Alike(P.BuildProjection(options, Argument, p, implicitOrder).value, P.BuildProjection(options, input, p, implicitOrder).value, input)
  {
    hide Alike, P.ProjectedOp, P.WhereOp, P.OrderOp, P.SliceOp, Ordering.Columns;
    ProjectedAlike(p, input);
    var a, b := P.ProjectedOp(Argument, p).value, P.ProjectedOp(input, p).value;
    var c := if p.distinct then DistinctOp(a, Ordering.Columns(p.items)) else a;
    var d := if p.distinct then DistinctOp(b, Ordering.Columns(p.items)) else b;
    if p.distinct {
      OnBoth(c, d, a, b, input);
    }
    WhereAlike(c, d, p, input);
    OrderAlike(P.WhereOp(c, p).value, P.WhereOp(d, p).value, p, implicitOrder, input);
    SliceAlike(options, P.OrderOp(P.WhereOp(c, p).value, p, implicitOrder).value, P.OrderOp(P.WhereOp(d, p).value, p, implicitOrder).value, p, input);
  }

  /** A WITH in a write query: over the rows some operator has, its steps give the rows that operator's projection has. */
  lemma ProjectionMeans<W>(options: P.Options, steps: seq<Step<W>>, p: Projection, input: Op, g: Graph, arg: Row)
    requires P.BuildProjection(options, Argument, p, false).Ok?
    requires var cx := Context(options.schema, options.env); var before := E.ClauseAtATime(steps, [map[]], g); before.0 == Rows(input, cx, before.1, arg)
    ensures P.BuildProjection(options, input, p, false).Ok?
    ensures var cx := Context(options.schema, options.env);
            var before := E.ClauseAtATime(steps, [map[]], g);
            var after := E.ClauseAtATime(steps + StepsOf(P.BuildProjection(options, Argument, p, false).value, cx), [map[]], g);
            after == (Rows(P.BuildProjection(options, input, p, false).value, cx, before.1, arg), before.1)
  {
    hide Rows, StepsOf, P.BuildProjection, Alike, E.ClauseAtATime;
    var cx := Context(options.schema, options.env);
    ProjectionsAlike(options, p, false, input);
    var op := P.BuildProjection(options, Argument, p, false).value;
    StepsConcat(steps, StepsOf<W>(op, cx), [map[]], g);
    AlikeMeans<W>(op, P.BuildProjection(options, input, p, false).value, input, cx, E.ClauseAtATime(steps, [map[]], g).1, arg);
  }
}
