/**
 Paging a compiled query.

 A query without an ORDER BY is sorted by a reference to every output column, resolved like any other (`ImplicitOrderIs`).
 Pages cut from runs over stores that enumerate the same rows in different orders show the whole answer once, as long as
 rows that tie in that order show the same (`PagedAnswersConcatenate`). `HiddenAliasRepeatsARow` is a query for which they
 do not: two pages, from two enumerations of one graph, show the same row.
 */
module Paging {
  import opened Wrappers
  import opened Numbers
  import opened Values
  import opened Query
  import opened Evaluation
  import opened Graphs
  import opened Seqs
  import opened Operators
  import opened Planner
  import Ordering

  // ---- the implicit order as the planner resolves it ----------------------------------------------------------

  lemma CanonicalVariable(e: Expr, name: string)
    ensures Canonical(e) == VariableRef(name) <==> e == VariableRef(name)
  {
  }

  /** A reference to a name reads the column of the first item projecting that variable, or the column of the name. */
  lemma {:induction false} ColumnOfVariable(items: seq<ReturnItem>, name: string)
    ensures Ordering.ResolvedColumn(items, name) == match ColumnOf(items, VariableRef(name))
                                                    case Some(column) => column
                                                    case None => name
    decreases |items|
  {
    hide Canonical;
    if items != [] {
      assert Canonical(VariableRef(name)) == VariableRef(name) by {
        CanonicalVariable(VariableRef(name), name);
      }
      CanonicalVariable(items[0].expr, name);
      ColumnOfVariable(items[1..], name);
    }
  }

  function ResolvedNames(items: seq<ReturnItem>, names: seq<string>): (r: seq<string>)
    ensures |r| == |names|
  {
    seq(|names|, i requires 0 <= i < |names| => Ordering.ResolvedColumn(items, names[i]))
  }

  lemma {:induction false} NamesResolve(items: seq<ReturnItem>, names: seq<string>)
    requires forall n :: n in names ==> n in Ordering.Columns(items)
    ensures ResolveSort(items, Ordering.Ascending(names)) == Ok(Ordering.Ascending(ResolvedNames(items, names)))
    decreases |names|
  {
    hide ColumnOf, Ordering.ResolvedColumn;
    if names != [] {
      var keys := Ordering.Ascending(names);
      assert keys[0] == SortItem(VariableRef(names[0]), false) && keys[1..] == Ordering.Ascending(names[1..]);
      ColumnOfVariable(items, names[0]);
      assert UnknownReference(items, keys[0].expr).None?;
      NamesResolve(items, names[1..]);
      assert ResolvedNames(items, names)[1..] == ResolvedNames(items, names[1..]);
    }
  }

  /** The planner's implicit order is the ascending order of the resolved columns. */
  lemma ImplicitOrderIs(items: seq<ReturnItem>)
    ensures ResolveSort(items, Ordering.Ascending(Ordering.Columns(items))) == Ok(Ordering.Ascending(Ordering.ResolvedColumns(items)))
  {
    NamesResolve(items, Ordering.Columns(items));
    assert ResolvedNames(items, Ordering.Columns(items)) == Ordering.ResolvedColumns(items);
  }

  // ---- the rows of a paged projection -------------------------------------------------------------------------

  /** A projection up to its order: what is sorted. */
  function UnorderedOp(options: Options, input: Op, p: Projection): Result<Op, PlanError> {
    var projected :- ProjectedOp(input, p);
    WhereOp(if p.distinct then DistinctOp(projected, Ordering.Columns(p.items)) else projected, p)
  }

  function CountOf(options: Options, e: Option<Expr>): Option<Number> {
    if e.None? || Count(options, e.value).Err? then None else Some(Count(options, e.value).value)
  }

  function Sliced<T>(options: Options, p: Projection, rows: seq<T>): seq<T> {
    var skip, limit := CountOf(options, p.skip), CountOf(options, p.limit);
    var left := if skip.None? then rows else Operators.Dropped(rows, SkipCount(skip.value));
    if limit.None? then left else Taken(left, LimitCount(limit.value))
  }

  function Cx(options: Options): Context {
    Context(options.schema, options.env)
  }

  function RowsOver(options: Options, op: Op, g: Graph): seq<Row> {
    Rows(op, Cx(options), g, map[])
  }

  /** A projection without an ORDER BY gives the projected rows, sorted by the resolved columns, then skipped and limited. */
  lemma PagedRows(options: Options, input: Op, p: Projection, g: Graph)
    requires p.orderBy.None? && BuildProjection(options, input, p, true).Ok?
    ensures UnorderedOp(options, input, p).Ok?
    ensures RowsOver(options, BuildProjection(options, input, p, true).value, g)
         == Sliced(options, p, Ordering.RunOf(RowsOver(options, UnorderedOp(options, input, p).value, g), Ordering.ResolvedColumns(p.items), options.env))
  {
    hide ProjectedOp, WhereOp, Count, Ordering.ResolvedColumns, Ordering.Columns, SkipCount, LimitCount;
    ImplicitOrderIs(p.items);
    hide ResolveSort;
    var op := UnorderedOp(options, input, p).value;
    var sorted := SortOp(op, Ordering.Ascending(Ordering.ResolvedColumns(p.items)));
    assert OrderOp(op, p, true) == Ok(sorted);
    RowsOfSort(options, op, Ordering.Ascending(Ordering.ResolvedColumns(p.items)), g);
    hide RowsOver, Ordering.SortRows, Sliced, SliceOp;
    SlicedRows(options, sorted, p, g);
  }

  lemma RowsOfSort(options: Options, op: Op, keys: seq<SortItem>, g: Graph)
    ensures RowsOver(options, SortOp(op, keys), g) == Ordering.SortRows(RowsOver(options, op, g), keys, options.env)
  {
    hide FlatMap, Filter, Ordering.SortRows;
  }

  lemma RowsOfSkip(options: Options, op: Op, n: Number, g: Graph)
    ensures RowsOver(options, SkipOp(op, n), g) == Operators.Dropped(RowsOver(options, op, g), SkipCount(n))
  {
    hide FlatMap, Filter, SkipCount;
  }

  lemma RowsOfLimit(options: Options, op: Op, n: Number, g: Graph)
    ensures RowsOver(options, LimitOp(op, n), g) == Taken(RowsOver(options, op, g), LimitCount(n))
  {
    hide FlatMap, Filter, LimitCount;
  }

  lemma SlicedRows(options: Options, op: Op, p: Projection, g: Graph)
    requires SliceOp(options, op, p).Ok?
    ensures RowsOver(options, SliceOp(options, op, p).value, g) == Sliced(options, p, RowsOver(options, op, g))
  {
    hide Count, SkipCount, LimitCount, RowsOver, Operators.Dropped, Taken;
    var skipped := if p.skip.None? then op else SkippedOp(options, op, p.skip.value).value;
    if p.skip.Some? {
      RowsOfSkip(options, op, Count(options, p.skip.value).value, g);
    }
    if p.limit.Some? {
      RowsOfLimit(options, skipped, Count(options, p.limit.value).value, g);
    }
  }

  lemma SlicedKeys(options: Options, p: Projection, rows: seq<Row>, columns: seq<string>)
    ensures Ordering.AllKeys(Sliced(options, p, rows), columns) == Sliced(options, p, Ordering.AllKeys(rows, columns))
  {
    hide Ordering.CellKeys, Count, SkipCount, LimitCount, CountOf;
  }

  // ---- pages of one query over many enumerations --------------------------------------------------------------

  /** The last part's input: everything before its projection. */
  function FinalInput(options: Options, parts: seq<QueryPart>, state: State): Result<Op, PlanError>
    requires parts != [] && forall p :: p in parts ==> ValidPart(p)
    decreases |parts|
  {
    assert ValidPart(parts[0]);
    if |parts| == 1 then
      var last :- CompileClauses(options, State(state.op, state.bound), parts[0].reading);
      Ok(last.Input())
    else
      var next :- CompilePart(options, parts[0], state.op, state.bound, false);
      FinalInput(options, parts[1..], next)
  }

  lemma {:induction false} PlanEndsInProjection(options: Options, parts: seq<QueryPart>, state: State)
    requires parts != [] && (forall p :: p in parts ==> ValidPart(p)) && parts[|parts| - 1].projection.Some?
    requires CompileParts(options, parts, state).Ok?
    ensures FinalInput(options, parts, state).Ok?
    ensures BuildProjection(options, FinalInput(options, parts, state).value, parts[|parts| - 1].projection.value, options.ensureOrder)
         == Ok(CompileParts(options, parts, state).value.Input())
    decreases |parts|
  {
    hide CompileClauses, BuildProjection, PartError;
    var next := CompilePart(options, parts[0], state.op, state.bound, |parts| == 1).value;
    if |parts| > 1 {
      PlanEndsInProjection(options, parts[1..], next);
    } else {
      assert CompileParts(options, parts[1..], next) == Ok(next);
    }
  }

  function Projected(model: QueryModel): Option<Projection> {
    if model.parts == [] then None else model.parts[|model.parts| - 1].projection
  }

  /** What is sorted when a query is paged: the rows of its last projection, over some enumeration of the graph. */
  function UnorderedRows(options: Options, model: QueryModel, g: Graph): seq<Row>
    requires ValidModel(model) && Projected(model).Some?
  {
    match FinalInput(options, model.parts, State(None, {}))
    case Err(_) => []
    case Ok(input) =>
      match UnorderedOp(options, input, Projected(model).value)
      case Err(_) => []
      case Ok(op) => RowsOver(options, op, g)
  }

  function AnswerRows(options: Options, model: QueryModel, g: Graph): seq<Row>
    requires ValidModel(model) && Plan(options, model).Ok?
  {
    Answer(options, model, g).value
  }

  /** Page k of the answer over the k-th enumeration. */
  function AnswerPages(options: Options, model: QueryModel, gs: seq<Graph>, cap: nat, columns: seq<string>, from: nat): seq<seq<string>>
    requires ValidModel(model) && Plan(options, model).Ok?
  {
    if gs == [] then []
    else Ordering.AllKeys(Ordering.PageOf(AnswerRows(options, model, gs[0]), from * cap, cap), columns)
         + AnswerPages(options, model, gs[1..], cap, columns, from + 1)
  }

  lemma AnswerIsSliced(options: Options, model: QueryModel, g: Graph)
    requires ValidModel(model) && Projected(model).Some? && Projected(model).value.orderBy.None? && options.ensureOrder && Plan(options, model).Ok?
    ensures AnswerRows(options, model, g)
         == Sliced(options, Projected(model).value,
                   Ordering.RunOf(UnorderedRows(options, model, g), Ordering.ResolvedColumns(Projected(model).value.items), options.env))
  {
    hide BuildProjection, CompileParts, FinalInput, UnorderedOp, Sliced, Ordering.RunOf, Ordering.ResolvedColumns;
    PlanEndsInProjection(options, model.parts, State(None, {}));
    PagedRows(options, FinalInput(options, model.parts, State(None, {})).value, Projected(model).value, g);
  }

  /** Two enumerations of the same projected rows give answers that show the same, row by row. */
  lemma AnswersAgree(options: Options, model: QueryModel, g: Graph, h: Graph)
    requires ValidModel(model) && Projected(model).Some? && Projected(model).value.orderBy.None? && options.ensureOrder && Plan(options, model).Ok?
    requires multiset(UnorderedRows(options, model, g)) == multiset(UnorderedRows(options, model, h))
    requires var items := Projected(model).value.items;
             Ordering.TellsApart(UnorderedRows(options, model, g), Ordering.ResolvedColumns(items), Ordering.Columns(items))
    ensures var columns := Ordering.Columns(Projected(model).value.items);
            Ordering.AllKeys(AnswerRows(options, model, h), columns) == Ordering.AllKeys(AnswerRows(options, model, g), columns)
  {
    hide UnorderedRows, Plan, Sliced, Ordering.RunOf, Ordering.TellsApart, Ordering.CellKeys, Ordering.ResolvedColumns, Ordering.Columns;
    var p := Projected(model).value;
    var order, columns := Ordering.ResolvedColumns(p.items), Ordering.Columns(p.items);
    var a, b := UnorderedRows(options, model, g), UnorderedRows(options, model, h);
    AnswerIsSliced(options, model, g);
    AnswerIsSliced(options, model, h);
    Ordering.RunsAgree(a, b, a, order, columns, options.env);
    SlicedKeys(options, p, Ordering.RunOf(a, order, options.env), columns);
    SlicedKeys(options, p, Ordering.RunOf(b, order, options.env), columns);
  }

  /**
   The pages of a query without an ORDER BY, each from a run over an enumeration of its own, show its whole answer once, if
   the enumerations project the same rows and rows that tie in the implicit order show the same.
   */
  lemma PagedAnswersConcatenate(options: Options, model: QueryModel, g: Graph, gs: seq<Graph>, cap: nat)
    requires ValidModel(model) && Projected(model).Some? && Projected(model).value.orderBy.None? && options.ensureOrder && Plan(options, model).Ok?
    requires forall i :: 0 <= i < |gs| ==> multiset(UnorderedRows(options, model, gs[i])) == multiset(UnorderedRows(options, model, g))
    requires var items := Projected(model).value.items;
             Ordering.TellsApart(UnorderedRows(options, model, g), Ordering.ResolvedColumns(items), Ordering.Columns(items))
    requires |AnswerRows(options, model, g)| <= |gs| * cap
    ensures var columns := Ordering.Columns(Projected(model).value.items);
            AnswerPages(options, model, gs, cap, columns, 0) == Ordering.AllKeys(AnswerRows(options, model, g), columns)
  {
    hide UnorderedRows, Plan, Ordering.TellsApart, Ordering.CellKeys, Ordering.ResolvedColumns, Ordering.Columns, AnswerRows;
    forall i | 0 <= i < |gs|
      ensures Ordering.AllKeys(AnswerRows(options, model, gs[i]), Ordering.Columns(Projected(model).value.items))
           == Ordering.AllKeys(AnswerRows(options, model, g), Ordering.Columns(Projected(model).value.items))
    {
      AnswersAgree(options, model, g, gs[i]);
    }
    var columns := Ordering.Columns(Projected(model).value.items);
    PagesOfSame(options, model, Ordering.AllKeys(AnswerRows(options, model, g), columns), gs, cap, columns, 0);
    assert 0 * cap == 0;
  }

  lemma NextPageAt(from: nat, left: nat, cap: nat)
    ensures (from + 1) * cap == from * cap + cap
    ensures left == 0 ==> (from + left) * cap == from * cap
    ensures left > 0 ==> (from + left) * cap == (from + 1 + (left - 1)) * cap
  {
  }

  lemma {:induction false} PagesOfSame(options: Options, model: QueryModel, full: seq<seq<string>>, gs: seq<Graph>, cap: nat, columns: seq<string>, from: nat)
    requires ValidModel(model) && Plan(options, model).Ok? && |full| <= (from + |gs|) * cap
    requires forall i :: 0 <= i < |gs| ==> Ordering.AllKeys(AnswerRows(options, model, gs[i]), columns) == full
    ensures AnswerPages(options, model, gs, cap, columns, from) == full[Ordering.MinNat(from * cap, |full|)..]
    decreases |gs|
  {
    hide Plan, ValidModel, AnswerRows, Ordering.AllKeys, Ordering.CellKeys, Ordering.PageOf;
    NextPageAt(from, |gs|, cap);
    if gs != [] {
      Ordering.KeysOfPage(AnswerRows(options, model, gs[0]), from * cap, cap, columns);
      PagesOfSame(options, model, full, gs[1..], cap, columns, from + 1);
      Ordering.PagesMeet(full, from * cap, cap);
    }
  }

  // ---- a row shown twice --------------------------------------------------------------------------------------

  function One(variable: string, labelName: string): PatternPath {
    PatternPath([NodePattern(Some(variable), Some(labelName), [])], [], None)
  }

  /** a AS x, x AS y: a reference to x is resolved to the item that projects the variable x, whose column is y. */
  function Crossed(): seq<ReturnItem> {
    [ReturnItem(VariableRef("a"), Some("x")), ReturnItem(VariableRef("x"), Some("y"))]
  }

  /** MATCH (a:A), (x:B) RETURN a AS x, x AS y. */
  function CrossedQuery(): QueryModel {
    QueryModel([QueryPart([Match([One("a", "A"), One("x", "B")], None, false)],
                          Some(Projection(Crossed(), false, None, None, None, true, None)))])
  }

  function TwoLabels(options: Options): Options {
    options.(schema := Schema(map["A" := "A", "B" := "B"], map["A" := {"A"}, "B" := {"B"}], map[]), ensureOrder := true)
  }

  function CrossedInput(): Op {
    CartesianProduct(LabelScan("a", "A"), LabelScan("x", "B"))
  }

  function NodeOf(id: string, concept: string): Node {
    Node(id, concept, map[], [])
  }

  /** A graph of two As and a B, its As enumerated either way. */
  function Enumerated(first: string, second: string): Graph {
    Graph([NodeOf(first, "A"), NodeOf(second, "A"), NodeOf("b", "B")])
  }

  function CrossedRow(id: string): Row {
    map["x" := NodeV(NodeOf(id, "A")), "y" := NodeV(NodeOf("b", "B"))]
  }

  lemma CrossedColumns()
    ensures Ordering.Columns(Crossed()) == ["x", "y"] && Ordering.ResolvedColumns(Crossed()) == ["y", "y"]
  {
    var items := Crossed();
    assert items[1..] == [items[1]] && items[1..][1..] == [];
    assert "a"[0] != "x"[0] && "a"[0] != "y"[0] && "x"[0] != "y"[0];
    assert Ordering.ResolvedColumn(items[1..], "x") == "y" && Ordering.ResolvedColumn(items[1..], "y") == "y";
  }

  lemma CrossedPattern(options: Options)
    ensures CompileClauses(TwoLabels(options), State(None, {}), CrossedQuery().parts[0].reading) == Ok(State(Some(CrossedInput()), {"a", "x"}))
  {
    var o := TwoLabels(options);
    var paths := [One("a", "A"), One("x", "B")];
    var first := State(Some(LabelScan("a", "A")), {"a"});
    var none: set<string> := {};
    assert none + {"a"} == {"a"};
    assert Anchor(None, paths[0], none) == first;
    assert CompilePath(o, None, paths[0], none) == Ok(first);
    assert CompilePath(o, first.op, paths[1], {"a"}) == Ok(State(Some(CrossedInput()), {"a"} + {"x"})) by {
      assert "a"[0] != "x"[0];
    }
    assert paths[1..] == [paths[1]] && paths[1..][1..] == [];
    hide CompilePath;
    assert {"a"} + {"x"} == {"a", "x"};
    assert CompilePaths(o, Some(CrossedInput()), [], {"a", "x"}) == Ok(State(Some(CrossedInput()), {"a", "x"}));
    assert CompilePaths(o, first.op, paths[1..], {"a"}) == Ok(State(Some(CrossedInput()), {"a", "x"}));
    assert CompilePaths(o, None, paths, {}) == Ok(State(Some(CrossedInput()), {"a", "x"}));
    var clauses := CrossedQuery().parts[0].reading;
    assert clauses[1..] == [];
    assert CompileClause(o, State(None, {}), clauses[0]) == Ok(State(Some(CrossedInput()), {"a", "x"}));
  }

  lemma CrossedScope(options: Options)
    ensures PartError(CrossedQuery().parts[0], {}) == None
  {
    var part := CrossedQuery().parts[0];
    CrossedColumns();
    assert "x"[0] != "y"[0];
    assert ["x", "y"][1..] == ["y"] && ["y"][1..] == [];
    var none: set<string> := {};
    assert none + {"x"} == {"x"};
    assert DuplicateIn(["y"], {"x"}) == None;
    assert DuplicateIn(["x", "y"], none) == None;
    var paths := [One("a", "A"), One("x", "B")];
    assert paths[1..] == [paths[1]] && paths[1..][1..] == [];
    assert NodeVariables(paths[0].nodes) == ["a"] && NodeVariables(paths[1].nodes) == ["x"];
    assert Declared(paths[1..]) == ["x"];
    assert Declared(paths) == ["a", "x"];
    assert part.reading[1..] == [];
    assert ReadingVariables(part.reading) == {"a", "x"};
    var items := Crossed();
    assert items[1..] == [items[1]] && items[1..][1..] == [];
    assert ItemVariables(items[1..]) == {"x"};
    assert ItemVariables(items) == {"a", "x"};
    assert Referenced(part.reading) == {};
  }

  lemma CrossedPlan(options: Options)
    ensures ValidModel(CrossedQuery())
    ensures Plan(TwoLabels(options), CrossedQuery()) == Ok(SortOp(ProjectOp(CrossedInput(), Crossed()), Ordering.Ascending(["y", "y"])))
    ensures FinalInput(TwoLabels(options), CrossedQuery().parts, State(None, {})) == Ok(CrossedInput())
  {
    var o, parts := TwoLabels(options), CrossedQuery().parts;
    var p := parts[0].projection.value;
    CrossedPattern(options);
    CrossedScope(options);
    CrossedColumns();
    ImplicitOrderIs(Crossed());
    hide CompileClauses, PartError, ResolveSort, Ordering.Columns, Ordering.ResolvedColumns;
    CrossedProjection(options);
    assert parts[1..] == [];
    hide BuildProjection;
    var sorted := SortOp(ProjectOp(CrossedInput(), Crossed()), Ordering.Ascending(["y", "y"]));
    assert CompilePart(o, parts[0], None, {}, true) == Ok(State(Some(sorted), {}));
    assert CompileParts(o, parts, State(None, {})) == CompileParts(o, parts[1..], State(Some(sorted), {}));
  }

  lemma CrossedProjection(options: Options)
    ensures BuildProjection(TwoLabels(options), CrossedInput(), CrossedQuery().parts[0].projection.value, true)
         == Ok(SortOp(ProjectOp(CrossedInput(), Crossed()), Ordering.Ascending(["y", "y"])))
    ensures UnorderedOp(TwoLabels(options), CrossedInput(), CrossedQuery().parts[0].projection.value) == Ok(ProjectOp(CrossedInput(), Crossed()))
  {
    CrossedColumns();
    ImplicitOrderIs(Crossed());
    var items := Crossed();
    assert items[1..] == [items[1]] && items[1..][1..] == [];
    assert AggregateItems(items[1..]) == Ok([]);
    assert AggregateItems(items) == Ok([]);
    hide ResolveSort, Ordering.Columns, Ordering.ResolvedColumns, AggregateItems;
  }

  lemma FlatMapTwo<S, T>(s: seq<S>, f: S -> seq<T>)
    requires |s| == 2
    ensures FlatMap(s, f) == f(s[0]) + f(s[1])
  {
    assert s[1..] == [s[1]] && s[1..][1..] == [];
    assert FlatMap(s[1..], f) == f(s[1]) + [];
  }

  lemma FlatMapOne<S, T>(x: S, f: S -> seq<T>)
    ensures FlatMap([x], f) == f(x)
  {
    assert [x][1..] == [];
    assert FlatMap([x], f) == f(x) + [];
  }

  lemma Scanned(options: Options, first: string, second: string)
    ensures Filter(Enumerated(first, second).nodes, InstanceTest(TwoLabels(options).schema, "A")) == [NodeOf(first, "A"), NodeOf(second, "A")]
    ensures Filter(Enumerated(first, second).nodes, InstanceTest(TwoLabels(options).schema, "B")) == [NodeOf("b", "B")]
  {
    var nodes := Enumerated(first, second).nodes;
    assert "A"[0] != "B"[0];
    assert nodes[1..] == [nodes[1], nodes[2]] && nodes[1..][1..] == [nodes[2]] && nodes[1..][1..][1..] == [];
    FilterConcat([nodes[0], nodes[1]], [nodes[2]], InstanceTest(TwoLabels(options).schema, "A"));
    FilterConcat([nodes[0], nodes[1]], [nodes[2]], InstanceTest(TwoLabels(options).schema, "B"));
    assert nodes == [nodes[0], nodes[1]] + [nodes[2]];
    FilterAll([nodes[0], nodes[1]], InstanceTest(TwoLabels(options).schema, "A"));
    FilterNone([nodes[0], nodes[1]], InstanceTest(TwoLabels(options).schema, "B"));
    FilterNone([nodes[2]], InstanceTest(TwoLabels(options).schema, "A"));
    FilterAll([nodes[2]], InstanceTest(TwoLabels(options).schema, "B"));
  }

  lemma CrossedJoin(options: Options, first: string, second: string)
    ensures RowsOver(TwoLabels(options), CrossedInput(), Enumerated(first, second)) == [MatchedRow(first), MatchedRow(second)]
  {
    var o, g := TwoLabels(options), Enumerated(first, second);
    Scanned(options, first, second);
    RowsOfScan("a", Some("A"), Cx(o), g, map[]);
    RowsOfScan("x", Some("B"), Cx(o), g, map[]);
    hide Filter, FlatMap, InstanceTest, Operators.Merge;
    FlatMapTwo([NodeOf(first, "A"), NodeOf(second, "A")], ScanRow("a"));
    FlatMapOne(NodeOf("b", "B"), ScanRow("x"));
    var lefts, rights: seq<Row> := [map["a" := NodeV(NodeOf(first, "A"))], map["a" := NodeV(NodeOf(second, "A"))]], [map["x" := NodeV(NodeOf("b", "B"))]];
    assert Rows(LabelScan("a", "A"), Cx(o), g, map[]) == lefts && Rows(LabelScan("x", "B"), Cx(o), g, map[]) == rights;
    RowsOfProduct(LabelScan("a", "A"), LabelScan("x", "B"), Cx(o), g, map[]);
    FlatMapTwo(lefts, MergeEach(rights));
    Joined(first);
    Joined(second);
  }

  function MatchedRow(id: string): Row {
    map["a" := NodeV(NodeOf(id, "A")), "x" := NodeV(NodeOf("b", "B"))]
  }

  lemma Joined(id: string)
    ensures MergeRows(map["a" := NodeV(NodeOf(id, "A"))], [map["x" := NodeV(NodeOf("b", "B"))]]) == [MatchedRow(id)]
  {
    var l: Row, r: Row := map["a" := NodeV(NodeOf(id, "A"))], map["x" := NodeV(NodeOf("b", "B"))];
    assert "a"[0] != "x"[0];
    assert Operators.Merge(l, r) == Some(l + r) && l + r == MatchedRow(id);
    hide FlatMap;
    FlatMapOne(r, MergeWith(l));
  }

  lemma CrossedProject(id: string, env: Env)
    ensures ProjectRow(MatchedRow(id), Crossed(), env) == CrossedRow(id)
  {
    var items := Crossed();
    assert "a"[0] != "x"[0] && "x"[0] != "y"[0];
    assert items[..1] == [items[0]] && items[..1][..0] == [];
    assert ProjectRow(MatchedRow(id), items[..1], env) == map["x" := NodeV(NodeOf(id, "A"))];
  }

  lemma CrossedRows(options: Options, first: string, second: string)
    ensures RowsOver(TwoLabels(options), ProjectOp(CrossedInput(), Crossed()), Enumerated(first, second)) == [CrossedRow(first), CrossedRow(second)]
  {
    var o, g := TwoLabels(options), Enumerated(first, second);
    CrossedJoin(options, first, second);
    hide FlatMap, ProjectRow, Crossed, CrossedInput;
    FlatMapTwo([MatchedRow(first), MatchedRow(second)], ProjectEach(Crossed(), o.env));
    CrossedProject(first, o.env);
    CrossedProject(second, o.env);
    assert Rows(ProjectOp(CrossedInput(), Crossed()), Cx(o), g, map[]) == FlatMap(Rows(CrossedInput(), Cx(o), g, map[]), ProjectEach(Crossed(), o.env));
  }

  /** Sorting by y leaves rows that differ in x only as they came. */
  lemma CrossedStays(env: Env, first: string, second: string)
    ensures Ordering.RunOf([CrossedRow(first), CrossedRow(second)], ["y", "y"], env) == [CrossedRow(first), CrossedRow(second)]
  {
    var a, b := CrossedRow(first), CrossedRow(second);
    assert "x"[0] != "y"[0];
    assert Ordering.Cell(a, "y") == Ordering.Cell(b, "y");
    forall i | 0 <= i < 2 ensures Ordering.CellKeys(a, ["y", "y"])[i] == Ordering.CellKeys(b, ["y", "y"])[i] {
    }
    assert Ordering.CellKeys(a, ["y", "y"]) == Ordering.CellKeys(b, ["y", "y"]);
    Ordering.AscendingTies(a, b, ["y", "y"], env);
    hide Ordering.CompareBy, Ordering.CellKeys;
    var keys := Ordering.Ascending(["y", "y"]);
    assert [a, b][1..] == [b] && [b][1..] == [];
    assert Ordering.SortRows([b], keys, env) == [b];
    assert Ordering.SortRows([a, b], keys, env) == Ordering.InsertRow(a, [b], keys, env);
  }

  lemma CrossedAnswer(options: Options, first: string, second: string)
    ensures ValidModel(CrossedQuery()) && Plan(TwoLabels(options), CrossedQuery()).Ok?
    ensures AnswerRows(TwoLabels(options), CrossedQuery(), Enumerated(first, second)) == [CrossedRow(first), CrossedRow(second)]
  {
    var o, g := TwoLabels(options), Enumerated(first, second);
    CrossedPlan(options);
    CrossedRows(options, first, second);
    CrossedStays(o.env, first, second);
    var op := ProjectOp(CrossedInput(), Crossed());
    RowsOfSort(o, op, Ordering.Ascending(["y", "y"]), g);
    hide Plan, CrossedInput, Crossed, Ordering.SortRows, Rows, TwoLabels, CrossedQuery, Enumerated, CrossedRow, Ordering.Ascending;
  }

  /**
   MATCH (a:A), (x:B) RETURN a AS x, x AS y over one graph of two As and a B: the first page of one row, from an enumeration
   that has a1 first, and the second, from one that has a2 first, both show a1. The columns are x and y; both are sorted by
   as y.
   */
  lemma HiddenAliasRepeatsARow(options: Options)
    ensures ValidModel(CrossedQuery()) && Plan(TwoLabels(options), CrossedQuery()).Ok?
    ensures multiset(Enumerated("a1", "a2").nodes) == multiset(Enumerated("a2", "a1").nodes)
    ensures Ordering.Columns(Crossed()) == ["x", "y"] && Ordering.ResolvedColumns(Crossed()) == ["y", "y"]
    ensures var shown := Ordering.CellKeys(CrossedRow("a1"), ["x", "y"]);
            && AnswerPages(TwoLabels(options), CrossedQuery(), [Enumerated("a1", "a2"), Enumerated("a2", "a1")], 1, ["x", "y"], 0) == [shown, shown]
            && shown != Ordering.CellKeys(CrossedRow("a2"), ["x", "y"])
  {
    var o, columns := TwoLabels(options), ["x", "y"];
    CrossedColumns();
    CrossedAnswer(options, "a1", "a2");
    CrossedAnswer(options, "a2", "a1");
    TiesAreEqualKeys(NodeV(NodeOf("a1", "A")), NodeV(NodeOf("a2", "A")));
    DifferentNodes();
    hide Plan, AnswerRows, Ordering.CellKeys, CrossedRow;
    var gs := [Enumerated("a1", "a2"), Enumerated("a2", "a1")];
    assert gs[1..] == [Enumerated("a2", "a1")] && gs[1..][1..] == [];
    var a, b := CrossedRow("a1"), CrossedRow("a2");
    assert Ordering.PageOf([a, b], 0 * 1, 1) == [a] && Ordering.PageOf([b, a], 1 * 1, 1) == [a];
    assert Ordering.AllKeys([a], columns) == [Ordering.CellKeys(a, columns)];
    assert AnswerPages(o, CrossedQuery(), gs[1..], 1, columns, 1) == Ordering.AllKeys([a], columns) + AnswerPages(o, CrossedQuery(), [], 1, columns, 2);
  }

  lemma DifferentNodes()
    ensures Ordering.CellKeys(CrossedRow("a1"), ["x", "y"]) != Ordering.CellKeys(CrossedRow("a2"), ["x", "y"])
  {
    var a, b := CrossedRow("a1"), CrossedRow("a2");
    assert "x"[0] != "y"[0] && "a1"[1] != "a2"[1];
    TiesAreEqualKeys(NodeV(NodeOf("a1", "A")), NodeV(NodeOf("a2", "A")));
    assert Ordering.CellKeys(a, ["x", "y"])[0] == GroupKey(NodeV(NodeOf("a1", "A")));
    assert Ordering.CellKeys(b, ["x", "y"])[0] == GroupKey(NodeV(NodeOf("a2", "A")));
  }
}
