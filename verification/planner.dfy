/** Compiling a read query: every clause becomes operators over the rows of the clauses before it. */
module Planner {
  import opened Wrappers
  import opened Numbers
  import opened NumberText
  import opened Text
  import opened Values
  import opened Query
  import opened Evaluation
  import opened Graphs
  import opened Operators
  import Ordering
  import VarLength

  datatype PlanError =
    | WritesNotExecutable
    | RelPropsUnsupported
    | UnknownRelType(relType: string)
    | PathVarNeedsVarLength
    | VarLengthIntoBound
    | UnboundVariable(name: string)
    | DuplicateColumn(column: string)
    | NestedAggregate
    | NonNumericLimit
    | UnknownColumn(reference: string)

  datatype Options = Options(schema: Schema, env: Env, maxVarLength: nat, ensureOrder: bool)

  /** The operator so far, if there is one, and the variables it binds. */
  datatype State = State(op: Option<Op>, bound: set<string>) {
    function Input(): Op {
      if op.Some? then op.value else SingleRow
    }
  }

  // ---- expressions --------------------------------------------------------------------------------------------

  function Variables(e: Expr): set<string>
    decreases e, 0
  {
    match e
    case VariableRef(name) => {name}
    case PropertyAccess(variable, _) => {variable}
    case Literal(_) => {}
    case Parameter(_) => {}
    case Comparison(left, _, right) => Variables(left) + Variables(right)
    case Boolean(_, operands) => VariablesOfAll(operands)
    case IsNull(operand, _) => Variables(operand)
    case In(operand, list) => Variables(operand) + VariablesOfAll(list)
    case Arithmetic(left, _, right) => Variables(left) + Variables(right)
    case UnaryMinus(operand) => Variables(operand)
    case ListLiteral(items) => VariablesOfAll(items)
    case MapLiteral(fields) => VariablesOfFields(fields)
    case Index(target, index) => Variables(target) + Variables(index)
    case Call(_, args, _, _) => VariablesOfAll(args)
  }

  function VariablesOfAll(es: seq<Expr>): set<string>
    decreases es, 1
  {
    if es == [] then {} else Variables(es[0]) + VariablesOfAll(es[1..])
  }

  function VariablesOfFields(fields: seq<Field>): set<string>
    decreases fields, 1
  {
    if fields == [] then {} else Variables(fields[0].expr) + VariablesOfFields(fields[1..])
  }

  function VariablesOf(e: Option<Expr>): set<string> {
    if e.None? then {} else Variables(e.value)
  }

  predicate ContainsAggregate(e: Expr)
    decreases e, 0
  {
    match e
    case Comparison(left, _, right) => ContainsAggregate(left) || ContainsAggregate(right)
    case Boolean(_, operands) => AnyAggregate(operands)
    case IsNull(operand, _) => ContainsAggregate(operand)
    case In(operand, list) => ContainsAggregate(operand) || AnyAggregate(list)
    case Arithmetic(left, _, right) => ContainsAggregate(left) || ContainsAggregate(right)
    case UnaryMinus(operand) => ContainsAggregate(operand)
    case ListLiteral(items) => AnyAggregate(items)
    case MapLiteral(fields) => AnyFieldAggregate(fields)
    case Index(target, index) => ContainsAggregate(target) || ContainsAggregate(index)
    case Call(fname, args, _, _) => IsAggregateName(fname) || AnyAggregate(args)
    case _ => false
  }

  predicate AnyAggregate(es: seq<Expr>)
    decreases es, 1
  {
    es != [] && (ContainsAggregate(es[0]) || AnyAggregate(es[1..]))
  }

  predicate AnyFieldAggregate(fields: seq<Field>)
    decreases fields, 1
  {
    fields != [] && (ContainsAggregate(fields[0].expr) || AnyFieldAggregate(fields[1..]))
  }

  function InsertField(f: Field, sorted: seq<Field>): seq<Field> {
    if sorted == [] || CompareStrings(f.key, sorted[0].key) <= 0 then [f] + sorted
    else [sorted[0]] + InsertField(f, sorted[1..])
  }

  /** The structural identity of an expression: function names in lower case, map entries in key order. */
  function Canonical(e: Expr): Expr
    decreases e, 0
  {
    match e
    case Comparison(left, op, right) => Comparison(Canonical(left), op, Canonical(right))
    case Boolean(op, operands) => Boolean(op, CanonicalAll(operands))
    case IsNull(operand, negated) => IsNull(Canonical(operand), negated)
    case In(operand, list) => In(Canonical(operand), CanonicalAll(list))
    case Arithmetic(left, op, right) => Arithmetic(Canonical(left), op, Canonical(right))
    case UnaryMinus(operand) => UnaryMinus(Canonical(operand))
    case ListLiteral(items) => ListLiteral(CanonicalAll(items))
    case MapLiteral(fields) => MapLiteral(CanonicalFields(fields))
    case Index(target, index) => Index(Canonical(target), Canonical(index))
    case Call(fname, args, distinct, star) => Call(LowerAll(fname), CanonicalAll(args), distinct, star)
    case _ => e
  }

  function CanonicalAll(es: seq<Expr>): seq<Expr>
    decreases es, 1
  {
    if es == [] then [] else [Canonical(es[0])] + CanonicalAll(es[1..])
  }

  function CanonicalFields(fields: seq<Field>): seq<Field>
    decreases fields, 1
  {
    if fields == [] then []
    else InsertField(Field(fields[0].key, Canonical(fields[0].expr)), CanonicalFields(fields[1..]))
  }

  /** The column of the first item projecting this very expression. */
  function ColumnOf(items: seq<ReturnItem>, e: Expr): Option<string> {
    if items == [] then None
    else if Canonical(items[0].expr) == Canonical(e) then Some(items[0].ColumnName())
    else ColumnOf(items[1..], e)
  }

  /** Replaces every projected subexpression, outermost first, by its output column. */
  function Resolve(items: seq<ReturnItem>, e: Expr): Expr
    decreases e, 0
  {
    var column := ColumnOf(items, e);
    if column.Some? then VariableRef(column.value)
    else match e
      case Comparison(left, op, right) => Comparison(Resolve(items, left), op, Resolve(items, right))
      case Boolean(op, operands) => Boolean(op, ResolveAll(items, operands))
      case IsNull(operand, negated) => IsNull(Resolve(items, operand), negated)
      case In(operand, list) => In(Resolve(items, operand), ResolveAll(items, list))
      case Arithmetic(left, op, right) => Arithmetic(Resolve(items, left), op, Resolve(items, right))
      case UnaryMinus(operand) => UnaryMinus(Resolve(items, operand))
      case ListLiteral(es) => ListLiteral(ResolveAll(items, es))
      case MapLiteral(fields) => MapLiteral(ResolveFields(items, fields))
      case Index(target, index) => Index(Resolve(items, target), Resolve(items, index))
      case Call(fname, args, distinct, star) => Call(fname, ResolveAll(items, args), distinct, star)
      case _ => e
  }

  function ResolveAll(items: seq<ReturnItem>, es: seq<Expr>): seq<Expr>
    decreases es, 1
  {
    if es == [] then [] else [Resolve(items, es[0])] + ResolveAll(items, es[1..])
  }

  function ResolveFields(items: seq<ReturnItem>, fields: seq<Field>): seq<Field>
    decreases fields, 1
  {
    if fields == [] then []
    else [Field(fields[0].key, Resolve(items, fields[0].expr))] + ResolveFields(items, fields[1..])
  }

  // ---- patterns -----------------------------------------------------------------------------------------------

  const ANON_PREFIX := "__n"

  /** The variable of the i-th node of a path; an anonymous node is named after its position. */
  function NodeName(path: PatternPath, i: nat): string
    requires i < |path.nodes|
  {
    if path.nodes[i].variable.Some? then path.nodes[i].variable.value else ANON_PREFIX + Digits(i)
  }

  function PropertyTest(name: string, p: Property): Expr {
    Comparison(PropertyAccess(name, p.key), Eq, Literal(Some(p.value)))
  }

  function FoldProperties(op: Op, properties: seq<Property>, name: string): Op
    decreases |properties|
  {
    if properties == [] then op
    else FoldProperties(FilterOp(op, PropertyTest(name, properties[0])), properties[1..], name)
  }

  function FoldReused(op: Op, node: NodePattern, name: string): Op {
    FoldProperties(if node.labelName.None? then op else LabelFilter(op, name, node.labelName.value), node.properties, name)
  }

  function Scan(node: NodePattern, name: string): Op {
    if node.labelName.None? then AllNodesScan(name) else LabelScan(name, node.labelName.value)
  }

  function Bind(bound: set<string>, variable: Option<string>): set<string> {
    if variable.None? then bound else bound + {variable.value}
  }

  function RelError(schema: Schema, rels: seq<RelPattern>): Option<PlanError> {
    if rels == [] then None
    else if rels[0].properties != [] then Some(RelPropsUnsupported)
    else if rels[0].relType.Some? && !schema.HasRelationshipType(rels[0].relType.value) then
      Some(UnknownRelType(rels[0].relType.value))
    else RelError(schema, rels[1..])
  }

  /** The position of the last variable-length relationship, -1 without one. */
  function LastVarLength(rels: seq<RelPattern>): int {
    if rels == [] then -1
    else if rels[|rels| - 1].IsVariableLength() then |rels| - 1
    else LastVarLength(rels[..|rels| - 1])
  }

  predicate IsBound(bound: set<string>, variable: Option<string>) {
    variable.Some? && variable.value in bound
  }

  function Anchor(input: Option<Op>, path: PatternPath, bound: set<string>): State
    requires path.Valid()
  {
    var node := path.nodes[0];
    var name := NodeName(path, 0);
    if IsBound(bound, node.variable) && input.Some? then State(Some(FoldReused(input.value, node, name)), bound)
    else
      var scan := Scan(node, name);
      var op := if input.None? then scan else CartesianProduct(input.value, scan);
      State(Some(FoldProperties(op, node.properties, name)), Bind(bound, node.variable))
  }

  function HopOf(rel: RelPattern, node: NodePattern, maxVarLength: nat): VarLength.Hop {
    VarLength.Hop(rel.relType, rel.direction, if rel.minHops.Some? then rel.minHops.value else 1,
                  if rel.maxHops.Some? then rel.maxHops.value else maxVarLength, node.labelName)
  }

  /** One relationship of a path, from its i-th node to the next. */
  function CompileRel(options: Options, op: Op, path: PatternPath, i: nat, bound: set<string>): Result<State, PlanError>
    requires path.Valid() && i < |path.rels|
  {
    var rel, node := path.rels[i], path.nodes[i + 1];
    var from, to := NodeName(path, i), NodeName(path, i + 1);
    if rel.IsVariableLength() then
      if IsBound(bound, node.variable) then Err(VarLengthIntoBound)
      else
        var pathVar := if i == LastVarLength(path.rels) then path.pathVariable else None;
        var hop := HopOf(rel, node, options.maxVarLength);
        Ok(State(Some(FoldProperties(VarLengthExpand(op, from, to, rel, hop, pathVar), node.properties, to)),
                 Bind(bound, node.variable)))
    else if IsBound(bound, node.variable) then
      Ok(State(Some(FoldReused(ExpandInto(op, from, to, rel), node, to)), bound))
    else
      Ok(State(Some(FoldProperties(ExpandOp(op, from, to, rel, node.labelName), node.properties, to)),
               Bind(bound, node.variable)))
  }

  /** The relationships of a path from the i-th on. */
  function CompileRels(options: Options, op: Op, path: PatternPath, i: nat, bound: set<string>): Result<State, PlanError>
    requires path.Valid() && i <= |path.rels|
    decreases |path.rels| - i
  {
    if i == |path.rels| then Ok(State(Some(op), bound))
    else
      var next :- CompileRel(options, op, path, i, bound);
      CompileRels(options, next.Input(), path, i + 1, next.bound)
  }

  function CompilePath(options: Options, input: Option<Op>, path: PatternPath, bound: set<string>): Result<State, PlanError>
    requires path.Valid()
  {
    var error := RelError(options.schema, path.rels);
    if error.Some? then Err(error.value)
    else
      var anchored := Anchor(input, path, bound);
      if path.pathVariable.Some? && LastVarLength(path.rels) < 0 then Err(PathVarNeedsVarLength)
      else CompileRels(options, anchored.Input(), path, 0, anchored.bound)
  }

  function CompilePaths(options: Options, input: Option<Op>, paths: seq<PatternPath>, bound: set<string>): Result<State, PlanError>
    requires forall p :: p in paths ==> p.Valid()
    decreases |paths|
  {
    if paths == [] then Ok(State(input, bound))
    else
      var next :- CompilePath(options, input, paths[0], bound);
      CompilePaths(options, next.op, paths[1..], next.bound)
  }

  function NodeVariables(nodes: seq<NodePattern>): seq<string> {
    if nodes == [] then []
    else (if nodes[0].variable.Some? then [nodes[0].variable.value] else []) + NodeVariables(nodes[1..])
  }

  function RelVariables(rels: seq<RelPattern>): seq<string> {
    if rels == [] then []
    else (if rels[0].variable.Some? then [rels[0].variable.value] else []) + RelVariables(rels[1..])
  }

  function Declared(paths: seq<PatternPath>): seq<string> {
    if paths == [] then []
    else (if paths[0].pathVariable.Some? then [paths[0].pathVariable.value] else [])
         + NodeVariables(paths[0].nodes) + RelVariables(paths[0].rels) + Declared(paths[1..])
  }

  function Unbound(names: seq<string>, bound: set<string>): seq<string> {
    if names == [] then []
    else if names[0] in bound then Unbound(names[1..], bound)
    else [names[0]] + Unbound(names[1..], bound + {names[0]})
  }

  function SetOf(names: seq<string>): set<string> {
    set n | n in names
  }

  /** The paths in order, then the condition. */
  function CompilePattern(options: Options, input: Option<Op>, paths: seq<PatternPath>, where: Option<Expr>, bound: set<string>): Result<State, PlanError>
    requires forall p :: p in paths ==> p.Valid()
  {
    var state :- CompilePaths(options, input, paths, bound);
    var op := state.Input();
    Ok(State(Some(if where.None? then op else FilterOp(op, where.value)), state.bound))
  }

  function CompileMatch(options: Options, input: Option<Op>, match_: Clause, bound: set<string>): Result<State, PlanError>
    requires match_.Match? && forall p :: p in match_.paths ==> p.Valid()
  {
    if match_.optional then
      var vars := Unbound(Declared(match_.paths), bound);
      var inner :- CompilePattern(options, Some(Argument), match_.paths, match_.where, bound);
      Ok(State(Some(OptionalApply(State(input, bound).Input(), inner.Input(), vars)), bound + SetOf(vars)))
    else CompilePattern(options, input, match_.paths, match_.where, bound)
  }

  predicate ValidClause(c: Clause) {
    match c
    case Match(paths, _, _) => forall p :: p in paths ==> p.Valid()
    case _ => true
  }

  function CompileClause(options: Options, state: State, clause: Clause): Result<State, PlanError>
    requires ValidClause(clause)
  {
    match clause
    case Match(_, _, _) => CompileMatch(options, state.op, clause, state.bound)
    case Unwind(expr, variable) => Ok(State(Some(UnwindOp(state.Input(), expr, variable)), state.bound + {variable}))
    case _ => Err(WritesNotExecutable)
  }

  function CompileClauses(options: Options, state: State, clauses: seq<Clause>): Result<State, PlanError>
    requires forall c :: c in clauses ==> ValidClause(c)
    decreases |clauses|
  {
    if clauses == [] then Ok(state)
    else
      var next :- CompileClause(options, state, clauses[0]);
      CompileClauses(options, next, clauses[1..])
  }

  // ---- projections --------------------------------------------------------------------------------------------

  function GroupingItems(items: seq<ReturnItem>): seq<ReturnItem> {
    if items == [] then []
    else (if ContainsAggregate(items[0].expr) then [] else [items[0]]) + GroupingItems(items[1..])
  }

  function AggregateItems(items: seq<ReturnItem>): Result<seq<AggregateItem>, PlanError> {
    if items == [] then Ok([])
    else if !ContainsAggregate(items[0].expr) then AggregateItems(items[1..])
    else match items[0].expr
      case Call(fname, args, distinct, star) =>
        var rest :- AggregateItems(items[1..]);
        Ok([AggregateItem(items[0].ColumnName(), fname, args, distinct, star)] + rest)
      case _ => Err(NestedAggregate)
  }

  function UnknownReference(items: seq<ReturnItem>, e: Expr): Option<PlanError> {
    if Variables(e) <= SetOf(Ordering.Columns(items)) then None else Some(UnknownColumn("WITH ... WHERE / ORDER BY"))
  }

  /** A sort expression equal to a projected one reads its column; any other may only name output columns. */
  function ResolveSort(items: seq<ReturnItem>, keys: seq<SortItem>): Result<seq<SortItem>, PlanError> {
    if keys == [] then Ok([])
    else
      var column := ColumnOf(items, keys[0].expr);
      if column.None? && UnknownReference(items, keys[0].expr).Some? then Err(UnknownReference(items, keys[0].expr).value)
      else
        var rest :- ResolveSort(items, keys[1..]);
        Ok([if column.Some? then SortItem(VariableRef(column.value), keys[0].descending) else keys[0]] + rest)
  }

  function Count(options: Options, e: Expr): Result<Number, PlanError> {
    match Evaluate(e, map[], options.env)
    case ScalarV(Num(n)) => Ok(n)
    case _ => Err(NonNumericLimit)
  }

  function ProjectedOp(input: Op, p: Projection): Result<Op, PlanError> {
    var aggregates :- AggregateItems(p.items);
    Ok(if aggregates != [] then AggregateOp(input, GroupingItems(p.items), aggregates) else ProjectOp(input, p.items))
  }

  function WhereOp(op: Op, p: Projection): Result<Op, PlanError> {
    if p.where.None? then Ok(op)
    else
      var e := Resolve(p.items, p.where.value);
      if UnknownReference(p.items, e).Some? then Err(UnknownReference(p.items, e).value) else Ok(FilterOp(op, e))
  }

  function OrderOp(op: Op, p: Projection, implicitOrder: bool): Result<Op, PlanError> {
    if p.orderBy.Some? then
      var keys :- ResolveSort(p.items, p.orderBy.value);
      Ok(SortOp(op, keys))
    else if implicitOrder then
      var keys :- ResolveSort(p.items, Ordering.Ascending(Ordering.Columns(p.items)));
      Ok(SortOp(op, keys))
    else Ok(op)
  }

  function SliceOp(options: Options, op: Op, p: Projection): Result<Op, PlanError> {
    var skipped :- if p.skip.None? then Ok(op) else SkippedOp(options, op, p.skip.value);
    if p.limit.None? then Ok(skipped)
    else
      var n :- Count(options, p.limit.value);
      Ok(LimitOp(skipped, n))
  }

  function SkippedOp(options: Options, op: Op, e: Expr): Result<Op, PlanError> {
    var n :- Count(options, e);
    Ok(SkipOp(op, n))
  }

  function BuildProjection(options: Options, input: Op, p: Projection, implicitOrder: bool): Result<Op, PlanError> {
    var projected :- ProjectedOp(input, p);
    var distinct := if p.distinct then DistinctOp(projected, Ordering.Columns(p.items)) else projected;
    var filtered :- WhereOp(distinct, p);
    var sorted :- OrderOp(filtered, p, implicitOrder);
    SliceOp(options, sorted, p)
  }

  // ---- parts --------------------------------------------------------------------------------------------------

  function ReadingVariables(clauses: seq<Clause>): set<string> {
    if clauses == [] then {}
    else (match clauses[0]
          case Match(paths, _, _) => SetOf(Declared(paths))
          case Unwind(_, variable) => {variable}
          case _ => {}) + ReadingVariables(clauses[1..])
  }

  function Referenced(clauses: seq<Clause>): set<string> {
    if clauses == [] then {}
    else (match clauses[0]
          case Match(_, where, _) => VariablesOf(where)
          case Unwind(expr, _) => Variables(expr)
          case _ => {}) + Referenced(clauses[1..])
  }

  function ItemVariables(items: seq<ReturnItem>): set<string> {
    if items == [] then {} else Variables(items[0].expr) + ItemVariables(items[1..])
  }

  function ScopeError(part: QueryPart, inScope: set<string>): Option<PlanError> {
    var available := inScope + ReadingVariables(part.reading);
    var referenced := Referenced(part.reading) + (if part.projection.None? then {} else ItemVariables(part.projection.value.items));
    if referenced <= available then None else Some(UnboundVariable("variable not in scope"))
  }

  function DuplicateIn(columns: seq<string>, seen: set<string>): Option<PlanError> {
    if columns == [] then None
    else if columns[0] in seen then Some(DuplicateColumn(columns[0]))
    else DuplicateIn(columns[1..], seen + {columns[0]})
  }

  function PartError(part: QueryPart, inScope: set<string>): Option<PlanError> {
    var duplicate := if part.projection.None? then None else DuplicateIn(Ordering.Columns(part.projection.value.items), {});
    if duplicate.Some? then duplicate else ScopeError(part, inScope)
  }

  predicate ValidPart(part: QueryPart) {
    forall c :: c in part.reading ==> ValidClause(c)
  }

  /** The operator of a part over the rows of the parts before it, and the variables the next part starts with. */
  function CompilePart(options: Options, part: QueryPart, input: Option<Op>, inScope: set<string>, isFinal: bool): Result<State, PlanError>
    requires ValidPart(part)
  {
    var error := PartError(part, inScope);
    if error.Some? then Err(error.value)
    else
      var state :- CompileClauses(options, State(input, inScope), part.reading);
      if part.projection.None? then Ok(State(Some(state.Input()), inScope))
      else
        var p := part.projection.value;
        var op :- BuildProjection(options, state.Input(), p, isFinal && options.ensureOrder);
        Ok(State(Some(op), if p.isReturn then inScope else SetOf(Ordering.Columns(p.items))))
  }

  function CompileParts(options: Options, parts: seq<QueryPart>, state: State): Result<State, PlanError>
    requires forall p :: p in parts ==> ValidPart(p)
  {
    if parts == [] then Ok(state)
    else
      var next :- CompilePart(options, parts[0], state.op, state.bound, |parts| == 1);
      CompileParts(options, parts[1..], next)
  }

  predicate ValidModel(model: QueryModel) {
    forall p :: p in model.parts ==> ValidPart(p)
  }

  function Plan(options: Options, model: QueryModel): Result<Op, PlanError>
    requires ValidModel(model)
  {
    var state :- CompileParts(options, model.parts, State(None, {}));
    Ok(state.Input())
  }

  /** The answer of a read query: the rows of its plan. */
  function Answer(options: Options, model: QueryModel, g: Graph): Result<seq<Row>, PlanError>
    requires ValidModel(model)
  {
    var op :- Plan(options, model);
    Ok(Rows(op, Context(options.schema, options.env), g, map[]))
  }
}
