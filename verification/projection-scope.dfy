/**
 What WHERE and ORDER BY read behind a projection.

 A part of a condition that is projected is replaced by its output column, whatever the case of its function names
 (`Resolve`). `ResolvedMeans`: on the projected row the replaced condition is worth what the written one is worth on the row
 before with the output columns laid over it, unless an alias hides a variable that an item uses. So a query may name what
 it projects by its column or write it out again (`SortKeyMeans`, `ConditionMeans`). `PaddingMeans` says which variables are
 null behind an OPTIONAL MATCH.
 */
module ProjectionScope {
  import opened Wrappers
  import opened Values
  import opened Query
  import opened Evaluation
  import opened Operators
  import opened Planner
  import Ordering
  import M = MatchExactness
  import opened RowLaws

  // ---- expressions that are the same but for case -------------------------------------------------------------

  /** No map is written anywhere in the expression. */
  predicate NoMaps(e: Expr)
    decreases e, 0
  {
    match e
    case Comparison(left, _, right) => NoMaps(left) && NoMaps(right)
    case Boolean(_, operands) => NoMapsIn(operands)
    case IsNull(operand, _) => NoMaps(operand)
    case In(operand, list) => NoMaps(operand) && NoMapsIn(list)
    case Arithmetic(left, _, right) => NoMaps(left) && NoMaps(right)
    case UnaryMinus(operand) => NoMaps(operand)
    case ListLiteral(items) => NoMapsIn(items)
    case MapLiteral(_) => false
    case Index(target, index) => NoMaps(target) && NoMaps(index)
    case Call(_, args, _, _) => NoMapsIn(args)
    case _ => true
  }

  predicate NoMapsIn(es: seq<Expr>)
    decreases es, 1
  {
    es == [] || (NoMaps(es[0]) && NoMapsIn(es[1..]))
  }

  /** Functions are told in any case. */
  ghost predicate IgnoresCase(env: Env) {
    forall fname, vs: seq<Value> :: env.functions(fname, vs) == env.functions(LowerAll(fname), vs)
  }

  lemma {:induction false} CanonicalSame(e: Expr, row: Row, env: Env)
    requires NoMaps(e) && IgnoresCase(env)
    ensures Evaluate(Canonical(e), row, env) == Evaluate(e, row, env)
    decreases e, 1
  {
    hide CompareScalars, EvaluateArithmetic, EvaluateIndex, EntryNamed, AttributeOf, Truthy, NoMapsIn, IgnoresCase, CanonicalAll, CanonicalFields,
      LowerAll;
    if e.Comparison? || e.Arithmetic? || e.Index? || e.In? {
      CanonicalPair(e, row, env);
    } else {
      match e
      case Boolean(_, operands) => CanonicalSameAll(operands, row, env);
      case IsNull(operand, _) => CanonicalSame(operand, row, env);
      case UnaryMinus(operand) => CanonicalSame(operand, row, env);
      case ListLiteral(items) => CanonicalSameAll(items, row, env);
      case Call(fname, args, _, _) =>
        CanonicalSameAll(args, row, env);
        CaseIgnored(env, fname, EvaluateAll(args, row, env));
      case _ =>
    }
  }

  lemma CanonicalPair(e: Expr, row: Row, env: Env)
    requires NoMaps(e) && IgnoresCase(env) && (e.Comparison? || e.Arithmetic? || e.Index? || e.In?)
    ensures Evaluate(Canonical(e), row, env) == Evaluate(e, row, env)
    decreases e, 0
  {
    hide CompareScalars, EvaluateArithmetic, EvaluateIndex, NoMapsIn, IgnoresCase, CanonicalAll;
    match e {
      case Comparison(left, _, right) => CanonicalSame(left, row, env); CanonicalSame(right, row, env);
      case Arithmetic(left, _, right) => CanonicalSame(left, row, env); CanonicalSame(right, row, env);
      case Index(target, index) => CanonicalSame(target, row, env); CanonicalSame(index, row, env);
      case In(operand, list) => CanonicalSame(operand, row, env); CanonicalSameAll(list, row, env);
    }
  }

  lemma CaseIgnored(env: Env, fname: string, vs: seq<Value>)
    requires IgnoresCase(env)
    ensures env.functions(LowerAll(fname), vs) == env.functions(fname, vs)
  {
  }

  lemma {:induction false} CanonicalSameAll(es: seq<Expr>, row: Row, env: Env)
    requires NoMapsIn(es) && IgnoresCase(env)
    ensures EvaluateAll(CanonicalAll(es), row, env) == EvaluateAll(es, row, env)
    decreases es, 2
  {
    hide Evaluate, IgnoresCase;
    if es != [] {
      CanonicalSame(es[0], row, env);
      CanonicalSameAll(es[1..], row, env);
    }
  }

  lemma {:induction false} CanonicalHasMaps(e: Expr)
    ensures NoMaps(Canonical(e)) <==> NoMaps(e)
    decreases e, 0
  {
    hide NoMapsIn, CanonicalAll;
    match e
    case Comparison(left, _, right) => CanonicalHasMaps(left); CanonicalHasMaps(right);
    case Boolean(_, operands) => CanonicalHasMapsIn(operands);
    case IsNull(operand, _) => CanonicalHasMaps(operand);
    case In(operand, list) => CanonicalHasMaps(operand); CanonicalHasMapsIn(list);
    case Arithmetic(left, _, right) => CanonicalHasMaps(left); CanonicalHasMaps(right);
    case UnaryMinus(operand) => CanonicalHasMaps(operand);
    case ListLiteral(items) => CanonicalHasMapsIn(items);
    case Index(target, index) => CanonicalHasMaps(target); CanonicalHasMaps(index);
    case Call(_, args, _, _) => CanonicalHasMapsIn(args);
    case _ =>
  }

  lemma {:induction false} CanonicalHasMapsIn(es: seq<Expr>)
    ensures NoMapsIn(CanonicalAll(es)) <==> NoMapsIn(es)
    decreases es, 1
  {
    if es != [] {
      CanonicalHasMaps(es[0]);
      CanonicalHasMapsIn(es[1..]);
    }
  }

  lemma {:induction false} ColumnIs(items: seq<ReturnItem>, e: Expr) returns (k: nat)
    requires ColumnOf(items, e).Some?
    ensures k < |items| && items[k].ColumnName() == ColumnOf(items, e).value && Canonical(items[k].expr) == Canonical(e)
  {
    hide Canonical;
    if Canonical(items[0].expr) == Canonical(e) {
      k := 0;
    } else {
      k := ColumnIs(items[1..], e);
      k := k + 1;
    }
  }

  // ---- the projected row --------------------------------------------------------------------------------------

  ghost predicate UniqueColumns(items: seq<ReturnItem>) {
    forall i, j :: 0 <= i < j < |items| ==> items[i].ColumnName() != items[j].ColumnName()
  }

  /** The row before the projection, with the output columns laid over it. */
  function Overlaid(row: Row, items: seq<ReturnItem>, env: Env): Row {
    row + ProjectRow(row, items, env)
  }

  /** Laying the columns over the row changes no variable that an item uses. */
  ghost predicate NothingHidden(row: Row, items: seq<ReturnItem>, env: Env) {
    forall i :: 0 <= i < |items| ==> M.SameCells(row, Overlaid(row, items, env), Variables(items[i].expr))
  }

  /** A projected expression is worth what its column holds. */
  lemma ColumnHolds(items: seq<ReturnItem>, e: Expr, row: Row, env: Env)
    requires UniqueColumns(items) && NothingHidden(row, items, env) && NoMaps(e) && IgnoresCase(env) && ColumnOf(items, e).Some?
    ensures var c := ColumnOf(items, e).value;
            c in ProjectRow(row, items, env) && ProjectRow(row, items, env)[c] == Evaluate(e, Overlaid(row, items, env), env)
  {
    hide Canonical, Evaluate, ProjectRow, IgnoresCase, NoMaps, M.SameCells;
    var k := ColumnIs(items, e);
    var item := items[k].expr;
    ProjectedCell(row, items, env, k);
    M.EvaluateReads(item, row, Overlaid(row, items, env), env);
    CanonicalSame(e, Overlaid(row, items, env), env);
    CanonicalHasMaps(e);
    CanonicalHasMaps(item);
    CanonicalSame(item, Overlaid(row, items, env), env);
  }

  ghost predicate ReadsColumns(items: seq<ReturnItem>, names: set<string>) {
    names <= SetOf(Ordering.Columns(items))
  }

  lemma {:induction false} ColumnNames(items: seq<ReturnItem>, c: string)
    ensures c in SetOf(Ordering.Columns(items)) <==> HasColumn(items, c)
  {
    assert c in SetOf(Ordering.Columns(items)) <==> c in Ordering.Columns(items);
  }

  lemma ColumnsLaidOver(items: seq<ReturnItem>, e: Expr, row: Row, env: Env)
    requires ReadsColumns(items, Variables(e))
    ensures Evaluate(e, ProjectRow(row, items, env), env) == Evaluate(e, Overlaid(row, items, env), env)
  {
    hide Variables, Evaluate, ProjectRow;
    var out := ProjectRow(row, items, env);
    forall v | v in Variables(e) ensures v in out && v in Overlaid(row, items, env) && out[v] == Overlaid(row, items, env)[v] {
      ColumnNames(items, v);
      ProjectedColumns(row, items, env, v);
    }
    M.EvaluateReads(e, out, Overlaid(row, items, env), env);
  }

  /**
   On the projected row a resolved expression is worth what the written one is worth on the row before, with the output
   columns laid over it.
   */
  lemma {:induction false} ResolvedMeans(items: seq<ReturnItem>, e: Expr, row: Row, env: Env)
    requires UniqueColumns(items) && NothingHidden(row, items, env) && NoMaps(e) && IgnoresCase(env)
    requires ReadsColumns(items, Variables(Resolve(items, e)))
    ensures Evaluate(Resolve(items, e), ProjectRow(row, items, env), env) == Evaluate(e, Overlaid(row, items, env), env)
    decreases e, 1
  {
    hide Canonical, ProjectRow, IgnoresCase, UniqueColumns, NothingHidden, NoMapsIn, CompareScalars, EvaluateArithmetic, EvaluateIndex,
      EntryNamed, AttributeOf, Truthy, VariablesOfAll, ResolveAll, SetOf;
    if ColumnOf(items, e).Some? {
      ColumnHolds(items, e, row, env);
    } else if e.Comparison? || e.Arithmetic? || e.Index? || e.In? {
      ResolvedPair(items, e, row, env);
    } else {
      match e
      case Boolean(_, operands) => ResolvedAll(items, operands, row, env);
      case IsNull(operand, _) => ResolvedMeans(items, operand, row, env);
      case UnaryMinus(operand) => ResolvedMeans(items, operand, row, env);
      case ListLiteral(es) => ResolvedAll(items, es, row, env);
      case Call(_, args, _, _) => ResolvedAll(items, args, row, env);
      case _ => ColumnsLaidOver(items, e, row, env);
    }
  }

  lemma FewerColumns(items: seq<ReturnItem>, names: set<string>, some: set<string>)
    requires ReadsColumns(items, names) && some <= names
    ensures ReadsColumns(items, some)
  {
  }

  lemma ResolvedPair(items: seq<ReturnItem>, e: Expr, row: Row, env: Env)
    requires UniqueColumns(items) && NothingHidden(row, items, env) && NoMaps(e) && IgnoresCase(env)
    requires ReadsColumns(items, Variables(Resolve(items, e))) && ColumnOf(items, e).None?
    requires e.Comparison? || e.Arithmetic? || e.Index? || e.In?
    ensures Evaluate(Resolve(items, e), ProjectRow(row, items, env), env) == Evaluate(e, Overlaid(row, items, env), env)
    decreases e, 0
  {
    hide Canonical, ProjectRow, IgnoresCase, UniqueColumns, NothingHidden, NoMapsIn, CompareScalars, EvaluateArithmetic, EvaluateIndex,
      VariablesOfAll, ResolveAll, ReadsColumns;
    var names := Variables(Resolve(items, e));
    match e {
      case Comparison(left, _, right) =>
        FewerColumns(items, names, Variables(Resolve(items, left)));
        FewerColumns(items, names, Variables(Resolve(items, right)));
        ResolvedMeans(items, left, row, env);
        ResolvedMeans(items, right, row, env);
      case Arithmetic(left, _, right) =>
        FewerColumns(items, names, Variables(Resolve(items, left)));
        FewerColumns(items, names, Variables(Resolve(items, right)));
        ResolvedMeans(items, left, row, env);
        ResolvedMeans(items, right, row, env);
      case Index(target, index) =>
        FewerColumns(items, names, Variables(Resolve(items, target)));
        FewerColumns(items, names, Variables(Resolve(items, index)));
        ResolvedMeans(items, target, row, env);
        ResolvedMeans(items, index, row, env);
      case In(operand, list) =>
        FewerColumns(items, names, Variables(Resolve(items, operand)));
        FewerColumns(items, names, VariablesOfAll(ResolveAll(items, list)));
        ResolvedMeans(items, operand, row, env);
        ResolvedAll(items, list, row, env);
    }
  }

  lemma {:induction false} ResolvedAll(items: seq<ReturnItem>, es: seq<Expr>, row: Row, env: Env)
    requires UniqueColumns(items) && NothingHidden(row, items, env) && NoMapsIn(es) && IgnoresCase(env)
    requires ReadsColumns(items, VariablesOfAll(ResolveAll(items, es)))
    ensures EvaluateAll(ResolveAll(items, es), ProjectRow(row, items, env), env) == EvaluateAll(es, Overlaid(row, items, env), env)
    decreases es, 2
  {
    hide Evaluate, Variables, Resolve, ProjectRow, IgnoresCase, UniqueColumns, NothingHidden, NoMaps;
    if es != [] {
      ResolvedMeans(items, es[0], row, env);
      ResolvedAll(items, es[1..], row, env);
    }
  }

  // ---- WHERE and ORDER BY -------------------------------------------------------------------------------------

  /** The condition a projection keeps its rows by, where it is planned at all. */
  lemma ConditionMeans(op: Op, p: Projection, row: Row, env: Env)
    requires p.where.Some? && WhereOp(op, p).Ok? && UniqueColumns(p.items) && NothingHidden(row, p.items, env)
    requires NoMaps(p.where.value) && IgnoresCase(env)
    ensures WhereOp(op, p).value.FilterOp? && WhereOp(op, p).value.child == op
    ensures Passes(WhereOp(op, p).value.condition, ProjectRow(row, p.items, env), env) <==> Passes(p.where.value, Overlaid(row, p.items, env), env)
  {
    hide Evaluate, ProjectRow, NoMaps, IgnoresCase, UniqueColumns, NothingHidden, Resolve, Variables;
    ResolvedMeans(p.items, p.where.value, row, env);
  }

  /** The keys a projection is sorted by: each is worth on the projected row what the written key is worth. */
  lemma {:induction false} SortKeyMeans(items: seq<ReturnItem>, keys: seq<SortItem>, k: nat, row: Row, env: Env)
    requires k < |keys| && ResolveSort(items, keys).Ok? && UniqueColumns(items) && NothingHidden(row, items, env)
    requires NoMaps(keys[k].expr) && IgnoresCase(env)
    ensures |ResolveSort(items, keys).value| == |keys| && ResolveSort(items, keys).value[k].descending == keys[k].descending
    ensures Evaluate(ResolveSort(items, keys).value[k].expr, ProjectRow(row, items, env), env) == Evaluate(keys[k].expr, Overlaid(row, items, env), env)
    decreases k
  {
    hide Evaluate, ProjectRow, NoMaps, IgnoresCase, UniqueColumns, NothingHidden, ColumnOf;
    SortKeysResolve(items, keys);
    if k > 0 {
      SortKeyMeans(items, keys[1..], k - 1, row, env);
    } else if ColumnOf(items, keys[0].expr).Some? {
      ColumnHolds(items, keys[0].expr, row, env);
      ReadsItsCell(ColumnOf(items, keys[0].expr).value, ProjectRow(row, items, env), env);
    } else {
      ColumnsLaidOver(items, keys[0].expr, row, env);
    }
  }

  lemma {:induction false} SortKeysResolve(items: seq<ReturnItem>, keys: seq<SortItem>)
    requires ResolveSort(items, keys).Ok?
    ensures |ResolveSort(items, keys).value| == |keys|
  {
    hide ColumnOf, UnknownReference;
    if keys != [] {
      SortKeysResolve(items, keys[1..]);
    }
  }

  lemma ReadsItsCell(name: string, row: Row, env: Env)
    requires name in row
    ensures Evaluate(VariableRef(name), row, env) == row[name]
  {
  }

  // ---- OPTIONAL MATCH -----------------------------------------------------------------------------------------

  /** The pattern names the variable: for a node, a relationship or a whole path. */
  ghost predicate Names(path: PatternPath, v: string) {
    || path.pathVariable == Some(v)
    || (exists n :: n in path.nodes && n.variable == Some(v))
    || (exists r :: r in path.rels && r.variable == Some(v))
  }

  lemma {:induction false} NodeVariablesAre(nodes: seq<NodePattern>, v: string)
    ensures v in NodeVariables(nodes) <==> exists n :: n in nodes && n.variable == Some(v)
  {
    if nodes != [] {
      NodeVariablesAre(nodes[1..], v);
      assert nodes == [nodes[0]] + nodes[1..];
    }
  }

  lemma {:induction false} RelVariablesAre(rels: seq<RelPattern>, v: string)
    ensures v in RelVariables(rels) <==> exists r :: r in rels && r.variable == Some(v)
  {
    if rels != [] {
      RelVariablesAre(rels[1..], v);
      assert rels == [rels[0]] + rels[1..];
    }
  }

  lemma {:induction false} DeclaredAre(paths: seq<PatternPath>, v: string)
    ensures v in Declared(paths) <==> exists p :: p in paths && Names(p, v)
  {
    hide Names, NodeVariables, RelVariables;
    if paths != [] {
      DeclaredAre(paths[1..], v);
      DeclaredFirst(paths[0], v);
      assert paths == [paths[0]] + paths[1..];
    }
  }

  lemma DeclaredFirst(p: PatternPath, v: string)
    ensures v in (if p.pathVariable.Some? then [p.pathVariable.value] else []) + NodeVariables(p.nodes) + RelVariables(p.rels) <==> Names(p, v)
  {
    NodeVariablesAre(p.nodes, v);
    RelVariablesAre(p.rels, v);
  }

  lemma {:induction false} UnboundAre(names: seq<string>, bound: set<string>, v: string)
    ensures v in Unbound(names, bound) <==> v in names && v !in bound
  {
    if names != [] {
      UnboundAre(names[1..], bound, v);
      UnboundAre(names[1..], bound + {names[0]}, v);
    }
  }

  /** Where an OPTIONAL MATCH finds nothing, what its pattern names and was not bound before is null, and nothing else changes. */
  lemma PaddingMeans(paths: seq<PatternPath>, bound: set<string>, row: Row, v: string)
    ensures var padded := Padded(row, Unbound(Declared(paths), bound));
            if v !in bound && exists p :: p in paths && Names(p, v) then v in padded && padded[v] == NullV
            else (v in padded <==> v in row) && (v in row ==> padded[v] == row[v])
  {
    hide Names, Declared, Unbound, Padded;
    DeclaredAre(paths, v);
    UnboundAre(Declared(paths), bound, v);
    PaddedMeans(row, Unbound(Declared(paths), bound));
  }
}
