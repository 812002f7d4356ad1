/**
 The operators as they run: each pulls the rows of its child and yields rows in a loop, with the flags, counters, buffers
 and seen keys it needs. `Run` drains a whole plan and is proved to yield the rows of Operators.Rows, in order.
 */
module OperatorLoops {
  import opened Wrappers
  import opened Numbers
  import opened NumberText
  import opened Values
  import opened Query
  import opened Evaluation
  import opened Graphs
  import opened Seqs
  import opened Ordering
  import opened Operators
  import VarLength

  // ---- one more row -------------------------------------------------------------------------------------------

  lemma OneMore<S, T>(s: seq<S>, i: nat, f: S -> seq<T>)
    requires i < |s|
    ensures FlatMap(s[..i + 1], f) == FlatMap(s[..i], f) + f(s[i])
  {
    hide FlatMap;
    assert s[..i + 1] == s[..i] + [s[i]];
    FlatMapConcat(s[..i], [s[i]], f);
    FlatMapOne(s[i], f);
  }

  lemma FlatMapOne<S, T>(x: S, f: S -> seq<T>)
    ensures FlatMap([x], f) == f(x)
  {
    assert [x][1..] == [];
  }

  lemma OneMoreKept<T>(s: seq<T>, i: nat, p: T -> bool)
    requires i < |s|
    ensures Filter(s[..i + 1], p) == Filter(s[..i], p) + if p(s[i]) then [s[i]] else []
  {
    hide Filter;
    assert s[..i + 1] == s[..i] + [s[i]];
    FilterConcat(s[..i], [s[i]], p);
    FilterOne(s[i], p);
  }

  lemma FilterOne<T>(x: T, p: T -> bool)
    ensures Filter([x], p) == if p(x) then [x] else []
  {
    assert [x][1..] == [];
  }

  // ---- reading the graph --------------------------------------------------------------------------------------

  method Scan(variable: string, nodes: seq<Node>) returns (out: seq<Row>)
    ensures out == FlatMap(nodes, ScanRow(variable))
  {
    hide FlatMap;
    out := [];
    assert FlatMap(nodes[..0], ScanRow(variable)) == [] by { FlatMapNone(ScanRow(variable)); }
    for i := 0 to |nodes|
      invariant out == FlatMap(nodes[..i], ScanRow(variable))
    {
      OneMore(nodes, i, ScanRow(variable));
      out := out + [map[variable := NodeV(nodes[i])]];
    }
    assert nodes[..|nodes|] == nodes;
  }

  lemma FlatMapNone<S, T>(f: S -> seq<T>)
    ensures forall s: seq<S> :: s == [] ==> FlatMap(s, f) == []
  {
  }

  method ExpandLoop(cx: Context, g: Graph, row: Row, from: string, to: string, rel: RelPattern, toLabel: Option<string>) returns (out: seq<Row>)
    ensures out == ExpandRow(cx.schema, g, row, from, to, rel, toLabel)
  {
    hide FlatMap, Expand, Schema.HasLabel, VarLength.Oriented;
    out := [];
    if from !in row || !row[from].NodeV? {
      return;
    }
    var id := row[from].node.id;
    var targets := Expand(cx.schema, g, id, rel.relType, rel.direction);
    ghost var gives := ExpandTo(cx.schema, row, id, to, rel, toLabel);
    FlatMapNone(gives);
    for i := 0 to |targets|
      invariant out == FlatMap(targets[..i], gives)
    {
      OneMore(targets, i, gives);
      if cx.schema.HasLabel(targets[i], toLabel) {
        var next := row[to := NodeV(targets[i])];
        out := out + [if rel.variable.None? then next
                      else next[rel.variable.value := RelV(VarLength.Oriented(rel.direction, rel.relType, id, targets[i].id))]];
      }
    }
    assert targets[..|targets|] == targets;
  }

  /** Stops at the first target that is the bound node. */
  method ExpandIntoLoop(cx: Context, g: Graph, row: Row, from: string, to: string, rel: RelPattern) returns (out: seq<Row>)
    ensures out == ExpandIntoRow(cx.schema, g, row, from, to, rel)
  {
    hide Expand, VarLength.Oriented;
    out := [];
    if from !in row || !row[from].NodeV? || to !in row || !row[to].NodeV? {
      return;
    }
    var a, b := row[from].node.id, row[to].node.id;
    var targets := Expand(cx.schema, g, a, rel.relType, rel.direction);
    for i := 0 to |targets|
      invariant out == []
      invariant forall j :: 0 <= j < i ==> targets[j].id != b
    {
      if targets[i].id == b {
        assert Reaches(targets, b);
        out := [WithRel(row, rel.variable, VarLength.Oriented(rel.direction, rel.relType, a, b))];
        break;
      }
    }
  }

  method VarLengthLoop(cx: Context, g: Graph, row: Row, from: string, to: string, rel: RelPattern, hop: VarLength.Hop,
                       pathVar: Option<string>) returns (out: seq<Row>)
    ensures out == VarLengthRow(cx.schema, g, row, from, to, rel, hop, pathVar)
  {
    hide FlatMap, VarLength.Walks, TrailRow;
    out := [];
    if from !in row || !row[from].NodeV? {
      return;
    }
    var start := row[from].node;
    var walker := new VarLength.Walker(cx.schema, g, hop, start);
    walker.Walk(start, Find(g.nodes, start.id));
    var trails := walker.emitted;
    assert trails == VarLength.Enumerate(cx.schema, g, hop, start);
    ghost var gives := (t: VarLength.Trail) => if t.nodes == [] then [] else [TrailRow(row, to, rel, pathVar, t)];
    FlatMapNone(gives);
    for i := 0 to |trails|
      invariant out == FlatMap(trails[..i], gives)
    {
      OneMore(trails, i, gives);
      if trails[i].nodes != [] {
        out := out + [TrailRow(row, to, rel, pathVar, trails[i])];
      }
    }
    assert trails[..|trails|] == trails;
  }

  method LabelFilterLoop(cx: Context, g: Graph, rows: seq<Row>, variable: string, labelName: string) returns (out: seq<Row>)
    ensures out == Filter(rows, LabelTest(cx.schema, g, variable, labelName))
  {
    hide Filter, Find, Schema.IsInstanceOf;
    ghost var test := LabelTest(cx.schema, g, variable, labelName);
    out := [];
    FilterNone(rows[..0], test);
    for i := 0 to |rows|
      invariant out == Filter(rows[..i], test)
    {
      OneMoreKept(rows, i, test);
      if variable in rows[i] && rows[i][variable].NodeV? {
        var mirror := Find(g.nodes, rows[i][variable].node.id);
        if mirror.Some? && cx.schema.IsInstanceOf(mirror.value, labelName) {
          out := out + [rows[i]];
        }
      }
    }
    assert rows[..|rows|] == rows;
  }

  // ---- rows from rows -----------------------------------------------------------------------------------------

  method FilterLoop(cx: Context, rows: seq<Row>, condition: Expr) returns (out: seq<Row>)
    ensures out == Filter(rows, ConditionTest(condition, cx.env))
  {
    hide Filter, Passes;
    ghost var test := ConditionTest(condition, cx.env);
    out := [];
    FilterNone(rows[..0], test);
    for i := 0 to |rows|
      invariant out == Filter(rows[..i], test)
    {
      OneMoreKept(rows, i, test);
      if Passes(condition, rows[i], cx.env) {
        out := out + [rows[i]];
      }
    }
    assert rows[..|rows|] == rows;
  }

  method ProjectRowLoop(row: Row, items: seq<ReturnItem>, env: Env) returns (projected: Row)
    ensures projected == ProjectRow(row, items, env)
  {
    hide Evaluate;
    projected := map[];
    for i := 0 to |items|
      invariant projected == ProjectRow(row, items[..i], env)
    {
      assert items[..i + 1][..i] == items[..i];
      projected := projected[items[i].ColumnName() := Evaluate(items[i].expr, row, env)];
    }
    assert items[..|items|] == items;
  }

  /** The rows a left row joins: every right row it agrees with on what they share. */
  method MergeLoop(l: Row, rights: seq<Row>) returns (out: seq<Row>)
    ensures out == MergeRows(l, rights)
  {
    hide FlatMap, Operators.Merge;
    out := [];
    FlatMapNone(MergeWith(l));
    for i := 0 to |rights|
      invariant out == FlatMap(rights[..i], MergeWith(l))
    {
      OneMore(rights, i, MergeWith(l));
      var merged := Operators.Merge(l, rights[i]);
      if merged.Some? {
        out := out + [merged.value];
      }
    }
    assert rights[..|rights|] == rights;
  }

  method UnwindLoop(cx: Context, row: Row, expr: Expr, variable: string) returns (out: seq<Row>)
    ensures out == UnwindRow(row, expr, variable, cx.env)
  {
    hide FlatMap, Evaluate;
    var v := Evaluate(expr, row, cx.env);
    match v {
      case NullV =>
        out := [];
      case ListV(items) =>
        out := [];
        ghost var gives := item => [row[variable := item]];
        FlatMapNone(gives);
        for i := 0 to |items|
          invariant out == FlatMap(items[..i], gives)
        {
          OneMore(items, i, gives);
          out := out + [row[variable := items[i]]];
        }
        assert items[..|items|] == items;
      case _ =>
        out := [row[variable := v]];
    }
  }

  method PadLoop(row: Row, vars: seq<string>) returns (padded: Row)
    ensures padded == Padded(row, vars)
  {
    padded := row;
    for i := 0 to |vars|
      invariant Padded(padded, vars[i..]) == Padded(row, vars)
    {
      assert vars[i..][0] == vars[i] && vars[i..][1..] == vars[i + 1..];
      padded := padded[vars[i] := NullV];
    }
  }

  // ---- ordering -----------------------------------------------------------------------------------------------

  method DistinctLoop(rows: seq<Row>, columns: seq<string>) returns (out: seq<Row>)
    ensures out == DistinctRows(rows, columns, {})
  {
    hide DistinctKey;
    out := [];
    var seen: set<seq<string>> := {};
    for i := 0 to |rows|
      invariant out + DistinctRows(rows[i..], columns, seen) == DistinctRows(rows, columns, {})
    {
      assert rows[i..][0] == rows[i] && rows[i..][1..] == rows[i + 1..];
      var key := DistinctKey(rows[i], columns);
      if key !in seen {
        ghost var later := DistinctRows(rows[i + 1..], columns, seen + {key});
        assert out + ([rows[i]] + later) == out + [rows[i]] + later;
        seen := seen + {key};
        out := out + [rows[i]];
      }
    }
  }

  method SkipLoop(rows: seq<Row>, count: Number) returns (out: seq<Row>)
    ensures out == Operators.Dropped(rows, SkipCount(count))
  {
    hide SkipCount;
    out := [];
    var seen := 0;
    for i := 0 to |rows|
      invariant seen == i && out == Operators.Dropped(rows[..i], SkipCount(count))
    {
      if seen >= SkipCount(count) {
        out := out + [rows[i]];
      }
      seen := seen + 1;
    }
    assert rows[..|rows|] == rows;
  }

  /** A number at or below zero pulls nothing; otherwise rows are let through until as many as the number are. */
  method LimitLoop(rows: seq<Row>, count: Number) returns (out: seq<Row>)
    ensures out == Taken(rows, LimitCount(count))
  {
    hide LimitCount;
    out := [];
    if LimitCount(count) == 0 {
      return;
    }
    for i := 0 to |rows|
      invariant out == rows[..i] && i < LimitCount(count)
    {
      out := out + [rows[i]];
      if |out| >= LimitCount(count) {
        break;
      }
    }
  }

  // ---- aggregation --------------------------------------------------------------------------------------------

  /** Groups the rows by the keys of their grouping values, and yields a row for each group. */
  method AggregateLoop(rows: seq<Row>, grouping: seq<ReturnItem>, aggregates: seq<AggregateItem>, env: Env) returns (out: seq<Row>)
    ensures out == AggregateRows(rows, grouping, aggregates, env)
  {
    hide FlatMap, EmitGroup, AddToGroups, ItemValues, ValueKeys;
    var groups: seq<Group> := [];
    for i := 0 to |rows|
      invariant groups == GroupRows(rows[..i], grouping, env)
    {
      assert rows[..i + 1][..i] == rows[..i];
      groups := AddRow(groups, ItemValues(rows[i], grouping, env), rows[i]);
    }
    assert rows[..|rows|] == rows;
    if groups == [] && grouping == [] {
      groups := [Group([], [])];
    }
    out := [];
    FlatMapNone(EmitEach(grouping, aggregates, env));
    for i := 0 to |groups|
      invariant out == FlatMap(groups[..i], EmitEach(grouping, aggregates, env))
    {
      OneMore(groups, i, EmitEach(grouping, aggregates, env));
      var row := EmitLoop(groups[i], grouping, aggregates, env);
      out := out + [row];
    }
    assert groups[..|groups|] == groups;
  }

  /** Adds a row to the first group with its key, or opens a group for it. */
  method AddRow(groups: seq<Group>, values: seq<Value>, row: Row) returns (more: seq<Group>)
    ensures more == AddToGroups(groups, values, row)
  {
    hide ValueKeys, AddToGroups;
    for i := 0 to |groups|
      invariant forall j :: 0 <= j < i ==> ValueKeys(groups[j].values) != ValueKeys(values)
    {
      if ValueKeys(groups[i].values) == ValueKeys(values) {
        AddedAt(groups, values, row, i);
        return groups[i := Group(groups[i].values, groups[i].rows + [row])];
      }
    }
    AddedAt(groups, values, row, |groups|);
    more := groups + [Group(values, [row])];
  }

  lemma {:induction false} AddedAt(groups: seq<Group>, values: seq<Value>, row: Row, k: nat)
    requires k <= |groups| && forall j :: 0 <= j < k ==> ValueKeys(groups[j].values) != ValueKeys(values)
    requires k < |groups| ==> ValueKeys(groups[k].values) == ValueKeys(values)
    ensures AddToGroups(groups, values, row)
         == if k < |groups| then groups[k := Group(groups[k].values, groups[k].rows + [row])] else groups + [Group(values, [row])]
  {
    hide ValueKeys;
    if k > 0 {
      AddedAt(groups[1..], values, row, k - 1);
      assert groups == [groups[0]] + groups[1..];
    }
  }

  method EmitLoop(group: Group, grouping: seq<ReturnItem>, aggregates: seq<AggregateItem>, env: Env) returns (row: Row)
    ensures row == EmitGroup(group, grouping, aggregates, env)
  {
    hide AggregateValue, Accepted;
    row := map[];
    if |group.values| == |grouping| {
      for i := 0 to |grouping|
        invariant row == GroupingCells(group.values[..i], grouping[..i])
      {
        assert grouping[..i + 1][..i] == grouping[..i] && group.values[..i + 1][..i] == group.values[..i];
        row := row[grouping[i].ColumnName() := group.values[i]];
      }
      assert grouping[..|grouping|] == grouping && group.values[..|grouping|] == group.values;
    }
    ghost var cells := row;
    for i := 0 to |aggregates|
      invariant row == AggregateCells(cells, group, aggregates[..i], env)
    {
      assert aggregates[..i + 1][..i] == aggregates[..i];
      var vs := AcceptLoop(group.rows, aggregates[i], env);
      row := row[aggregates[i].column := AggregateValue(aggregates[i], vs, env)];
    }
    assert aggregates[..|aggregates|] == aggregates;
  }

  /** The values an aggregate accepts: under DISTINCT none whose key it has seen. */
  method AcceptLoop(rows: seq<Row>, item: AggregateItem, env: Env) returns (vs: seq<Value>)
    ensures vs == Accepted(rows, item, {}, env)
  {
    hide Evaluate, GroupKey, Accepted;
    vs := [];
    var seen: set<string> := {};
    for i := 0 to |rows|
      invariant vs + Accepted(rows[i..], item, seen, env) == Accepted(rows, item, {}, env)
    {
      AcceptedNext(vs, rows, i, item, seen, env);
      var v := if item.star || item.args == [] then NullV else Evaluate(item.args[0], rows[i], env);
      if !(item.distinct && !item.star && GroupKey(v) in seen) {
        vs := vs + [v];
      }
      seen := seen + {GroupKey(v)};
    }
    NoneAccepted(item, seen, env);
    assert rows[|rows|..] == [] && vs + [] == vs;
  }

  lemma AcceptedNext(vs: seq<Value>, rows: seq<Row>, i: nat, item: AggregateItem, seen: set<string>, env: Env)
    requires i < |rows|
    ensures var v := if item.star || item.args == [] then NullV else Evaluate(item.args[0], rows[i], env);
            var taken := if item.distinct && !item.star && GroupKey(v) in seen then vs else vs + [v];
            vs + Accepted(rows[i..], item, seen, env) == taken + Accepted(rows[i + 1..], item, seen + {GroupKey(v)}, env)
  {
    hide Evaluate, GroupKey;
    assert rows[i..][0] == rows[i] && rows[i..][1..] == rows[i + 1..];
  }

  lemma NoneAccepted(item: AggregateItem, seen: set<string>, env: Env)
    ensures Accepted([], item, seen, env) == []
  {
  }

  // ---- whole plans --------------------------------------------------------------------------------------------

  /** The rows of a plan, operator by operator. */
  method Run(op: Op, cx: Context, g: Graph, arg: Row) returns (out: seq<Row>)
    ensures out == Rows(op, cx, g, arg)
    decreases op, 1
  {
    hide FlatMap, Filter, ExpandRow, ExpandIntoRow, VarLengthRow, ProjectRow, DistinctRows, AggregateRows, SortRows, UnwindRow,
      LabelTest, ConditionTest, SkipCount, LimitCount, InstanceTest;
    match op {
      case SingleRow =>
        out := [map[]];
      case Argument =>
        out := [arg];
      case BindingRow(row) =>
        out := [row];
      case AllNodesScan(v) =>
        out := Scan(v, g.nodes);
      case LabelScan(v, labelName) =>
        out := Scan(v, Filter(g.nodes, InstanceTest(cx.schema, labelName)));
      case LabelFilter(child, v, labelName) =>
        var rows := Run(child, cx, g, arg);
        out := LabelFilterLoop(cx, g, rows, v, labelName);
      case FilterOp(child, condition) =>
        var rows := Run(child, cx, g, arg);
        out := FilterLoop(cx, rows, condition);
      case AggregateOp(child, grouping, aggregates) =>
        var rows := Run(child, cx, g, arg);
        out := AggregateLoop(rows, grouping, aggregates, cx.env);
      case DistinctOp(child, columns) =>
        var rows := Run(child, cx, g, arg);
        out := DistinctLoop(rows, columns);
      case SortOp(child, keys) =>
        var rows := Run(child, cx, g, arg);
        out := SortRows(rows, keys, cx.env);
      case SkipOp(child, count) =>
        var rows := Run(child, cx, g, arg);
        out := SkipLoop(rows, count);
      case LimitOp(child, count) =>
        var rows := Run(child, cx, g, arg);
        out := LimitLoop(rows, count);
      case CartesianProduct(left, right) =>
        out := ProductLoop(left, right, cx, g, arg);
      case OptionalApply(child, inner, vars) =>
        out := OptionalLoop(child, inner, vars, cx, g, arg);
      case _ =>
        out := EachLoop(op, cx, g, arg);
    }
  }

  /** An operator that yields the rows of every row of its child on their own. */
  predicate RowByRow(op: Op) {
    op.ExpandOp? || op.ExpandInto? || op.VarLengthExpand? || op.UnwindOp? || op.ProjectOp?
  }

  function Yields(op: Op, cx: Context, g: Graph): Row -> seq<Row>
    requires RowByRow(op)
  {
    match op
    case ExpandOp(_, from, to, rel, toLabel) => ExpandEach(cx.schema, g, from, to, rel, toLabel)
    case ExpandInto(_, from, to, rel) => ExpandIntoEach(cx.schema, g, from, to, rel)
    case VarLengthExpand(_, from, to, rel, hop, pathVar) => VarLengthEach(cx.schema, g, from, to, rel, hop, pathVar)
    case UnwindOp(_, expr, v) => UnwindEach(expr, v, cx.env)
    case ProjectOp(_, items) => ProjectEach(items, cx.env)
  }

  lemma RowByRowRows(op: Op, cx: Context, g: Graph, arg: Row)
    requires RowByRow(op)
    ensures Rows(op, cx, g, arg) == FlatMap(Rows(op.child, cx, g, arg), Yields(op, cx, g))
  {
    hide FlatMap, ExpandEach, ExpandIntoEach, VarLengthEach, UnwindEach, ProjectEach;
  }

  method OneRow(op: Op, cx: Context, g: Graph, row: Row) returns (out: seq<Row>)
    requires RowByRow(op)
    ensures out == Yields(op, cx, g)(row)
  {
    hide FlatMap, ExpandRow, ExpandIntoRow, VarLengthRow, ProjectRow, UnwindRow;
    match op {
      case ExpandOp(_, from, to, rel, toLabel) =>
        out := ExpandLoop(cx, g, row, from, to, rel, toLabel);
      case ExpandInto(_, from, to, rel) =>
        out := ExpandIntoLoop(cx, g, row, from, to, rel);
      case VarLengthExpand(_, from, to, rel, hop, pathVar) =>
        out := VarLengthLoop(cx, g, row, from, to, rel, hop, pathVar);
      case UnwindOp(_, expr, v) =>
        out := UnwindLoop(cx, row, expr, v);
      case ProjectOp(_, items) =>
        var projected := ProjectRowLoop(row, items, cx.env);
        out := [projected];
    }
  }

  method EachLoop(op: Op, cx: Context, g: Graph, arg: Row) returns (out: seq<Row>)
    requires RowByRow(op)
    ensures out == Rows(op, cx, g, arg)
    decreases op, 0
  {
    hide FlatMap, Yields, Rows;
    var rows := Run(op.child, cx, g, arg);
    ghost var gives := Yields(op, cx, g);
    out := [];
    FlatMapNone(gives);
    for i := 0 to |rows|
      invariant out == FlatMap(rows[..i], gives)
    {
      OneMore(rows, i, gives);
      var more := OneRow(op, cx, g, rows[i]);
      out := out + more;
    }
    assert rows[..|rows|] == rows;
    RowByRowRows(op, cx, g, arg);
  }

  /** The right side is run and buffered at the first left row, and never when there is none. */
  method ProductLoop(left: Op, right: Op, cx: Context, g: Graph, arg: Row) returns (out: seq<Row>)
    ensures out == Rows(CartesianProduct(left, right), cx, g, arg)
    decreases CartesianProduct(left, right), 0
  {
    hide FlatMap, Rows, MergeRows;
    var lefts := Run(left, cx, g, arg);
    ghost var joins := MergeEach(Rows(right, cx, g, arg));
    var rights: Option<seq<Row>> := None;
    out := [];
    FlatMapNone(joins);
    for i := 0 to |lefts|
      invariant out == FlatMap(lefts[..i], joins)
      invariant rights.Some? <==> i > 0
      invariant rights.Some? ==> rights.value == Rows(right, cx, g, arg)
    {
      if rights.None? {
        var buffered := Run(right, cx, g, arg);
        rights := Some(buffered);
      }
      OneMore(lefts, i, joins);
      var merged := MergeLoop(lefts[i], rights.value);
      out := out + merged;
    }
    assert lefts[..|lefts|] == lefts;
    RowsOfProduct(left, right, cx, g, arg);
  }

  function Applies(inner: Op, vars: seq<string>, cx: Context, g: Graph): Row -> seq<Row> {
    row => OrPadded(Rows(inner, cx, g, row), row, vars)
  }

  lemma RowsOfOptional(child: Op, inner: Op, vars: seq<string>, cx: Context, g: Graph, arg: Row)
    ensures Rows(OptionalApply(child, inner, vars), cx, g, arg) == FlatMap(Rows(child, cx, g, arg), Applies(inner, vars, cx, g))
  {
    FlatMapEqual(Rows(child, cx, g, arg), row => OrPadded(Rows(inner, cx, g, row), row, vars), Applies(inner, vars, cx, g));
  }

  /** A row yields its matches or, the flag still unset, itself padded with nulls. */
  method MatchesOrPadded(inner: Op, vars: seq<string>, cx: Context, g: Graph, row: Row) returns (out: seq<Row>)
    ensures out == OrPadded(Rows(inner, cx, g, row), row, vars)
    decreases inner, 2
  {
    hide Rows, Padded;
    var matches := Run(inner, cx, g, row);
    var matched := false;
    out := [];
    for j := 0 to |matches|
      invariant (matched <==> j > 0) && out == matches[..j]
    {
      matched := true;
      out := out + [matches[j]];
    }
    if !matched {
      var padded := PadLoop(row, vars);
      out := [padded];
    }
  }

  method OptionalLoop(child: Op, inner: Op, vars: seq<string>, cx: Context, g: Graph, arg: Row) returns (out: seq<Row>)
    ensures out == Rows(OptionalApply(child, inner, vars), cx, g, arg)
    decreases OptionalApply(child, inner, vars), 0
  {
    hide FlatMap, Rows, Padded;
    var rows := Run(child, cx, g, arg);
    ghost var applies := Applies(inner, vars, cx, g);
    out := [];
    FlatMapNone(applies);
    for i := 0 to |rows|
      invariant out == FlatMap(rows[..i], applies)
    {
      OneMore(rows, i, applies);
      var more := MatchesOrPadded(inner, vars, cx, g, rows[i]);
      out := out + more;
    }
    assert rows[..|rows|] == rows;
    RowsOfOptional(child, inner, vars, cx, g, arg);
  }
}
