/**
 Rows that mention none of some nodes. The operators that do not read the graph invent no nodes: what they make of clean
 rows is clean.
 */
module CleanRows {
  import opened Wrappers
  import opened Values
  import opened Query
  import opened Evaluation
  import opened Seqs
  import opened Ordering
  import opened Operators

  /** No node with an id in `gone` occurs in the value, however deep. */
  predicate CleanValue(v: Value, gone: set<string>)
    decreases v, 0
  {
    match v
    case NodeV(n) => n.id !in gone
    case ListV(items) => CleanValues(items, gone)
    case MapV(entries) => CleanEntries(entries, gone)
    case PathV(nodes, _) => forall i :: 0 <= i < |nodes| ==> nodes[i].id !in gone
    case _ => true
  }

  predicate CleanValues(vs: seq<Value>, gone: set<string>)
    decreases vs, 1
  {
    forall i :: 0 <= i < |vs| ==> CleanValue(vs[i], gone)
  }

  predicate CleanEntries(es: seq<Entry>, gone: set<string>)
    decreases es, 1
  {
    forall i :: 0 <= i < |es| ==> CleanValue(es[i].value, gone)
  }

  predicate Clean(row: Row, gone: set<string>) {
    forall v :: v in row ==> CleanValue(row[v], gone)
  }

  function IsClean(gone: set<string>): Row -> bool {
    (row: Row) => Clean(row, gone)
  }

  ghost predicate AllClean(rows: seq<Row>, gone: set<string>) {
    forall row :: row in rows ==> Clean(row, gone)
  }

  /** Parameters hold no nodes and functions return no nodes but those of their arguments. */
  ghost predicate InventsNoNodes(env: Env) {
    && (forall name, gone :: name in env.parameters ==> CleanValue(env.parameters[name], gone))
    && (forall name, args, gone :: CleanValues(args, gone) ==> CleanValue(env.functions(name, args), gone))
  }

  lemma {:induction false} EvaluateIsClean(e: Expr, row: Row, env: Env, gone: set<string>)
    requires Clean(row, gone) && InventsNoNodes(env)
    ensures CleanValue(Evaluate(e, row, env), gone)
    decreases e, 0
  {
    hide InventsNoNodes;
    match e {
      case Parameter(name) => ParametersAreClean(env, gone);
      case ListLiteral(items) => EvaluateAllIsClean(items, row, env, gone);
      case MapLiteral(fields) => EvaluateFieldsIsClean(fields, row, env, gone);
      case Index(target, index) =>
        EvaluateIsClean(target, row, env, gone);
        hide Evaluate;
        IndexIsClean(Evaluate(target, row, env), Evaluate(index, row, env), gone);
      case Call(fname, args, _, _) =>
        EvaluateAllIsClean(args, row, env, gone);
        FunctionsAreClean(env, fname, EvaluateAll(args, row, env), gone);
      case PropertyAccess(variable, property) =>
        if variable in row && row[variable].MapV? {
          EntryIsClean(row[variable].entries, property, gone);
        }
      case _ =>
    }
  }

  lemma ParametersAreClean(env: Env, gone: set<string>)
    requires InventsNoNodes(env)
    ensures forall name :: name in env.parameters ==> CleanValue(env.parameters[name], gone)
  {
  }

  lemma FunctionsAreClean(env: Env, fname: string, args: seq<Value>, gone: set<string>)
    requires InventsNoNodes(env) && CleanValues(args, gone)
    ensures CleanValue(env.functions(fname, args), gone)
  {
  }

  lemma EntryIsClean(entries: seq<Entry>, key: string, gone: set<string>)
    requires CleanEntries(entries, gone)
    ensures CleanValue(EntryNamed(entries, key), gone)
  {
  }

  lemma IndexIsClean(target: Value, index: Value, gone: set<string>)
    requires CleanValue(target, gone)
    ensures CleanValue(EvaluateIndex(target, index), gone)
  {
    if target.MapV? && index.ScalarV? && index.scalar.Str? {
      EntryIsClean(target.entries, index.scalar.s, gone);
    }
  }

  lemma {:induction false} EvaluateAllIsClean(es: seq<Expr>, row: Row, env: Env, gone: set<string>)
    requires Clean(row, gone) && InventsNoNodes(env)
    ensures CleanValues(EvaluateAll(es, row, env), gone)
    decreases es, 1
  {
    hide InventsNoNodes, Evaluate, EvaluateAll;
    forall i | 0 <= i < |es| ensures CleanValue(EvaluateAll(es, row, env)[i], gone) {
      EvaluateIsClean(es[i], row, env, gone);
    }
  }

  lemma {:induction false} EvaluateFieldsIsClean(fields: seq<Field>, row: Row, env: Env, gone: set<string>)
    requires Clean(row, gone) && InventsNoNodes(env)
    ensures CleanEntries(EvaluateFields(fields, row, env), gone)
    decreases fields, 1
  {
    hide InventsNoNodes, Evaluate;
    if fields != [] {
      EvaluateIsClean(fields[0].expr, row, env, gone);
      EvaluateFieldsIsClean(fields[1..], row, env, gone);
    }
  }

  // ---- operators that do not read the graph -------------------------------------------------------------------

  lemma BindIsClean(row: Row, v: string, value: Value, gone: set<string>)
    requires Clean(row, gone) && CleanValue(value, gone)
    ensures Clean(row[v := value], gone)
  {
  }

  lemma UnwindIsClean(row: Row, expr: Expr, v: string, env: Env, gone: set<string>)
    requires Clean(row, gone) && InventsNoNodes(env)
    ensures AllClean(UnwindRow(row, expr, v, env), gone)
  {
    hide Evaluate, InventsNoNodes;
    EvaluateIsClean(expr, row, env, gone);
    var value := Evaluate(expr, row, env);
    forall r | r in UnwindRow(row, expr, v, env) ensures Clean(r, gone) {
      if value.ListV? {
        FlatMapMember(value.items, (item: Value) => [row[v := item]], r);
        var item :| item in value.items && r == row[v := item];
        BindIsClean(row, v, item, gone);
      } else {
        BindIsClean(row, v, value, gone);
      }
    }
  }

  lemma {:induction false} PaddedIsClean(row: Row, vars: seq<string>, gone: set<string>)
    requires Clean(row, gone)
    ensures Clean(Padded(row, vars), gone)
    decreases |vars|
  {
    if vars != [] {
      PaddedIsClean(row[vars[0] := NullV], vars[1..], gone);
    }
  }

  lemma {:induction false} ProjectIsClean(row: Row, items: seq<ReturnItem>, env: Env, gone: set<string>)
    requires Clean(row, gone) && InventsNoNodes(env)
    ensures Clean(ProjectRow(row, items, env), gone)
    decreases |items|
  {
    hide Evaluate, InventsNoNodes;
    if items != [] {
      var n := |items| - 1;
      ProjectIsClean(row, items[..n], env, gone);
      EvaluateIsClean(items[n].expr, row, env, gone);
    }
  }

  ghost predicate CleanGroup(group: Group, gone: set<string>) {
    CleanValues(group.values, gone) && AllClean(group.rows, gone)
  }

  ghost predicate CleanGroups(groups: seq<Group>, gone: set<string>) {
    forall i :: 0 <= i < |groups| ==> CleanGroup(groups[i], gone)
  }

  lemma {:induction false} AddToGroupsIsClean(groups: seq<Group>, values: seq<Value>, row: Row, gone: set<string>)
    requires CleanGroups(groups, gone) && CleanValues(values, gone) && Clean(row, gone)
    ensures CleanGroups(AddToGroups(groups, values, row), gone)
  {
    hide CleanValues, Clean, ValueKeys;
    if groups == [] {
      assert CleanGroup(Group(values, [row]), gone);
    } else {
      assert CleanGroup(groups[0], gone);
      assert CleanGroup(Group(groups[0].values, groups[0].rows + [row]), gone);
      AddToGroupsIsClean(groups[1..], values, row, gone);
    }
  }

  lemma {:induction false} GroupRowsIsClean(rows: seq<Row>, grouping: seq<ReturnItem>, env: Env, gone: set<string>)
    requires AllClean(rows, gone) && InventsNoNodes(env)
    ensures CleanGroups(GroupRows(rows, grouping, env), gone)
    decreases |rows|
  {
    hide Evaluate, InventsNoNodes, Clean, AddToGroups, CleanGroups;
    if rows == [] {
      NoGroupsAreClean(gone);
    } else {
      var n := |rows| - 1;
      assert rows[n] in rows;
      GroupRowsIsClean(rows[..n], grouping, env, gone);
      forall i | 0 <= i < |grouping| ensures CleanValue(ItemValues(rows[n], grouping, env)[i], gone) {
        EvaluateIsClean(grouping[i].expr, rows[n], env, gone);
      }
      AddToGroupsIsClean(GroupRows(rows[..n], grouping, env), ItemValues(rows[n], grouping, env), rows[n], gone);
    }
  }

  lemma NoGroupsAreClean(gone: set<string>)
    ensures CleanGroups([], gone)
  {
  }

  lemma {:induction false} AcceptedIsClean(rows: seq<Row>, item: AggregateItem, seen: set<string>, env: Env, gone: set<string>)
    requires AllClean(rows, gone) && InventsNoNodes(env)
    ensures CleanValues(Accepted(rows, item, seen, env), gone)
    decreases |rows|
  {
    hide Evaluate, InventsNoNodes, GroupKey, Clean;
    if rows != [] {
      var v := if item.star || item.args == [] then NullV else Evaluate(item.args[0], rows[0], env);
      if !(item.star || item.args == []) {
        EvaluateIsClean(item.args[0], rows[0], env, gone);
      }
      AcceptedIsClean(rows[1..], item, seen + {GroupKey(v)}, env, gone);
    }
  }

  lemma {:induction false} ExtremeIsClean(vs: seq<Value>, best: Value, largest: bool, gone: set<string>)
    requires CleanValues(vs, gone) && CleanValue(best, gone)
    ensures CleanValue(Extreme(vs, best, largest), gone)
    decreases |vs|
  {
    hide Compare, CleanValue;
    if vs != [] {
      var c := Compare(vs[0], best);
      ExtremeIsClean(vs[1..], if (if largest then c > 0 else c < 0) then vs[0] else best, largest, gone);
    }
  }

  lemma AggregateIsClean(item: AggregateItem, vs: seq<Value>, env: Env, gone: set<string>)
    requires CleanValues(vs, gone)
    ensures CleanValue(AggregateValue(item, vs, env), gone)
  {
    hide Compare, Extreme, LowerAll, Total, NumbersOf, IntNumber;
    var present := NonNulls(vs);
    forall i | 0 <= i < |present| ensures CleanValue(present[i], gone) {
      FilterMember(vs, v => v != NullV, present[i]);
    }
    if present != [] {
      ExtremeIsClean(present[1..], present[0], LowerAll(item.fname) == "max", gone);
    }
  }

  lemma {:induction false} GroupingCellsAreClean(values: seq<Value>, grouping: seq<ReturnItem>, gone: set<string>)
    requires |values| == |grouping| && CleanValues(values, gone)
    ensures Clean(GroupingCells(values, grouping), gone)
    decreases |values|
  {
    hide CleanValue;
    if grouping != [] {
      var n := |grouping| - 1;
      GroupingCellsAreClean(values[..n], grouping[..n], gone);
    }
  }

  lemma {:induction false} AggregateCellsAreClean(row: Row, group: Group, aggregates: seq<AggregateItem>, env: Env, gone: set<string>)
    requires Clean(row, gone) && AllClean(group.rows, gone) && InventsNoNodes(env)
    ensures Clean(AggregateCells(row, group, aggregates, env), gone)
    decreases |aggregates|
  {
    hide InventsNoNodes, AggregateValue, Accepted, CleanValue, AllClean;
    if aggregates != [] {
      var n := |aggregates| - 1;
      AggregateCellsAreClean(row, group, aggregates[..n], env, gone);
      AcceptedIsClean(group.rows, aggregates[n], {}, env, gone);
      AggregateIsClean(aggregates[n], Accepted(group.rows, aggregates[n], {}, env), env, gone);
    }
  }

  lemma EmitIsClean(group: Group, grouping: seq<ReturnItem>, aggregates: seq<AggregateItem>, env: Env, gone: set<string>)
    requires CleanGroup(group, gone) && InventsNoNodes(env)
    ensures Clean(EmitGroup(group, grouping, aggregates, env), gone)
  {
    hide InventsNoNodes, AggregateCells, GroupingCells;
    if |group.values| == |grouping| {
      GroupingCellsAreClean(group.values, grouping, gone);
    }
    var cells := if |group.values| == |grouping| then GroupingCells(group.values, grouping) else map[];
    AggregateCellsAreClean(cells, group, aggregates, env, gone);
  }

  lemma AggregateRowsAreClean(rows: seq<Row>, grouping: seq<ReturnItem>, aggregates: seq<AggregateItem>, env: Env, gone: set<string>)
    requires AllClean(rows, gone) && InventsNoNodes(env)
    ensures AllClean(AggregateRows(rows, grouping, aggregates, env), gone)
  {
    hide InventsNoNodes, GroupRows, EmitGroup, Clean;
    GroupRowsIsClean(rows, grouping, env, gone);
    var groups := GroupRows(rows, grouping, env);
    var all := if groups == [] && grouping == [] then [Group([], [])] else groups;
    forall r | r in AggregateRows(rows, grouping, aggregates, env) ensures Clean(r, gone) {
      FlatMapMember(all, EmitEach(grouping, aggregates, env), r);
      var group :| group in all && r == EmitGroup(group, grouping, aggregates, env);
      EmitIsClean(group, grouping, aggregates, env, gone);
    }
  }

  lemma {:induction false} DistinctRowsAreInput(rows: seq<Row>, columns: seq<string>, seen: set<seq<string>>, r: Row)
    requires r in DistinctRows(rows, columns, seen)
    ensures r in rows
    decreases |rows|
  {
    hide DistinctKey;
    var key := DistinctKey(rows[0], columns);
    if key in seen {
      DistinctRowsAreInput(rows[1..], columns, seen, r);
    } else if r != rows[0] {
      DistinctRowsAreInput(rows[1..], columns, seen + {key}, r);
    }
  }

  lemma SortedRowsAreInput(rows: seq<Row>, keys: seq<SortItem>, env: Env, r: Row)
    requires r in SortRows(rows, keys, env)
    ensures r in rows
  {
    SortRowsMultiset(rows, keys, env);
    assert r in multiset(SortRows(rows, keys, env));
  }
}
