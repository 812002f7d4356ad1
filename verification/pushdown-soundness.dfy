/**
 Push-down changes no answer.

 Between the graph the source would send after filtering and the full graph, every graph gives a read query exactly the
 same rows in the same order (`PushDownPreservesAnswers`). The argument follows the pipeline: inside a clause the rows
 over the smaller graph are the rows over the full one minus those that mention a missing node; a missing node can only be
 bound by the one pattern that scans its concept; and by the end of that pattern's clause its filters have removed it.
 */
module PushDownSoundness {
  import opened Wrappers
  import opened NumberText
  import Numbers
  import opened Values
  import opened Query
  import opened Evaluation
  import opened Graphs
  import opened Seqs
  import opened Operators
  import opened CleanRows
  import opened Planner
  import opened PushDown
  import Ordering
  import VarLength

  // ---- the setting --------------------------------------------------------------------------------------------

  /** The query's options and occurrences, the full graph, the ids that are missing and the query's node variables. */
  datatype Setting = Setting(options: Options, all: seq<Occurrence>, g: Graph, gone: set<string>, nodeVars: set<string>) {

    function Cx(): Context {
      Context(options.schema, options.env)
    }

    function Small(): Graph {
      Without(g, gone)
    }

    function Full(op: Op, arg: Row): seq<Row> {
      Rows(op, Cx(), g, arg)
    }

    function Reduced(op: Op, arg: Row): seq<Row> {
      Rows(op, Cx(), Small(), arg)
    }
  }

  ghost predicate Fails(n: Node, terms: seq<Term>) {
    exists t :: t in terms && !(t.field in n.attrs && n.attrs[t.field] == t.value)
  }

  ghost predicate NoAnonymous(nodeVars: set<string>) {
    forall i: nat :: ANON_PREFIX + Digits(i) !in nodeVars
  }

  ghost predicate Proper(s: Setting) {
    && s.options.schema.Valid()
    && s.g.Valid()
    && InventsNoNodes(s.options.env)
    && NoAnonymous(s.nodeVars)
    && (forall o :: o in s.all ==> o.clause.Match? && o.concept in s.options.schema.supertypes)
    && (forall n :: n in s.g.nodes && n.id in s.gone
          ==> !Survives(FiltersOf(s.options.schema, s.all, s.all, s.options.env.parameters), n))
  }

  // ---- the only scanner ---------------------------------------------------------------------------------------

  lemma {:induction false} FilterComesFrom(schema: Schema, all: seq<Occurrence>, rest: seq<Occurrence>,
                                           parameters: map<string, Value>, concept: string) returns (o: Occurrence)
    requires concept in FiltersOf(schema, all, rest, parameters)
    ensures o in rest && o.concept == concept && Pushes(schema, all, o, parameters)
    ensures FiltersOf(schema, all, rest, parameters)[concept] == TermsOf(o, parameters)
    decreases |rest|
  {
    hide Pushes, TermsOf;
    var n := |rest| - 1;
    if Pushes(schema, all, rest[n], parameters) && rest[n].concept == concept {
      o := rest[n];
      assert o.clause.Match? by { PushesMatch(schema, all, o, parameters); }
    } else {
      o := FilterComesFrom(schema, all, rest[..n], parameters, concept);
    }
  }

  lemma PushesMatch(schema: Schema, all: seq<Occurrence>, o: Occurrence, parameters: map<string, Value>)
    requires Pushes(schema, all, o, parameters)
    ensures o.clause.Match?
  {
  }

  lemma {:induction false} ScannersCount(schema: Schema, os: seq<Occurrence>, concept: string, a: Occurrence)
    requires a in os && schema.Matches(a.concept, concept)
    ensures Scanners(schema, os, concept) >= 1
  {
    if os[0] != a {
      ScannersCount(schema, os[1..], concept, a);
    }
  }

  lemma {:induction false} OnlyScanner(schema: Schema, os: seq<Occurrence>, concept: string, a: Occurrence, b: Occurrence)
    requires a in os && b in os && schema.Matches(a.concept, concept) && schema.Matches(b.concept, concept)
    requires Scanners(schema, os, concept) == 1
    ensures a == b
  {
    if a != b {
      if os[0] == a {
        ScannersCount(schema, os[1..], concept, b);
      } else if os[0] == b {
        ScannersCount(schema, os[1..], concept, a);
      } else {
        ScannersCount(schema, os[1..], concept, a);
        OnlyScanner(schema, os[1..], concept, a, b);
      }
    }
  }

  /** The pattern is among the query's occurrences, as the occurrence of the concept its label names. */
  ghost predicate Listed(s: Setting, clause: Clause, p: NodePattern) {
    && p.labelName.Some?
    && p.labelName.value in s.options.schema.concepts
    && Occurrence(s.options.schema.concepts[p.labelName.value], p, clause) in s.all
  }

  /** A missing node can only be scanned by the pattern whose terms it fails. */
  lemma MissingNodeFails(s: Setting, clause: Clause, p: NodePattern, n: Node)
    requires Proper(s) && Listed(s, clause, p)
    requires n in s.g.nodes && n.id in s.gone && s.options.schema.HasLabel(n, p.labelName)
    ensures clause.Match? && !clause.optional
    ensures Fails(n, PropertyTerms(p.properties) + WhereTerms(Occurrence(n.concept, p, clause), s.options.env.parameters))
  {
    hide FiltersOf, InventsNoNodes, NoAnonymous;
    var schema, parameters := s.options.schema, s.options.env.parameters;
    var filters := FiltersOf(schema, s.all, s.all, parameters);
    assert !Survives(filters, n);
    var o := FilterComesFrom(schema, s.all, s.all, parameters, n.concept);
    var q := Occurrence(schema.concepts[p.labelName.value], p, clause);
    assert schema.Matches(n.concept, n.concept);
    OnlyScanner(schema, s.all, n.concept, o, q);
    var t: Term :| t in filters[n.concept] && !(t.field in n.attrs && n.attrs[t.field] == t.value);
    assert t in TermsOf(q, parameters);
  }

  // ---- rows inside a clause -----------------------------------------------------------------------------------

  /** A missing node at v that the clause's condition will reject. */
  ghost predicate Doomed(s: Setting, clause: Clause, v: string, n: Node) {
    && clause.Match? && !clause.optional && clause.where.Some?
    && Fails(n, TermsOfAll(Conjuncts(clause.where.value), v, s.options.env.parameters))
  }

  ghost predicate CellOk(s: Setting, clause: Clause, v: string, value: Value, bound: set<string>) {
    CleanValue(value, s.gone) || (v in bound && v in s.nodeVars && value.NodeV? && Doomed(s, clause, v, value.node))
  }

  ghost predicate RowOk(s: Setting, clause: Clause, row: Row, bound: set<string>) {
    forall v :: v in row ==> CellOk(s, clause, v, row[v], bound)
  }

  /** As RowOk, but `name` holds a node the pattern p has just been matched to, its properties not yet tested. */
  ghost predicate RowFresh(s: Setting, clause: Clause, row: Row, bound: set<string>, name: string, p: NodePattern) {
    && name in row && row[name].NodeV? && row[name].node in s.g.nodes
    && s.options.schema.HasLabel(row[name].node, p.labelName)
    && forall v :: v in row && v != name ==> CellOk(s, clause, v, row[v], bound)
  }

  /** Over the smaller graph the operator yields its full rows minus those that mention a missing node. */
  ghost predicate Kept(s: Setting, op: Op, arg: Row) {
    s.Reduced(op, arg) == Filter(s.Full(op, arg), IsClean(s.gone))
  }

  ghost predicate RowsOk(s: Setting, clause: Clause, op: Op, arg: Row, bound: set<string>) {
    forall row :: row in s.Full(op, arg) ==> RowOk(s, clause, row, bound)
  }

  ghost predicate RowsFresh(s: Setting, clause: Clause, op: Op, arg: Row, bound: set<string>, name: string, p: NodePattern) {
    forall row :: row in s.Full(op, arg) ==> RowFresh(s, clause, row, bound, name, p)
  }

  // ---- filters ------------------------------------------------------------------------------------------------

  /** A test of the row alone commutes with dropping the unclean rows. */
  lemma FilterKept(s: Setting, child: Op, condition: Expr, arg: Row)
    requires Kept(s, child, arg)
    ensures Kept(s, FilterOp(child, condition), arg)
    ensures forall row :: row in s.Full(FilterOp(child, condition), arg)
              ==> row in s.Full(child, arg) && Passes(condition, row, s.options.env)
  {
    hide Rows, Passes, Clean;
    RowsOfFilter(child, condition, s.Cx(), s.g, arg);
    RowsOfFilter(child, condition, s.Cx(), s.Small(), arg);
    var test := ConditionTest(condition, s.options.env);
    FilterTwice(s.Full(child, arg), IsClean(s.gone), test);
    forall row | row in s.Full(FilterOp(child, condition), arg)
      ensures row in s.Full(child, arg) && Passes(condition, row, s.options.env)
    {
      FilterMember(s.Full(child, arg), test, row);
    }
  }

  lemma {:induction false} FoldPropertiesKept(s: Setting, op: Op, properties: seq<Property>, name: string, arg: Row)
    requires Kept(s, op, arg)
    ensures Kept(s, FoldProperties(op, properties, name), arg)
    ensures forall row :: row in s.Full(FoldProperties(op, properties, name), arg)
              ==> row in s.Full(op, arg) && forall p :: p in properties ==> Passes(PropertyTest(name, p), row, s.options.env)
    decreases |properties|
  {
    hide Rows, Passes, Kept, PropertyTest;
    if properties != [] {
      var test := PropertyTest(name, properties[0]);
      FilterKept(s, op, test, arg);
      FoldPropertiesKept(s, FilterOp(op, test), properties[1..], name, arg);
      forall row | row in s.Full(FoldProperties(op, properties, name), arg)
        ensures row in s.Full(op, arg) && forall p :: p in properties ==> Passes(PropertyTest(name, p), row, s.options.env)
      {
        assert row in s.Full(FilterOp(op, test), arg);
        forall p | p in properties ensures Passes(PropertyTest(name, p), row, s.options.env) {
          assert p == properties[0] || p in properties[1..];
        }
      }
    }
  }

  lemma PropertyTestMeans(name: string, p: Property, row: Row, env: Env)
    requires name in row && row[name].NodeV?
    ensures Passes(PropertyTest(name, p), row, env)
       <==> p.key in row[name].node.attrs && row[name].node.attrs[p.key] == p.value
  {
    var e := PropertyTest(name, p);
    assert Evaluate(e.left, row, env) == AttributeOf(row[name].node, p.key);
    assert Evaluate(e.right, row, env) == ScalarV(p.value);
    CompareSelf(p.value);
  }

  lemma CompareSelf(x: Scalar)
    ensures CompareScalars(x, Eq, x)
  {
  }

  lemma {:induction false} PropertyTermsAre(properties: seq<Property>, t: Term)
    requires t in PropertyTerms(properties)
    ensures exists p :: p in properties && t == Term(p.key, p.value)
  {
    var first := Term(properties[0].key, properties[0].value);
    if t == first {
      assert properties[0] in properties;
    } else {
      PropertyTermsAre(properties[1..], t);
    }
  }

  /** Once its properties are tested, a missing node is left only where the clause's condition will reject it. */
  lemma FreshSettles(s: Setting, clause: Clause, row: Row, bound: set<string>, name: string, p: NodePattern)
    requires Proper(s) && Listed(s, clause, p)
    requires RowFresh(s, clause, row, bound, name, p)
    requires forall q :: q in p.properties ==> Passes(PropertyTest(name, q), row, s.options.env)
    requires p.variable.Some? ==> p.variable.value == name && name in s.nodeVars
    ensures RowOk(s, clause, row, Bind(bound, p.variable))
  {
    hide Passes, TermsOfAll, Conjuncts, PropertyTest, Proper;
    var n := row[name].node;
    forall v | v in row ensures CellOk(s, clause, v, row[v], Bind(bound, p.variable)) {
      if v != name {
        assert CellOk(s, clause, v, row[v], bound);
      } else if n.id in s.gone {
        MissingNodeFails(s, clause, p, n);
        var where := WhereTerms(Occurrence(n.concept, p, clause), s.options.env.parameters);
        var t :| t in PropertyTerms(p.properties) + where && !(t.field in n.attrs && n.attrs[t.field] == t.value);
        if t in PropertyTerms(p.properties) {
          PropertyTermsAre(p.properties, t);
          var q :| q in p.properties && t == Term(q.key, q.value);
          PropertyTestMeans(name, q, row, s.options.env);
        }
        assert t in where;
      }
    }
  }

  // ---- scans --------------------------------------------------------------------------------------------------

  lemma ScannedRowKept(name: string, n: Node, gone: set<string>)
    ensures Filter(ScanRow(name)(n), IsClean(gone)) == if Stays(gone)(n) then ScanRow(name)(n) else []
  {
    var r: Row := map[name := NodeV(n)];
    assert name in r && r[name] == NodeV(n);
    assert CleanValue(r[name], gone) <==> n.id !in gone;
    assert Clean(r, gone) <==> n.id !in gone;
    assert [r][1..] == [];
  }

  lemma ScannedRowsFresh(s: Setting, clause: Clause, p: NodePattern, name: string, arg: Row, bound: set<string>)
    ensures RowsFresh(s, clause, Scan(p, name), arg, bound, name, p)
    ensures forall row :: row in s.Full(Scan(p, name), arg) ==> row.Keys == {name}
  {
    hide Rows, CellOk;
    var schema := s.options.schema;
    RowsOfScan(name, p.labelName, s.Cx(), s.g, arg);
    var nodes := if p.labelName.None? then s.g.nodes else Filter(s.g.nodes, InstanceTest(schema, p.labelName.value));
    forall row | row in s.Full(Scan(p, name), arg) ensures row.Keys == {name} && RowFresh(s, clause, row, bound, name, p) {
      FlatMapMember(nodes, ScanRow(name), row);
      var n :| n in nodes && row in ScanRow(name)(n);
      if p.labelName.Some? {
        FilterMember(s.g.nodes, InstanceTest(schema, p.labelName.value), n);
      }
    }
  }

  lemma ScanKept(s: Setting, clause: Clause, p: NodePattern, name: string, arg: Row, bound: set<string>)
    ensures Kept(s, Scan(p, name), arg)
    ensures RowsFresh(s, clause, Scan(p, name), arg, bound, name, p)
    ensures forall row :: row in s.Full(Scan(p, name), arg) ==> row.Keys == {name}
  {
    hide Rows, CellOk, RowsFresh, Clean;
    ScannedRowsFresh(s, clause, p, name, arg, bound);
    var schema := s.options.schema;
    RowsOfScan(name, p.labelName, s.Cx(), s.g, arg);
    RowsOfScan(name, p.labelName, s.Cx(), s.Small(), arg);
    var nodes := if p.labelName.None? then s.g.nodes else Filter(s.g.nodes, InstanceTest(schema, p.labelName.value));
    var kept := Filter(nodes, Stays(s.gone));
    if p.labelName.Some? {
      FilterTwice(s.g.nodes, InstanceTest(schema, p.labelName.value), Stays(s.gone));
    }
    assert s.Reduced(Scan(p, name), arg) == FlatMap(kept, ScanRow(name));
    forall n | n in nodes ensures Filter(ScanRow(name)(n), IsClean(s.gone)) == if Stays(s.gone)(n) then ScanRow(name)(n) else [] {
      ScannedRowKept(name, n, s.gone);
    }
    FilterCommutes(nodes, Stays(s.gone), ScanRow(name), IsClean(s.gone), ScanRow(name));
  }

  // ---- joins and hops -----------------------------------------------------------------------------------------

  lemma FilterOne(r: Row, p: Row -> bool)
    ensures Filter([r], p) == if p(r) then [r] else []
  {
    assert [r][1..] == [];
  }

  /** A row that mentions a missing node still does after a variable outside the clause's patterns is set. */
  lemma StaysUnclean(s: Setting, clause: Clause, row: Row, bound: set<string>, next: Row)
    requires RowOk(s, clause, row, bound) && !Clean(row, s.gone)
    requires forall v :: v in row && v in bound && v in s.nodeVars ==> v in next && next[v] == row[v]
    ensures !Clean(next, s.gone)
  {
    hide CleanValue, Doomed;
    var v :| v in row && !CleanValue(row[v], s.gone);
    assert CellOk(s, clause, v, row[v], bound);
  }

  lemma NothingFrom(rows: seq<Row>, f: Row -> seq<Row>, p: Row -> bool)
    requires forall r :: r in rows ==> Filter(f(r), p) == []
    ensures Filter(FlatMap(rows, f), p) == []
  {
    FilterFlatMap(rows, f, p, (r: Row) => []);
    EmptyMap(rows);
  }

  lemma {:induction false} EmptyMap<T>(rows: seq<T>)
    ensures FlatMap<T, Row>(rows, (r: T) => []) == []
  {
    if rows != [] {
      EmptyMap(rows[1..]);
    }
  }

  lemma MergedRow(s: Setting, clause: Clause, bound: set<string>, name: string, p: NodePattern, l: Row, r: Row)
    requires RowOk(s, clause, l, bound) && !(name in bound && name in s.nodeVars)
    requires r.Keys == {name} && RowFresh(s, clause, r, bound, name, p)
    ensures RowFresh(s, clause, l + r, bound, name, p)
    ensures Clean(l + r, s.gone) <==> Clean(l, s.gone) && Clean(r, s.gone)
  {
    hide CleanValue, Doomed;
    var m := l + r;
    forall v | v in m ensures m[v] == if v == name then r[v] else l[v] {
    }
    forall v | v in m && v != name ensures CellOk(s, clause, v, m[v], bound) {
      assert v in l;
    }
    if !Clean(l, s.gone) {
      StaysUnclean(s, clause, l, bound, m);
    } else if Clean(r, s.gone) {
      forall v | v in m ensures CleanValue(m[v], s.gone) {
        if v == name { assert v in r; } else { assert v in l; }
      }
    } else {
      var v :| v in r && !CleanValue(r[v], s.gone);
      assert v in m && m[v] == r[v];
    }
  }

  lemma MergeRowsKept(s: Setting, clause: Clause, bound: set<string>, name: string, p: NodePattern, l: Row, rights: seq<Row>)
    requires RowOk(s, clause, l, bound) && !(name in bound && name in s.nodeVars)
    requires forall r :: r in rights ==> r.Keys == {name} && RowFresh(s, clause, r, bound, name, p)
    ensures Filter(MergeRows(l, rights), IsClean(s.gone))
         == if Clean(l, s.gone) then MergeRows(l, Filter(rights, IsClean(s.gone))) else []
  {
    hide Clean, RowOk, RowFresh;
    forall r | r in rights
      ensures Filter(MergeWith(l)(r), IsClean(s.gone)) == if Clean(l, s.gone) && Clean(r, s.gone) then MergeWith(l)(r) else []
    {
      MergedRow(s, clause, bound, name, p, l, r);
      FilterOne(l + r, IsClean(s.gone));
    }
    if Clean(l, s.gone) {
      FilterCommutes(rights, IsClean(s.gone), MergeWith(l), IsClean(s.gone), MergeWith(l));
    } else {
      NothingFrom(rights, MergeWith(l), IsClean(s.gone));
    }
  }

  lemma ProductKept(s: Setting, clause: Clause, left: Op, right: Op, arg: Row, bound: set<string>, name: string, p: NodePattern)
    requires Kept(s, left, arg) && RowsOk(s, clause, left, arg, bound)
    requires Kept(s, right, arg) && RowsFresh(s, clause, right, arg, bound, name, p)
    requires forall row :: row in s.Full(right, arg) ==> row.Keys == {name}
    requires !(name in bound && name in s.nodeVars)
    ensures Kept(s, CartesianProduct(left, right), arg)
    ensures RowsFresh(s, clause, CartesianProduct(left, right), arg, bound, name, p)
  {
    hide Rows, Clean, RowOk, RowFresh, MergeRows;
    var rights := s.Full(right, arg);
    RowsOfProduct(left, right, s.Cx(), s.g, arg);
    RowsOfProduct(left, right, s.Cx(), s.Small(), arg);
    forall l | l in s.Full(left, arg)
      ensures Filter(MergeEach(rights)(l), IsClean(s.gone))
           == if Clean(l, s.gone) then MergeEach(Filter(rights, IsClean(s.gone)))(l) else []
    {
      MergeRowsKept(s, clause, bound, name, p, l, rights);
    }
    FilterCommutes(s.Full(left, arg), IsClean(s.gone), MergeEach(rights), IsClean(s.gone),
                   MergeEach(Filter(rights, IsClean(s.gone))));
    forall row | row in s.Full(CartesianProduct(left, right), arg) ensures RowFresh(s, clause, row, bound, name, p) {
      FlatMapMember(s.Full(left, arg), MergeEach(rights), row);
      var l :| l in s.Full(left, arg) && row in MergeEach(rights)(l);
      MergeRowsMember(l, rights, row);
      var r :| r in rights && row == l + r;
      MergedRow(s, clause, bound, name, p, l, r);
    }
  }

  lemma MergeRowsMember(l: Row, rights: seq<Row>, row: Row)
    requires row in MergeRows(l, rights)
    ensures exists r :: r in rights && row == l + r
  {
    FlatMapMember(rights, MergeWith(l), row);
    var r :| r in rights && row in MergeWith(l)(r);
    assert row == l + r;
  }

  /** The names a hop binds are not confused with those of the clause's nodes. */
  ghost predicate RelNamesOk(s: Setting, rel: RelPattern, to: string) {
    rel.variable.Some? ==> rel.variable.value !in s.nodeVars && rel.variable.value != to
  }

  lemma ExpandedRow(s: Setting, clause: Clause, bound: set<string>, row: Row, to: string, rel: RelPattern,
                    p: NodePattern, n: Node, edge: Rel)
    requires RowOk(s, clause, row, bound) && !(to in bound && to in s.nodeVars) && RelNamesOk(s, rel, to)
    requires n in s.g.nodes && s.options.schema.HasLabel(n, p.labelName)
    ensures var next := WithRel(row[to := NodeV(n)], rel.variable, edge);
            RowFresh(s, clause, next, bound, to, p) && (Clean(row, s.gone) ==> (Clean(next, s.gone) <==> n.id !in s.gone))
            && (!Clean(row, s.gone) ==> !Clean(next, s.gone))
  {
    hide Doomed;
    var next := WithRel(row[to := NodeV(n)], rel.variable, edge);
    assert next[to] == NodeV(n);
    forall v | v in next && v != to ensures CellOk(s, clause, v, next[v], bound) {
      if v in row && next[v] == row[v] {
        assert CellOk(s, clause, v, row[v], bound);
      }
    }
    if !Clean(row, s.gone) {
      StaysUnclean(s, clause, row, bound, next);
    } else {
      assert CleanValue(next[to], s.gone) <==> n.id !in s.gone;
      forall v | v in next && v != to ensures CleanValue(next[v], s.gone) {
        if v in row && next[v] == row[v] {
          assert CleanValue(row[v], s.gone);
        }
      }
    }
  }

  lemma ExpandRowKept(s: Setting, clause: Clause, bound: set<string>, row: Row, from: string, to: string, rel: RelPattern, p: NodePattern)
    requires RowOk(s, clause, row, bound) && !(to in bound && to in s.nodeVars) && RelNamesOk(s, rel, to)
    ensures Filter(ExpandRow(s.options.schema, s.g, row, from, to, rel, p.labelName), IsClean(s.gone))
         == if Clean(row, s.gone) then ExpandRow(s.options.schema, s.Small(), row, from, to, rel, p.labelName) else []
  {
    if from in row && row[from].NodeV? {
      var schema, id := s.options.schema, row[from].node.id;
      var targets := Expand(schema, s.g, id, rel.relType, rel.direction);
      var each := ExpandTo(schema, row, id, to, rel, p.labelName);
      var clean := Clean(row, s.gone);
      forall n | n in targets
        ensures Filter(each(n), IsClean(s.gone)) == if clean && Stays(s.gone)(n) then each(n) else []
      {
        ExpandMembers(schema, s.g, id, rel.relType, rel.direction, n);
        var edge := VarLength.Oriented(rel.direction, rel.relType, id, n.id);
        if schema.HasLabel(n, p.labelName) {
          ExpandedRow(s, clause, bound, row, to, rel, p, n, edge);
          FilterOne(WithRel(row[to := NodeV(n)], rel.variable, edge), IsClean(s.gone));
        }
      }
      hide ExpandTo, Clean, Expand;
      if clean {
        CleanCell(row, from, s.gone);
        FilterCommutes(targets, Stays(s.gone), each, IsClean(s.gone), each);
        Graphs.ExpandKept(schema, s.g, s.gone, id, rel.relType, rel.direction);
      } else {
        FilterFlatMap(targets, each, IsClean(s.gone), (n: Node) => []);
        EmptyMap(targets);
      }
    }
  }

  lemma CleanCell(row: Row, v: string, gone: set<string>)
    requires Clean(row, gone) && v in row
    ensures CleanValue(row[v], gone)
  {
  }

  lemma ExpandOpKept(s: Setting, clause: Clause, child: Op, arg: Row, bound: set<string>, from: string, to: string,
                     rel: RelPattern, p: NodePattern)
    requires Kept(s, child, arg) && RowsOk(s, clause, child, arg, bound)
    requires !(to in bound && to in s.nodeVars) && RelNamesOk(s, rel, to)
    ensures Kept(s, ExpandOp(child, from, to, rel, p.labelName), arg)
    ensures RowsFresh(s, clause, ExpandOp(child, from, to, rel, p.labelName), arg, bound, to, p)
  {
    hide Rows, Clean, RowOk, RowFresh, ExpandRow, RelNamesOk;
    var schema := s.options.schema;
    RowsOfExpand(child, from, to, rel, p.labelName, s.Cx(), s.g, arg);
    RowsOfExpand(child, from, to, rel, p.labelName, s.Cx(), s.Small(), arg);
    var full, small := ExpandEach(schema, s.g, from, to, rel, p.labelName), ExpandEach(schema, s.Small(), from, to, rel, p.labelName);
    forall row | row in s.Full(child, arg)
      ensures Filter(full(row), IsClean(s.gone)) == if Clean(row, s.gone) then small(row) else []
    {
      ExpandRowKept(s, clause, bound, row, from, to, rel, p);
    }
    FilterCommutes(s.Full(child, arg), IsClean(s.gone), full, IsClean(s.gone), small);
    forall next | next in s.Full(ExpandOp(child, from, to, rel, p.labelName), arg)
      ensures RowFresh(s, clause, next, bound, to, p)
    {
      FlatMapMember(s.Full(child, arg), full, next);
      var row :| row in s.Full(child, arg) && next in full(row);
      ExpandRowFresh(s, clause, bound, row, from, to, rel, p, next);
    }
  }

  lemma ExpandRowFresh(s: Setting, clause: Clause, bound: set<string>, row: Row, from: string, to: string, rel: RelPattern,
                       p: NodePattern, next: Row)
    requires RowOk(s, clause, row, bound) && !(to in bound && to in s.nodeVars) && RelNamesOk(s, rel, to)
    requires next in ExpandRow(s.options.schema, s.g, row, from, to, rel, p.labelName)
    ensures RowFresh(s, clause, next, bound, to, p)
  {
    hide RowOk, RowFresh, Expand;
    var schema, id := s.options.schema, row[from].node.id;
    var targets := Expand(schema, s.g, id, rel.relType, rel.direction);
    FlatMapMember(targets, ExpandTo(schema, row, id, to, rel, p.labelName), next);
    var n :| n in targets && next in ExpandTo(schema, row, id, to, rel, p.labelName)(n);
    ExpandMembers(schema, s.g, id, rel.relType, rel.direction, n);
    ExpandedRow(s, clause, bound, row, to, rel, p, n, VarLength.Oriented(rel.direction, rel.relType, id, n.id));
  }

  // ---- hops into a bound node, labels on a bound node ---------------------------------------------------------

  lemma ReachesKept(nodes: seq<Node>, id: string, gone: set<string>)
    requires id !in gone
    ensures Reaches(Filter(nodes, Stays(gone)), id) <==> Reaches(nodes, id)
  {
    if Reaches(nodes, id) {
      var n :| n in nodes && n.id == id;
      FilterMember(nodes, Stays(gone), n);
    }
    if Reaches(Filter(nodes, Stays(gone)), id) {
      var n :| n in Filter(nodes, Stays(gone)) && n.id == id;
      FilterMember(nodes, Stays(gone), n);
    }
  }

  lemma MarkedRow(s: Setting, clause: Clause, bound: set<string>, row: Row, rel: RelPattern, edge: Rel)
    requires RowOk(s, clause, row, bound) && (rel.variable.Some? ==> rel.variable.value !in s.nodeVars)
    ensures var next := WithRel(row, rel.variable, edge);
            RowOk(s, clause, next, bound) && (Clean(next, s.gone) <==> Clean(row, s.gone))
  {
    hide Doomed;
    var next := WithRel(row, rel.variable, edge);
    forall v | v in next ensures CellOk(s, clause, v, next[v], bound) {
      if v in row {
        assert CellOk(s, clause, v, row[v], bound);
      }
    }
    if !Clean(row, s.gone) {
      StaysUnclean(s, clause, row, bound, next);
    }
  }

  lemma ExpandIntoRowKept(s: Setting, clause: Clause, bound: set<string>, row: Row, from: string, to: string, rel: RelPattern)
    requires RowOk(s, clause, row, bound) && (rel.variable.Some? ==> rel.variable.value !in s.nodeVars)
    ensures Filter(ExpandIntoRow(s.options.schema, s.g, row, from, to, rel), IsClean(s.gone))
         == if Clean(row, s.gone) then ExpandIntoRow(s.options.schema, s.Small(), row, from, to, rel) else []
    ensures forall next :: next in ExpandIntoRow(s.options.schema, s.g, row, from, to, rel) ==> RowOk(s, clause, next, bound)
  {
    hide Expand, RowOk, Clean, Reaches;
    if from in row && row[from].NodeV? && to in row && row[to].NodeV? {
      var schema, a, b := s.options.schema, row[from].node.id, row[to].node.id;
      var edge := VarLength.Oriented(rel.direction, rel.relType, a, b);
      MarkedRow(s, clause, bound, row, rel, edge);
      FilterOne(WithRel(row, rel.variable, edge), IsClean(s.gone));
      if Clean(row, s.gone) {
        CleanCell(row, from, s.gone);
        CleanCell(row, to, s.gone);
        Graphs.ExpandKept(schema, s.g, s.gone, a, rel.relType, rel.direction);
        ReachesKept(Expand(schema, s.g, a, rel.relType, rel.direction), b, s.gone);
      }
    }
  }

  lemma ExpandIntoKept(s: Setting, clause: Clause, child: Op, arg: Row, bound: set<string>, from: string, to: string, rel: RelPattern)
    requires Kept(s, child, arg) && RowsOk(s, clause, child, arg, bound)
    requires rel.variable.Some? ==> rel.variable.value !in s.nodeVars
    ensures Kept(s, ExpandInto(child, from, to, rel), arg)
    ensures RowsOk(s, clause, ExpandInto(child, from, to, rel), arg, bound)
  {
    hide Rows, Clean, RowOk, ExpandIntoRow;
    var schema := s.options.schema;
    RowsOfExpandInto(child, from, to, rel, s.Cx(), s.g, arg);
    RowsOfExpandInto(child, from, to, rel, s.Cx(), s.Small(), arg);
    var full, small := ExpandIntoEach(schema, s.g, from, to, rel), ExpandIntoEach(schema, s.Small(), from, to, rel);
    forall row | row in s.Full(child, arg)
      ensures Filter(full(row), IsClean(s.gone)) == if Clean(row, s.gone) then small(row) else []
    {
      ExpandIntoRowKept(s, clause, bound, row, from, to, rel);
    }
    FilterCommutes(s.Full(child, arg), IsClean(s.gone), full, IsClean(s.gone), small);
    forall next | next in s.Full(ExpandInto(child, from, to, rel), arg) ensures RowOk(s, clause, next, bound) {
      FlatMapMember(s.Full(child, arg), full, next);
      var row :| row in s.Full(child, arg) && next in full(row);
      ExpandIntoRowKept(s, clause, bound, row, from, to, rel);
    }
  }

  lemma LabelFilterKept(s: Setting, clause: Clause, child: Op, arg: Row, bound: set<string>, v: string, labelName: string)
    requires Kept(s, child, arg) && RowsOk(s, clause, child, arg, bound)
    ensures Kept(s, LabelFilter(child, v, labelName), arg)
    ensures RowsOk(s, clause, LabelFilter(child, v, labelName), arg, bound)
  {
    hide Rows, Clean, RowOk, LabelHolds;
    var schema := s.options.schema;
    RowsOfLabelFilter(child, v, labelName, s.Cx(), s.g, arg);
    RowsOfLabelFilter(child, v, labelName, s.Cx(), s.Small(), arg);
    var full, small := LabelTest(schema, s.g, v, labelName), LabelTest(schema, s.Small(), v, labelName);
    var rows := s.Full(child, arg);
    var kept := Filter(rows, IsClean(s.gone));
    FilterTwice(rows, IsClean(s.gone), full);
    forall row | row in kept ensures full(row) == small(row) {
      FilterMember(rows, IsClean(s.gone), row);
      LabelHoldsKept(s, row, v, labelName);
    }
    FilterEqual(kept, full, small);
    forall row | row in s.Full(LabelFilter(child, v, labelName), arg) ensures RowOk(s, clause, row, bound) {
      FilterMember(rows, full, row);
    }
  }

  lemma LabelHoldsKept(s: Setting, row: Row, v: string, labelName: string)
    requires Clean(row, s.gone)
    ensures LabelHolds(s.options.schema, s.g, row, v, labelName) == LabelHolds(s.options.schema, s.Small(), row, v, labelName)
  {
    if v in row && row[v].NodeV? {
      CleanCell(row, v, s.gone);
      FindKept(s.g.nodes, s.gone, row[v].node.id);
    }
  }

  // ---- a pattern ----------------------------------------------------------------------------------------------

  lemma FreshFolded(s: Setting, clause: Clause, op: Op, arg: Row, bound: set<string>, name: string, p: NodePattern)
    requires Proper(s) && Listed(s, clause, p)
    requires Kept(s, op, arg) && RowsFresh(s, clause, op, arg, bound, name, p)
    requires p.variable.Some? ==> p.variable.value == name && name in s.nodeVars
    ensures Kept(s, FoldProperties(op, p.properties, name), arg)
    ensures RowsOk(s, clause, FoldProperties(op, p.properties, name), arg, Bind(bound, p.variable))
  {
    hide Rows, Kept, Proper, Listed, RowOk, RowFresh, Passes, PropertyTest, FoldProperties, Bind;
    FoldPropertiesKept(s, op, p.properties, name, arg);
    forall row | row in s.Full(FoldProperties(op, p.properties, name), arg)
      ensures RowOk(s, clause, row, Bind(bound, p.variable))
    {
      FreshSettles(s, clause, row, bound, name, p);
    }
  }

  lemma ReusedFolded(s: Setting, clause: Clause, op: Op, arg: Row, bound: set<string>, name: string, p: NodePattern)
    requires Kept(s, op, arg) && RowsOk(s, clause, op, arg, bound)
    ensures Kept(s, FoldReused(op, p, name), arg) && RowsOk(s, clause, FoldReused(op, p, name), arg, bound)
  {
    hide Rows, Kept, RowOk, Passes, PropertyTest, FoldProperties;
    var labelled := if p.labelName.None? then op else LabelFilter(op, name, p.labelName.value);
    if p.labelName.Some? {
      LabelFilterKept(s, clause, op, arg, bound, name, p.labelName.value);
    }
    FoldPropertiesKept(s, labelled, p.properties, name, arg);
  }

  /** A pattern without a label names a variable in scope; one with a label is an occurrence of the query. */
  ghost predicate NodesListed(s: Setting, clause: Clause, nodes: seq<NodePattern>, scope: set<string>)
    decreases |nodes|
  {
    nodes == [] ||
    (&& (if nodes[0].labelName.Some? then Listed(s, clause, nodes[0]) else IsBound(scope, nodes[0].variable))
     && NodesListed(s, clause, nodes[1..], Bind(scope, nodes[0].variable)))
  }

  /** Node variables, relationship variables and generated names are kept apart. */
  ghost predicate NamesApart(nodeVars: set<string>, path: PatternPath) {
    && (forall p :: p in path.nodes && p.variable.Some? ==> p.variable.value in nodeVars)
    && (forall r :: r in path.rels && r.variable.Some? ==> r.variable.value !in nodeVars)
    && (forall r, i: nat :: r in path.rels && r.variable.Some? ==> r.variable.value != ANON_PREFIX + Digits(i))
    && (path.pathVariable.Some? ==> path.pathVariable.value !in nodeVars)
  }

  /** What the analysis has in scope, the plan has bound; relationship and path variables aside. */
  ghost predicate ScopeOk(s: Setting, scope: set<string>, bound: set<string>) {
    forall v :: v in scope && v in s.nodeVars ==> v in bound
  }

  lemma ScopeAfterNode(s: Setting, scope: set<string>, bound: set<string>, variable: Option<string>)
    requires ScopeOk(s, scope, bound)
    ensures ScopeOk(s, Bind(scope, variable), Bind(bound, variable))
  {
  }

  ghost predicate InputOk(s: Setting, clause: Clause, input: Option<Op>, arg: Row, bound: set<string>) {
    if input.None? then bound == {} else Kept(s, input.value, arg) && RowsOk(s, clause, input.value, arg, bound)
  }

  lemma FreshName(s: Setting, path: PatternPath, i: nat, bound: set<string>)
    requires i < |path.nodes| && Proper(s) && NamesApart(s.nodeVars, path) && !IsBound(bound, path.nodes[i].variable)
    ensures !(NodeName(path, i) in bound && NodeName(path, i) in s.nodeVars)
    ensures path.nodes[i].variable.Some? ==> path.nodes[i].variable.value == NodeName(path, i) && NodeName(path, i) in s.nodeVars
    ensures forall r :: r in path.rels ==> RelNamesOk(s, r, NodeName(path, i))
  {
    hide InventsNoNodes, FiltersOf, Digits;
    var p := path.nodes[i];
    assert p in path.nodes;
    if p.variable.None? {
      assert ANON_PREFIX + Digits(i) !in s.nodeVars;
    }
  }

  lemma AnchorKept(s: Setting, clause: Clause, input: Option<Op>, arg: Row, path: PatternPath, bound: set<string>, scope: set<string>)
    requires Proper(s) && path.Valid() && NamesApart(s.nodeVars, path)
    requires InputOk(s, clause, input, arg, bound) && ScopeOk(s, scope, bound)
    requires NodesListed(s, clause, path.nodes, scope)
    ensures var st := Anchor(input, path, bound);
            && st.op.Some? && Kept(s, st.op.value, arg) && RowsOk(s, clause, st.op.value, arg, st.bound)
            && st.bound == Bind(bound, path.nodes[0].variable)
  {
    hide Rows, Kept, RowsOk, Proper, Listed, FoldProperties, FoldReused, NamesApart, NodeName;
    var node := path.nodes[0];
    var name := NodeName(path, 0);
    if IsBound(bound, node.variable) && input.Some? {
      ReusedFolded(s, clause, input.value, arg, bound, name, node);
      assert Bind(bound, node.variable) == bound;
    } else {
      assert node.labelName.Some? by {
        if node.labelName.None? {
          VariableIsNode(s, path, 0);
        }
      }
      FreshName(s, path, 0, bound);
      var scan := Scan(node, name);
      ScanKept(s, clause, node, name, arg, bound);
      var op := if input.None? then scan else CartesianProduct(input.value, scan);
      if input.Some? {
        ProductKept(s, clause, input.value, scan, arg, bound, name, node);
      }
      FreshFolded(s, clause, op, arg, bound, name, node);
    }
  }

  lemma VariableIsNode(s: Setting, path: PatternPath, i: nat)
    requires i < |path.nodes| && NamesApart(s.nodeVars, path)
    ensures path.nodes[i].variable.Some? ==> path.nodes[i].variable.value in s.nodeVars
  {
    assert path.nodes[i] in path.nodes;
  }

  lemma CompileRelKept(s: Setting, clause: Clause, op: Op, arg: Row, path: PatternPath, i: nat, bound: set<string>, scope: set<string>)
    requires Proper(s) && path.Valid() && i < |path.rels| && NamesApart(s.nodeVars, path) && !path.rels[i].IsVariableLength()
    requires Kept(s, op, arg) && RowsOk(s, clause, op, arg, bound) && ScopeOk(s, scope, bound)
    requires NodesListed(s, clause, path.nodes[i + 1..], scope)
    ensures var r := CompileRel(s.options, op, path, i, bound);
            && r.Ok? && r.value.op.Some? && Kept(s, r.value.op.value, arg)
            && RowsOk(s, clause, r.value.op.value, arg, r.value.bound)
            && r.value.bound == Bind(bound, path.nodes[i + 1].variable)
  {
    hide Rows, Kept, RowsOk, Proper, Listed, FoldProperties, FoldReused, NamesApart, NodeName, RelNamesOk;
    var rel, node := path.rels[i], path.nodes[i + 1];
    var from, to := NodeName(path, i), NodeName(path, i + 1);
    assert path.nodes[i + 1..][0] == node;
    VariableIsNode(s, path, i + 1);
    RelVariableApart(s, path, i);
    if IsBound(bound, node.variable) {
      ExpandIntoKept(s, clause, op, arg, bound, from, to, rel);
      ReusedFolded(s, clause, ExpandInto(op, from, to, rel), arg, bound, to, node);
      assert Bind(bound, node.variable) == bound;
    } else {
      FreshName(s, path, i + 1, bound);
      assert rel in path.rels;
      ExpandOpKept(s, clause, op, arg, bound, from, to, rel, node);
      FreshFolded(s, clause, ExpandOp(op, from, to, rel, node.labelName), arg, bound, to, node);
    }
  }

  lemma RelVariableApart(s: Setting, path: PatternPath, i: nat)
    requires i < |path.rels| && NamesApart(s.nodeVars, path)
    ensures path.rels[i].variable.Some? ==> path.rels[i].variable.value !in s.nodeVars
  {
    assert path.rels[i] in path.rels;
  }

  lemma {:induction false} CompileRelsKept(s: Setting, clause: Clause, op: Op, arg: Row, path: PatternPath, i: nat, bound: set<string>, scope: set<string>)
    requires Proper(s) && path.Valid() && i <= |path.rels| && NamesApart(s.nodeVars, path) && !AnyVarLength(path.rels)
    requires Kept(s, op, arg) && RowsOk(s, clause, op, arg, bound) && ScopeOk(s, scope, bound)
    requires NodesListed(s, clause, path.nodes[i + 1..], scope)
    ensures var r := CompileRels(s.options, op, path, i, bound);
            && r.Ok? && r.value.op.Some? && Kept(s, r.value.op.value, arg)
            && RowsOk(s, clause, r.value.op.value, arg, r.value.bound)
            && ScopeOk(s, scope + SetOf(NodeVariables(path.nodes[i + 1..])), r.value.bound)
    decreases |path.rels| - i
  {
    hide Rows, Kept, RowsOk, Proper, Listed, NamesApart, CompileRel;
    if i < |path.rels| {
      assert path.rels[i] in path.rels;
      CompileRelKept(s, clause, op, arg, path, i, bound, scope);
      var next := CompileRel(s.options, op, path, i, bound).value;
      var node := path.nodes[i + 1];
      ScopeAfterNode(s, scope, bound, node.variable);
      var rest := path.nodes[i + 1..];
      assert rest[0] == node && rest[1..] == path.nodes[i + 2..];
      CompileRelsKept(s, clause, next.op.value, arg, path, i + 1, next.bound, Bind(scope, node.variable));
      assert Bind(scope, node.variable) + SetOf(NodeVariables(rest[1..])) == scope + SetOf(NodeVariables(rest));
    }
  }

  lemma {:induction false} RelVariablesApart(s: Setting, rels: seq<RelPattern>)
    requires forall r :: r in rels && r.variable.Some? ==> r.variable.value !in s.nodeVars
    ensures forall v :: v in SetOf(RelVariables(rels)) ==> v !in s.nodeVars
  {
    if rels != [] {
      assert rels[0] in rels;
      RelVariablesApart(s, rels[1..]);
    }
  }

  lemma CompilePathKept(s: Setting, clause: Clause, input: Option<Op>, arg: Row, path: PatternPath, bound: set<string>, scope: set<string>)
    requires Proper(s) && path.Valid() && NamesApart(s.nodeVars, path) && !AnyVarLength(path.rels)
    requires InputOk(s, clause, input, arg, bound) && ScopeOk(s, scope, bound)
    requires NodesListed(s, clause, path.nodes, scope)
    requires CompilePath(s.options, input, path, bound).Ok?
    ensures var st := CompilePath(s.options, input, path, bound).value;
            && st.op.Some? && Kept(s, st.op.value, arg) && RowsOk(s, clause, st.op.value, arg, st.bound)
            && ScopeOk(s, ScopeAfterPath(path, scope), st.bound)
  {
    hide Rows, Kept, RowsOk, Proper, Listed, CompileRels, Anchor, AnyVarLength;
    var node := path.nodes[0];
    AnchorKept(s, clause, input, arg, path, bound, scope);
    var st := Anchor(input, path, bound);
    ScopeAfterNode(s, scope, bound, node.variable);
    assert path.nodes[0 + 1..] == path.nodes[1..];
    CompileRelsKept(s, clause, st.op.value, arg, path, 0, st.bound, Bind(scope, node.variable));
    RelVariablesApart(s, path.rels);
    assert Bind(scope, node.variable) + SetOf(NodeVariables(path.nodes[1..])) == ScopeAfterNodes(path.nodes, scope);
  }

  ghost predicate PathsListed(s: Setting, clause: Clause, paths: seq<PatternPath>, scope: set<string>)
    decreases |paths|
  {
    paths == [] ||
    (&& paths[0].Valid() && NamesApart(s.nodeVars, paths[0]) && !AnyVarLength(paths[0].rels)
     && NodesListed(s, clause, paths[0].nodes, scope)
     && PathsListed(s, clause, paths[1..], ScopeAfterPath(paths[0], scope)))
  }

  lemma {:induction false} CompilePathsKept(s: Setting, clause: Clause, input: Option<Op>, arg: Row, paths: seq<PatternPath>, bound: set<string>, scope: set<string>)
    requires Proper(s) && InputOk(s, clause, input, arg, bound) && ScopeOk(s, scope, bound)
    requires (forall p :: p in paths ==> p.Valid()) && PathsListed(s, clause, paths, scope)
    requires CompilePaths(s.options, input, paths, bound).Ok?
    ensures var st := CompilePaths(s.options, input, paths, bound).value;
            InputOk(s, clause, st.op, arg, st.bound) && ScopeOk(s, ScopeAfterPaths(paths, scope), st.bound)
    decreases |paths|
  {
    hide Rows, Kept, RowsOk, Proper, Listed, CompilePath, NamesApart, NodesListed, AnyVarLength, ScopeAfterPath, ScopeOk;
    if paths != [] {
      CompilePathKept(s, clause, input, arg, paths[0], bound, scope);
      var next := CompilePath(s.options, input, paths[0], bound).value;
      CompilePathsKept(s, clause, next.op, arg, paths[1..], next.bound, ScopeAfterPath(paths[0], scope));
    }
  }

  // ---- the end of a clause ------------------------------------------------------------------------------------

  lemma {:induction false} ConjunctsHold(e: Expr, row: Row, env: Env, c: Expr)
    requires Passes(e, row, env) && c in Conjuncts(e)
    ensures Passes(c, row, env)
    decreases e, 0
  {
    if e.Boolean? && e.bop.And? {
      var vs := EvaluateAll(e.operands, row, env);
      forall i | 0 <= i < |e.operands| ensures Passes(e.operands[i], row, env) {
        assert Truthy(vs[i]);
      }
      ConjunctsOfAllHold(e.operands, row, env, c);
    }
  }

  lemma {:induction false} ConjunctsOfAllHold(es: seq<Expr>, row: Row, env: Env, c: Expr)
    requires (forall i :: 0 <= i < |es| ==> Passes(es[i], row, env)) && c in ConjunctsOfAll(es)
    ensures Passes(c, row, env)
    decreases es, 1
  {
    hide Passes;
    if c in Conjuncts(es[0]) {
      ConjunctsHold(es[0], row, env, c);
    } else {
      ConjunctsOfAllHold(es[1..], row, env, c);
    }
  }

  /** A pushed term holds of the variable's node wherever its conjunct does. */
  lemma TermHolds(c: Expr, v: string, row: Row, env: Env, n: Node)
    requires Passes(c, row, env) && TermOf(c, v, env.parameters).Some?
    requires v in row && row[v] == NodeV(n)
    ensures var t := TermOf(c, v, env.parameters).value; t.field in n.attrs && n.attrs[t.field] == t.value
  {
    var l, r := Evaluate(c.left, row, env), Evaluate(c.right, row, env);
    assert l.ScalarV? && r.ScalarV? && l.scalar == r.scalar;
  }

  lemma {:induction false} TermsHold(es: seq<Expr>, v: string, row: Row, env: Env, n: Node, t: Term)
    requires forall c :: c in es ==> Passes(c, row, env)
    requires v in row && row[v] == NodeV(n) && t in TermsOfAll(es, v, env.parameters)
    ensures t.field in n.attrs && n.attrs[t.field] == t.value
    decreases |es|
  {
    hide Passes, TermOf;
    if TermOf(es[0], v, env.parameters) == Some(t) {
      TermHolds(es[0], v, row, env, n);
    } else {
      TermsHold(es[1..], v, row, env, n, t);
    }
  }

  /** A row that passes its clause's condition mentions no missing node. */
  lemma ConditionCleans(s: Setting, clause: Clause, row: Row, bound: set<string>)
    requires RowOk(s, clause, row, bound) && clause.Match?
    requires clause.where.Some? ==> Passes(clause.where.value, row, s.options.env)
    ensures Clean(row, s.gone)
  {
    hide Passes, CleanValue, TermsOfAll, Conjuncts;
    forall v | v in row ensures CleanValue(row[v], s.gone) {
      assert CellOk(s, clause, v, row[v], bound);
      if row[v].NodeV? && Doomed(s, clause, v, row[v].node) {
        var n, es := row[v].node, Conjuncts(clause.where.value);
        forall c | c in es ensures Passes(c, row, s.options.env) {
          ConjunctsHold(clause.where.value, row, s.options.env, c);
        }
        var t :| t in TermsOfAll(es, v, s.options.env.parameters) && !(t.field in n.attrs && n.attrs[t.field] == t.value);
        TermsHold(es, v, row, s.options.env, n, t);
      }
    }
  }

  /** Both graphs give exactly the same rows, and none mentions a missing node. */
  ghost predicate Same(s: Setting, op: Op, arg: Row) {
    s.Reduced(op, arg) == s.Full(op, arg) && AllClean(s.Full(op, arg), s.gone)
  }

  lemma KeptAndCleanIsSame(s: Setting, op: Op, arg: Row)
    requires Kept(s, op, arg) && AllClean(s.Full(op, arg), s.gone)
    ensures Same(s, op, arg)
  {
    hide Rows, Clean;
    FilterAll(s.Full(op, arg), IsClean(s.gone));
  }

  lemma SameIsInput(s: Setting, clause: Clause, op: Op, arg: Row, bound: set<string>)
    requires Same(s, op, arg)
    ensures InputOk(s, clause, Some(op), arg, bound)
  {
    hide Rows, CleanValue, Doomed;
    FilterAll(s.Full(op, arg), IsClean(s.gone));
    forall row | row in s.Full(op, arg) ensures RowOk(s, clause, row, bound) {
      assert Clean(row, s.gone);
    }
  }

  lemma NothingIsSame(s: Setting, arg: Row)
    ensures Same(s, SingleRow, arg)
  {
  }

  lemma ArgumentIsSame(s: Setting, arg: Row)
    requires Clean(arg, s.gone)
    ensures Same(s, Argument, arg)
  {
  }

  lemma PatternSame(s: Setting, clause: Clause, input: Option<Op>, arg: Row, bound: set<string>, scope: set<string>)
    requires Proper(s) && clause.Match? && ValidClause(clause)
    requires InputOk(s, clause, input, arg, bound) && ScopeOk(s, scope, bound) && PathsListed(s, clause, clause.paths, scope)
    requires CompilePattern(s.options, input, clause.paths, clause.where, bound).Ok?
    ensures var st := CompilePattern(s.options, input, clause.paths, clause.where, bound).value;
            && st.op.Some? && Same(s, st.op.value, arg)
            && ScopeOk(s, ScopeAfterPaths(clause.paths, scope), st.bound)
  {
    hide Rows, Kept, RowOk, Proper, CompilePaths, PathsListed, Clean, ScopeOk, Passes, Same;
    CompilePathsKept(s, clause, input, arg, clause.paths, bound, scope);
    var st := CompilePaths(s.options, input, clause.paths, bound).value;
    if st.op.None? {
      NothingIsSame(s, arg);
      SameIsInput(s, clause, SingleRow, arg, st.bound);
    }
    var op := st.Input();
    var last := CompilePattern(s.options, input, clause.paths, clause.where, bound).value.op.value;
    if clause.where.Some? {
      FilterKept(s, op, clause.where.value, arg);
    }
    forall row | row in s.Full(last, arg) ensures Clean(row, s.gone) {
      ConditionCleans(s, clause, row, st.bound);
    }
    KeptAndCleanIsSame(s, last, arg);
  }

  // ---- optional matches ---------------------------------------------------------------------------------------

  lemma {:induction false} UnboundCovers(names: seq<string>, bound: set<string>)
    ensures SetOf(names) <= bound + SetOf(Unbound(names, bound))
    decreases |names|
  {
    if names != [] {
      if names[0] in bound {
        UnboundCovers(names[1..], bound);
      } else {
        var rest := Unbound(names[1..], bound + {names[0]});
        UnboundCovers(names[1..], bound + {names[0]});
        assert Unbound(names, bound) == [names[0]] + rest;
        forall n | n in names ensures n in bound || n in Unbound(names, bound) {
          if n != names[0] {
            assert n in names[1..];
            assert n in SetOf(names[1..]);
          }
        }
      }
    }
  }

  lemma {:induction false} ScopeIsDeclared(s: Setting, clause: Clause, paths: seq<PatternPath>, scope: set<string>)
    ensures ScopeAfterPaths(paths, scope) <= scope + SetOf(Declared(paths))
    decreases |paths|
  {
    if paths != [] {
      ScopeIsDeclared(s, clause, paths[1..], ScopeAfterPath(paths[0], scope));
    }
  }

  lemma OptionalRows(child: Op, inner: Op, vars: seq<string>, cx: Context, g: Graph, arg: Row)
    ensures Rows(OptionalApply(child, inner, vars), cx, g, arg)
         == FlatMap(Rows(child, cx, g, arg), (row: Row) => OrPadded(Rows(inner, cx, g, row), row, vars))
  {
    hide FlatMap, OrPadded;
  }

  /** No row of an optional match can bind a missing node, so a row is padded over one graph iff over the other. */
  lemma OptionalSame(s: Setting, child: Op, inner: Op, vars: seq<string>, arg: Row)
    requires Same(s, child, arg)
    requires forall row :: Clean(row, s.gone) ==> Same(s, inner, row)
    ensures Same(s, OptionalApply(child, inner, vars), arg)
  {
    hide Rows, Clean, Padded;
    OptionalRows(child, inner, vars, s.Cx(), s.g, arg);
    OptionalRows(child, inner, vars, s.Cx(), s.Small(), arg);
    var rows := s.Full(child, arg);
    var full := (row: Row) => OrPadded(Rows(inner, s.Cx(), s.g, row), row, vars);
    var small := (row: Row) => OrPadded(Rows(inner, s.Cx(), s.Small(), row), row, vars);
    forall row | row in rows ensures full(row) == small(row) {
      assert Same(s, inner, row);
    }
    FlatMapEqual(rows, full, small);
    forall next | next in s.Full(OptionalApply(child, inner, vars), arg) ensures Clean(next, s.gone) {
      FlatMapMember(rows, full, next);
      var row :| row in rows && next in full(row);
      assert Same(s, inner, row);
      PaddedIsClean(row, vars, s.gone);
    }
  }

  // ---- clauses ------------------------------------------------------------------------------------------------

  ghost predicate ClauseListed(s: Setting, clause: Clause, scope: set<string>) {
    && ValidClause(clause)
    && (clause.Match? ==> PathsListed(s, clause, clause.paths, scope))
    && (clause.Match? || clause.Unwind?)
  }

  ghost predicate StateSame(s: Setting, state: State, scope: set<string>) {
    && (if state.op.None? then state.bound == {} else Same(s, state.op.value, map[]))
    && ScopeOk(s, scope, state.bound)
  }

  lemma InputIsSame(s: Setting, state: State, scope: set<string>)
    requires StateSame(s, state, scope)
    ensures Same(s, state.Input(), map[])
  {
    hide Rows;
    if state.op.None? {
      NothingIsSame(s, map[]);
    }
  }

  lemma OptionalMatchSame(s: Setting, clause: Clause, state: State, scope: set<string>)
    requires Proper(s) && StateSame(s, state, scope) && ClauseListed(s, clause, scope) && clause.Match? && clause.optional
    requires CompileMatch(s.options, state.op, clause, state.bound).Ok?
    ensures StateSame(s, CompileMatch(s.options, state.op, clause, state.bound).value, ScopeAfterClause(clause, scope))
  {
    hide Rows, Proper, PathsListed, CompilePattern, Same, Clean;
    InputIsSame(s, state, scope);
    var vars := Unbound(Declared(clause.paths), state.bound);
    var inner := CompilePattern(s.options, Some(Argument), clause.paths, clause.where, state.bound).value;
    forall row | Clean(row, s.gone) ensures Same(s, inner.Input(), row) {
      ArgumentIsSame(s, row);
      SameIsInput(s, clause, Argument, row, state.bound);
      PatternSame(s, clause, Some(Argument), row, state.bound, scope);
    }
    OptionalSame(s, state.Input(), inner.Input(), vars, map[]);
    UnboundCovers(Declared(clause.paths), state.bound);
    ScopeIsDeclared(s, clause, clause.paths, scope);
  }

  lemma UnwindSame(s: Setting, child: Op, expr: Expr, v: string, arg: Row)
    requires Same(s, child, arg) && InventsNoNodes(s.options.env)
    ensures Same(s, UnwindOp(child, expr, v), arg)
  {
    hide Clean, UnwindRow, InventsNoNodes, Filter, FlatMap, Evaluate;
    forall next | next in s.Full(UnwindOp(child, expr, v), arg) ensures Clean(next, s.gone) {
      FlatMapMember(s.Full(child, arg), UnwindEach(expr, v, s.options.env), next);
      var row :| row in s.Full(child, arg) && next in UnwindRow(row, expr, v, s.options.env);
      UnwindIsClean(row, expr, v, s.options.env, s.gone);
    }
  }

  lemma ClauseSame(s: Setting, clause: Clause, state: State, scope: set<string>)
    requires Proper(s) && StateSame(s, state, scope) && ClauseListed(s, clause, scope)
    requires CompileClause(s.options, state, clause).Ok?
    ensures StateSame(s, CompileClause(s.options, state, clause).value, ScopeAfterClause(clause, scope))
  {
    if clause.Unwind? {
      hide Rows, Same;
      InputIsSame(s, state, scope);
      UnwindSame(s, state.Input(), clause.expr, clause.variable, map[]);
    } else if clause.optional {
      OptionalMatchSame(s, clause, state, scope);
    } else {
      hide Rows, Same, Proper, PathsListed, CompilePattern, ScopeOk, ScopeAfterPaths, ValidClause;
      if state.op.Some? {
        SameIsInput(s, clause, state.op.value, map[], state.bound);
      }
      PatternSame(s, clause, state.op, map[], state.bound, scope);
    }
  }

  ghost predicate ClausesListed(s: Setting, clauses: seq<Clause>, scope: set<string>)
    decreases |clauses|
  {
    clauses == [] || (ClauseListed(s, clauses[0], scope) && ClausesListed(s, clauses[1..], ScopeAfterClause(clauses[0], scope)))
  }

  lemma {:induction false} ClausesSame(s: Setting, clauses: seq<Clause>, state: State, scope: set<string>)
    requires Proper(s) && StateSame(s, state, scope) && ClausesListed(s, clauses, scope)
    requires (forall c :: c in clauses ==> ValidClause(c)) && CompileClauses(s.options, state, clauses).Ok?
    ensures StateSame(s, CompileClauses(s.options, state, clauses).value, ScopeAfterClauses(clauses, scope))
    decreases |clauses|
  {
    hide Rows, Proper, StateSame, ClauseListed, CompileClause, ScopeAfterClause;
    if clauses != [] {
      ClauseSame(s, clauses[0], state, scope);
      ClausesSame(s, clauses[1..], CompileClause(s.options, state, clauses[0]).value, ScopeAfterClause(clauses[0], scope));
    }
  }

  // ---- projections --------------------------------------------------------------------------------------------

  lemma ProjectSame(s: Setting, input: Op, items: seq<ReturnItem>)
    requires Same(s, input, map[]) && InventsNoNodes(s.options.env)
    ensures Same(s, ProjectOp(input, items), map[])
  {
    hide Clean, InventsNoNodes, ProjectRow;
    forall next | next in s.Full(ProjectOp(input, items), map[]) ensures Clean(next, s.gone) {
      FlatMapMember(s.Full(input, map[]), ProjectEach(items, s.options.env), next);
      var row :| row in s.Full(input, map[]) && next in ProjectEach(items, s.options.env)(row);
      ProjectIsClean(row, items, s.options.env, s.gone);
    }
  }

  lemma AggregateSame(s: Setting, input: Op, grouping: seq<ReturnItem>, aggregates: seq<AggregateItem>)
    requires Same(s, input, map[]) && InventsNoNodes(s.options.env)
    ensures Same(s, AggregateOp(input, grouping, aggregates), map[])
  {
    hide Clean, InventsNoNodes, AggregateRows;
    AggregateRowsAreClean(s.Full(input, map[]), grouping, aggregates, s.options.env, s.gone);
  }

  lemma ProjectedSame(s: Setting, input: Op, p: Projection)
    requires Same(s, input, map[]) && InventsNoNodes(s.options.env) && ProjectedOp(input, p).Ok?
    ensures Same(s, ProjectedOp(input, p).value, map[])
  {
    hide Same, InventsNoNodes, AggregateItems, GroupingItems;
    var op := ProjectedOp(input, p).value;
    if op.AggregateOp? {
      AggregateSame(s, input, op.grouping, op.aggregates);
    } else {
      ProjectSame(s, input, p.items);
    }
  }

  lemma DistinctSame(s: Setting, op: Op, columns: seq<string>)
    requires Same(s, op, map[])
    ensures Same(s, DistinctOp(op, columns), map[])
  {
    hide Clean, DistinctRows, DistinctKey, FlatMap, Filter;
    forall row | row in s.Full(DistinctOp(op, columns), map[]) ensures Clean(row, s.gone) {
      DistinctRowsAreInput(s.Full(op, map[]), columns, {}, row);
    }
  }

  lemma FilterSame(s: Setting, op: Op, e: Expr)
    requires Same(s, op, map[])
    ensures Same(s, FilterOp(op, e), map[])
  {
    hide Clean, Passes;
    forall row | row in s.Full(FilterOp(op, e), map[]) ensures Clean(row, s.gone) {
      FilterMember(s.Full(op, map[]), ConditionTest(e, s.options.env), row);
    }
  }

  lemma SortSame(s: Setting, op: Op, keys: seq<SortItem>)
    requires Same(s, op, map[])
    ensures Same(s, SortOp(op, keys), map[])
  {
    hide Clean, Ordering.SortRows;
    forall row | row in s.Full(SortOp(op, keys), map[]) ensures Clean(row, s.gone) {
      SortedRowsAreInput(s.Full(op, map[]), keys, s.options.env, row);
    }
  }

  lemma SkipSame(s: Setting, op: Op, count: Numbers.Number)
    requires Same(s, op, map[])
    ensures Same(s, SkipOp(op, count), map[])
  {
    hide Clean, SkipCount;
  }

  lemma LimitSame(s: Setting, op: Op, count: Numbers.Number)
    requires Same(s, op, map[])
    ensures Same(s, LimitOp(op, count), map[])
  {
    hide Clean, LimitCount;
  }

  lemma SliceSame(s: Setting, op: Op, p: Projection)
    requires Same(s, op, map[]) && SliceOp(s.options, op, p).Ok?
    ensures Same(s, SliceOp(s.options, op, p).value, map[])
  {
    hide Same, Count;
    var skipped := op;
    if p.skip.Some? {
      skipped := SkipOp(op, Count(s.options, p.skip.value).value);
      SkipSame(s, op, Count(s.options, p.skip.value).value);
    }
    if p.limit.Some? {
      LimitSame(s, skipped, Count(s.options, p.limit.value).value);
    }
  }

  lemma ProjectionSame(s: Setting, input: Op, p: Projection, implicitOrder: bool)
    requires Same(s, input, map[]) && InventsNoNodes(s.options.env)
    requires BuildProjection(s.options, input, p, implicitOrder).Ok?
    ensures Same(s, BuildProjection(s.options, input, p, implicitOrder).value, map[])
  {
    hide Same, InventsNoNodes, ResolveSort, Resolve, UnknownReference, ProjectedOp, SliceOp;
    ProjectedSame(s, input, p);
    var projected := ProjectedOp(input, p).value;
    var columns := Ordering.Columns(p.items);
    DistinctSame(s, projected, columns);
    var distinct := if p.distinct then DistinctOp(projected, columns) else projected;
    if p.where.Some? {
      FilterSame(s, distinct, Resolve(p.items, p.where.value));
    }
    var filtered := WhereOp(distinct, p).value;
    assert Same(s, filtered, map[]);
    var sorted := OrderOp(filtered, p, implicitOrder).value;
    if sorted != filtered {
      SortSame(s, filtered, sorted.keys);
    }
    SliceSame(s, sorted, p);
  }

  // ---- parts and queries --------------------------------------------------------------------------------------

  ghost predicate PartsListed(s: Setting, parts: seq<QueryPart>, scope: set<string>)
    decreases |parts|
  {
    parts == [] || (ClausesListed(s, parts[0].reading, scope) && PartsListed(s, parts[1..], ScopeAfterPart(parts[0], scope)))
  }

  /** A part without a projection, or with a RETURN, ends the query. */
  predicate Closed(parts: seq<QueryPart>) {
    forall i :: 0 <= i < |parts| - 1 ==> parts[i].projection.Some? && !parts[i].projection.value.isReturn
  }

  lemma PartSame(s: Setting, part: QueryPart, state: State, scope: set<string>, isFinal: bool)
    requires Proper(s) && StateSame(s, state, scope) && ClausesListed(s, part.reading, scope) && ValidPart(part)
    requires CompilePart(s.options, part, state.op, state.bound, isFinal).Ok?
    ensures var next := CompilePart(s.options, part, state.op, state.bound, isFinal).value;
            && next.op.Some? && Same(s, next.op.value, map[])
            && (part.projection.Some? && !part.projection.value.isReturn ==> StateSame(s, next, ScopeAfterPart(part, scope)))
  {
    hide Rows, Same, Proper, CompileClauses, BuildProjection, ClausesListed, PartError, ScopeAfterClauses;
    assert InventsNoNodes(s.options.env) by { ProperEnv(s); }
    ClausesSame(s, part.reading, state, scope);
    var read := CompileClauses(s.options, State(state.op, state.bound), part.reading).value;
    InputIsSame(s, read, ScopeAfterClauses(part.reading, scope));
    if part.projection.Some? {
      ProjectionSame(s, read.Input(), part.projection.value, isFinal && s.options.ensureOrder);
    }
  }

  lemma ProperEnv(s: Setting)
    requires Proper(s)
    ensures InventsNoNodes(s.options.env)
  {
  }

  lemma {:induction false} PartsSame(s: Setting, parts: seq<QueryPart>, state: State, scope: set<string>)
    requires Proper(s) && StateSame(s, state, scope) && PartsListed(s, parts, scope) && parts != []
    requires Closed(parts) && (forall p :: p in parts ==> ValidPart(p)) && CompileParts(s.options, parts, state).Ok?
    ensures var next := CompileParts(s.options, parts, state).value; next.op.Some? && Same(s, next.op.value, map[])
    decreases |parts|
  {
    hide Rows, Same, Proper, StateSame, CompilePart, ClausesListed, ScopeAfterPart;
    PartSame(s, parts[0], state, scope, |parts| == 1);
    var next := CompilePart(s.options, parts[0], state.op, state.bound, |parts| == 1).value;
    if |parts| == 1 {
      assert parts[1..] == [];
    } else {
      assert State(state.op, state.bound) == state;
      PartsSame(s, parts[1..], next, ScopeAfterPart(parts[0], scope));
    }
  }

  // ---- the analysis -------------------------------------------------------------------------------------------

  lemma {:induction false} NodesAreListed(s: Setting, clause: Clause, nodes: seq<NodePattern>, scope: set<string>)
    requires var os := NodeOccurrences(s.options.schema, nodes, clause, scope);
             os.Some? && forall o :: o in os.value ==> o in s.all
    ensures NodesListed(s, clause, nodes, scope)
    decreases |nodes|
  {
    if nodes != [] {
      var node := nodes[0];
      var os := NodeOccurrences(s.options.schema, nodes, clause, scope).value;
      var rest := NodeOccurrences(s.options.schema, nodes[1..], clause, Bind(scope, node.variable)).value;
      if node.labelName.Some? {
        assert os[0] in os;
        assert os == [os[0]] + rest;
      }
      NodesAreListed(s, clause, nodes[1..], Bind(scope, node.variable));
    }
  }

  lemma {:induction false} PathsAreListed(s: Setting, clause: Clause, paths: seq<PatternPath>, scope: set<string>)
    requires forall p :: p in paths ==> p.Valid() && NamesApart(s.nodeVars, p)
    requires var os := PathOccurrences(s.options.schema, paths, clause, scope);
             os.Some? && forall o :: o in os.value ==> o in s.all
    ensures PathsListed(s, clause, paths, scope)
    decreases |paths|
  {
    hide NodeOccurrences, NodesListed, NamesApart, AnyVarLength, ScopeAfterPath;
    if paths != [] {
      var here := NodeOccurrences(s.options.schema, paths[0].nodes, clause, scope).value;
      var rest := PathOccurrences(s.options.schema, paths[1..], clause, ScopeAfterPath(paths[0], scope)).value;
      var os := PathOccurrences(s.options.schema, paths, clause, scope).value;
      assert os == here + rest;
      NodesAreListed(s, clause, paths[0].nodes, scope);
      PathsAreListed(s, clause, paths[1..], ScopeAfterPath(paths[0], scope));
    }
  }

  ghost predicate ClauseNamesApart(s: Setting, clause: Clause) {
    clause.Match? ==> forall p :: p in clause.paths ==> NamesApart(s.nodeVars, p)
  }

  lemma {:induction false} ClausesAreListed(s: Setting, clauses: seq<Clause>, scope: set<string>)
    requires forall c :: c in clauses ==> ValidClause(c) && ClauseNamesApart(s, c)
    requires var os := ClauseOccurrences(s.options.schema, clauses, scope);
             os.Some? && forall o :: o in os.value ==> o in s.all
    ensures ClausesListed(s, clauses, scope)
    decreases |clauses|
  {
    hide PathOccurrences, PathsListed, NamesApart, ScopeAfterClause;
    if clauses != [] {
      var rest := ClauseOccurrences(s.options.schema, clauses[1..], ScopeAfterClause(clauses[0], scope)).value;
      var os := ClauseOccurrences(s.options.schema, clauses, scope).value;
      assert clauses[0] in clauses;
      if clauses[0].Match? {
        var here := PathOccurrences(s.options.schema, clauses[0].paths, clauses[0], scope).value;
        assert os == here + rest;
        PathsAreListed(s, clauses[0], clauses[0].paths, scope);
      } else {
        assert os == [] + rest;
      }
      ClausesAreListed(s, clauses[1..], ScopeAfterClause(clauses[0], scope));
    }
  }

  lemma {:induction false} PartsAreListed(s: Setting, parts: seq<QueryPart>, scope: set<string>)
    requires forall part, c :: part in parts && c in part.reading ==> ValidClause(c) && ClauseNamesApart(s, c)
    requires var os := PartOccurrences(s.options.schema, parts, scope);
             os.Some? && forall o :: o in os.value ==> o in s.all
    ensures PartsListed(s, parts, scope)
    decreases |parts|
  {
    hide ClauseOccurrences, ClausesListed, ClauseNamesApart, ValidClause, ScopeAfterPart;
    if parts != [] {
      var here := ClauseOccurrences(s.options.schema, parts[0].reading, scope).value;
      var rest := PartOccurrences(s.options.schema, parts[1..], ScopeAfterPart(parts[0], scope)).value;
      assert PartOccurrences(s.options.schema, parts, scope).value == here + rest;
      assert parts[0] in parts;
      ClausesAreListed(s, parts[0].reading, scope);
      PartsAreListed(s, parts[1..], ScopeAfterPart(parts[0], scope));
    }
  }

  // Every occurrence sits in a MATCH and names a known concept.

  ghost predicate GoodOccurrence(schema: Schema, o: Occurrence) {
    o.clause.Match? && o.concept in schema.supertypes
  }

  lemma {:induction false} NodeOccurrencesAreGood(schema: Schema, nodes: seq<NodePattern>, clause: Clause, scope: set<string>)
    requires schema.Valid() && clause.Match? && NodeOccurrences(schema, nodes, clause, scope).Some?
    ensures forall o :: o in NodeOccurrences(schema, nodes, clause, scope).value ==> GoodOccurrence(schema, o)
    decreases |nodes|
  {
    if nodes != [] {
      NodeOccurrencesAreGood(schema, nodes[1..], clause, Bind(scope, nodes[0].variable));
    }
  }

  lemma {:induction false} PathOccurrencesAreGood(schema: Schema, paths: seq<PatternPath>, clause: Clause, scope: set<string>)
    requires schema.Valid() && clause.Match? && PathOccurrences(schema, paths, clause, scope).Some?
    ensures forall o :: o in PathOccurrences(schema, paths, clause, scope).value ==> GoodOccurrence(schema, o)
    decreases |paths|
  {
    hide NodeOccurrences, ScopeAfterPath;
    if paths != [] {
      NodeOccurrencesAreGood(schema, paths[0].nodes, clause, scope);
      PathOccurrencesAreGood(schema, paths[1..], clause, ScopeAfterPath(paths[0], scope));
    }
  }

  lemma {:induction false} ClauseOccurrencesAreGood(schema: Schema, clauses: seq<Clause>, scope: set<string>)
    requires schema.Valid() && ClauseOccurrences(schema, clauses, scope).Some?
    ensures forall o :: o in ClauseOccurrences(schema, clauses, scope).value ==> GoodOccurrence(schema, o)
    decreases |clauses|
  {
    hide PathOccurrences, ScopeAfterClause;
    if clauses != [] {
      if clauses[0].Match? {
        PathOccurrencesAreGood(schema, clauses[0].paths, clauses[0], scope);
      }
      ClauseOccurrencesAreGood(schema, clauses[1..], ScopeAfterClause(clauses[0], scope));
    }
  }

  lemma {:induction false} PartOccurrencesAreGood(schema: Schema, parts: seq<QueryPart>, scope: set<string>)
    requires schema.Valid() && PartOccurrences(schema, parts, scope).Some?
    ensures forall o :: o in PartOccurrences(schema, parts, scope).value ==> GoodOccurrence(schema, o)
    decreases |parts|
  {
    hide ClauseOccurrences, ScopeAfterPart;
    if parts != [] {
      ClauseOccurrencesAreGood(schema, parts[0].reading, scope);
      PartOccurrencesAreGood(schema, parts[1..], ScopeAfterPart(parts[0], scope));
    }
  }

  // ---- the theorem --------------------------------------------------------------------------------------------

  /** The node variables of a query. */
  function ModelNodeVariables(model: QueryModel): set<string> {
    set part, c, p, n | part in model.parts && c in part.reading && c.Match? && p in c.paths && n in p.nodes && n.variable.Some?
      :: n.variable.value
  }

  /**
   The names a query may use: relationship and path variables are not node variables, and no variable looks like the name
   the planner generates for an anonymous node.
   */
  ghost predicate NamesAreApart(model: QueryModel) {
    && NoAnonymous(ModelNodeVariables(model))
    && forall part, c, p :: part in model.parts && c in part.reading && c.Match? && p in c.paths
         ==> NamesApart(ModelNodeVariables(model), p)
  }

  lemma EverySurvivor(g: Graph, gone: set<string>)
    requires forall n :: n in g.nodes ==> n.id !in gone
    ensures Without(g, gone) == g
  {
    FilterAll(g.nodes, Stays(gone));
  }

  /**
   A source may leave out any instances that fail its concept's filter: the answer is the same sequence of rows, for every
   read query, whatever its optional matches, projections, aggregates, orders and limits.
   */
  lemma PushDownPreservesAnswers(options: Options, model: QueryModel, g: Graph, gone: set<string>)
    requires ValidModel(model) && Closed(model.parts) && model.parts != []
    requires options.schema.Valid() && g.Valid() && InventsNoNodes(options.env) && NamesAreApart(model)
    requires forall n :: n in g.nodes && n.id in gone
               ==> !Survives(Analyze(options.schema, options.env.parameters, model), n)
    ensures Answer(options, model, Without(g, gone)) == Answer(options, model, g)
  {
    hide Rows, CompileParts, InventsNoNodes, NoAnonymous, NamesApart;
    var all := PartOccurrences(options.schema, model.parts, {});
    if model.HasWrites() || all.None? {
      EverySurvivor(g, gone);
    } else if Plan(options, model).Ok? {
      var s := Setting(options, all.value, g, gone, ModelNodeVariables(model));
      PartOccurrencesAreGood(options.schema, model.parts, {});
      assert Proper(s);
      forall part, c | part in model.parts && c in part.reading ensures ValidClause(c) && ClauseNamesApart(s, c) {
        if c.Match? {
          assert forall p :: p in c.paths ==> NamesApart(s.nodeVars, p);
        }
      }
      PartsAreListed(s, model.parts, {});
      PartsSame(s, model.parts, State(None, {}), {});
    }
  }
}
