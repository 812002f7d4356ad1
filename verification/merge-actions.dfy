/**
 What the ON actions of a MERGE do.

 Every row is answered in one of three ways: by the rows its pattern matches, which show exactly the nodes that fit
 (`FoundRowsShowFits`); by what the query wrote for a row with the same bound nodes (`KnownRowShowsWritten`); or by the
 pattern written for it (`CreatedRowActs`). ON MATCH acts on the first two, ON CREATE on the last: over a whole query the
 nodes those rows hold have the new value, and everything else is as it was or as it was written (`ActionsTakeEffect`).
 */
module MergeActions {
  import opened Wrappers
  import opened Values
  import opened Query
  import opened Evaluation
  import opened Graphs
  import opened Seqs
  import opened Operators
  import P = Planner
  import VarLength
  import opened GraphWrites
  import M = MatchExactness
  import opened Merging
  import opened WrittenPatterns
  import T = MergedTwice

  // ---- setting a property of what rows hold -------------------------------------------------------------------

  /** SET variable.name = value, or REMOVE variable.name. */
  datatype Setting = Setting(variable: string, name: string, value: Option<Scalar>) {
    function Act(): (Graph, Row) -> Graph {
      SetAction(variable, name, value)
    }
  }

  function AttrOf(view: View, name: string): Option<Scalar> {
    if name in view.attrs then Some(view.attrs[name]) else None
  }

  /** Some row holds the node under this name. */
  predicate Hold(rows: seq<Row>, v: string, id: string) {
    exists i :: 0 <= i < |rows| && NamesAt(rows[i], v, id)
  }

  /** A view with the property set, if it is to be. */
  ghost predicate IsSet(before: View, after: View, s: Setting, hit: bool) {
    && after.concept == before.concept
    && forall name :: AttrOf(after, name) == if hit && name == s.name then s.value else AttrOf(before, name)
  }

  /** The nodes the rows hold have the value; nothing else changed. */
  ghost predicate OnlySets(g: Graph, h: Graph, rows: seq<Row>, s: Setting) {
    && Ids(h.nodes) == Ids(g.nodes)
    && (forall e :: HasEdge(h, e) <==> HasEdge(g, e))
    && (forall id :: Exists(h, id) <==> Exists(g, id))
    && (forall id :: Exists(g, id) ==> IsSet(ViewOf(g, id).value, ViewOf(h, id).value, s, Hold(rows, s.variable, id)))
  }

  lemma ActionSets(schema: Schema, g: Graph, row: Row, s: Setting)
    requires WellFormed(schema, g)
    ensures WellFormed(schema, s.Act()(g, row)) && OnlySets(g, s.Act()(g, row), [row], s)
  {
    hide WellFormed, HasEdge, AttrSet;
    var h := s.Act()(g, row);
    if Held(row, s.variable).Some? {
      AttrSetWorks(schema, g, Held(row, s.variable).value.id, s.name, s.value);
    }
    forall id ensures Exists(h, id) <==> Exists(g, id) {
      ExistsIsView(g, id);
      ExistsIsView(h, id);
    }
    forall id ensures Hold([row], s.variable, id) <==> NamesAt(row, s.variable, id) {
      assert NamesAt(row, s.variable, id) ==> NamesAt([row][0], s.variable, id);
    }
  }

  lemma HoldMore(rows: seq<Row>, more: seq<Row>, v: string, id: string)
    ensures Hold(rows + more, v, id) <==> Hold(rows, v, id) || Hold(more, v, id)
  {
    hide NamesAt;
    var all := rows + more;
    if i :| 0 <= i < |rows| && NamesAt(rows[i], v, id) {
      assert all[i] == rows[i];
    }
    if i :| 0 <= i < |more| && NamesAt(more[i], v, id) {
      assert all[|rows| + i] == more[i];
    }
  }

  lemma SetMore(g: Graph, h: Graph, k: Graph, rows: seq<Row>, more: seq<Row>, s: Setting)
    requires OnlySets(g, h, rows, s) && OnlySets(h, k, more, s)
    ensures OnlySets(g, k, rows + more, s)
  {
    hide Hold, HasEdge;
    forall id | Exists(g, id) ensures IsSet(ViewOf(g, id).value, ViewOf(k, id).value, s, Hold(rows + more, s.variable, id)) {
      HoldMore(rows, more, s.variable, id);
    }
  }

  /** Acting on rows one after the other sets the property of every node they hold, and nothing else. */
  lemma {:induction false} ActionsSet(schema: Schema, g: Graph, rows: seq<Row>, s: Setting)
    requires WellFormed(schema, g)
    ensures WellFormed(schema, ActOnAll(g, rows, s.Act())) && OnlySets(g, ActOnAll(g, rows, s.Act()), rows, s)
    decreases |rows|
  {
    hide WellFormed, OnlySets;
    if rows == [] {
      NothingSet(g, s);
    } else {
      var first, last := rows[..|rows| - 1], rows[|rows| - 1];
      ActionsSet(schema, g, first, s);
      var h := ActOnAll(g, first, s.Act());
      ActionSets(schema, h, last, s);
      SetMore(g, h, s.Act()(h, last), first, [last], s);
      assert first + [last] == rows;
    }
  }

  lemma NothingSet(g: Graph, s: Setting)
    ensures OnlySets(g, g, [], s)
  {
  }

  // ---- a row that matches -------------------------------------------------------------------------------------

  /** The rows show exactly the nodes that fit, and keep what the row had for the bound variables. */
  ghost predicate ShowFits(m: Merging, g: Graph, row: Row, rows: seq<Row>) {
    && (forall r :: r in rows ==> ShowsSomeFit(m, g, row, r) && KeepsBound(m, g, row, r))
    && (forall ids :: Fits(m, g, row, ids) ==> Shown(m.path, rows, ids))
  }

  ghost predicate ShowsSomeFit(m: Merging, g: Graph, row: Row, r: Row) {
    exists ids :: Fits(m, g, row, ids) && ShowsIds(m.path, r, ids)
  }

  ghost predicate Shown(path: PatternPath, rows: seq<Row>, ids: seq<string>) {
    exists r :: r in rows && ShowsIds(path, r, ids)
  }

  /** The bound variables hold nodes of the graph with the ids they had. */
  ghost predicate KeepsBound(m: Merging, g: Graph, row: Row, r: Row) {
    forall v :: v in m.bound ==> Held(row, v).Some? && Exists(g, Held(row, v).value.id) && NamesAt(r, v, Held(row, v).value.id)
  }

  lemma MatchKeepsBound(m: Merging, g: Graph, row: Row, next: Row)
    requires Mergeable(m) && WellFormed(m.Schema(), g) && RowOk(m, g, row) && next in MatchesOf(m, g, row)
    requires forall v :: v in m.bound ==> Held(row, v).Some? && Held(row, v).value in g.nodes
    requires Anon(row).Some? ==> Anon(row).value in g.nodes
    ensures forall v :: v in m.bound ==> v in next && next[v] == row[v]
  {
    hide M.Apart, M.PathHolds, Rows, P.CompilePath, M.PathJoins, M.PathRow, M.RowFits, M.InputHolds, M.BoundAfter, RowOk;
    CurrentFits(m, g, row, HeldBy(row, m.bound));
    InputIsRow(m, g, row);
    M.PathRows(m.options, g, Some(BindingRow(row)), m.path, m.bound, m.nodeVars, next);
    assert next in MatchesOf(m, g, row);
    var r: Row, ns: seq<Node> :| r in [row] && M.PathJoins(m.Schema(), g, m.path, r, ns, m.bound, true) && next == M.PathRow(m.path, r, ns, m.bound, true);
    forall v | v in m.bound ensures v in next && next[v] == row[v] {
      M.PathKeeps(m.path, row, ns, m.bound, true, m.nodeVars, v);
    }
  }

  /** The rows the matcher finds show exactly the assignments that fit the row. */
  lemma FoundRowsShowFits(m: Merging, g: Graph, row: Row)
    requires Mergeable(m) && WellFormed(m.Schema(), g) && RowOk(m, g, row)
    ensures ShowFits(m, g, row, MatchesOf(m, g, Refreshed(row, g)))
  {
    hide M.Apart, M.FixedLength, P.RelError, WellFormed, RowOk, MatchesOf, IdsNamed, IdsHold, AnchorAgrees, ShowsIds;
    RefreshedHolds(m, g, row);
    var now := Refreshed(row, g);
    assert forall ids :: Fits(m, g, row, ids) <==> Fits(m, g, now, ids);
    forall r | r in MatchesOf(m, g, now) ensures ShowsSomeFit(m, g, row, r) && KeepsBound(m, g, row, r) {
      var ids := MatchGivesFit(m, g, now, r);
      MatchKeepsBound(m, g, now, r);
      RefreshedKeeps(m, g, row);
    }
    forall ids | Fits(m, g, row, ids) ensures Shown(m.path, MatchesOf(m, g, now), ids) {
      var r := FitGivesMatch(m, g, now, ids);
    }
  }

  lemma RefreshedKeeps(m: Merging, g: Graph, row: Row)
    requires RowOk(m, g, row)
    ensures KeepsBound(m, g, row, Refreshed(row, g))
  {
    forall v | v in m.bound ensures Held(row, v).Some? && NamesAt(Refreshed(row, g), v, Held(row, v).value.id) {
      FindIs(g.nodes, row[v].node.id);
    }
  }

  /** The node is assigned to the variable by some nodes that fit. */
  ghost predicate FitsUnder(m: Merging, g: Graph, row: Row, v: string, id: string) {
    exists ids, i :: Fits(m, g, row, ids) && StandsAt(m.path, ids, i, v, id)
  }

  predicate StandsAt(path: PatternPath, ids: seq<string>, i: nat, v: string, id: string) {
    i < |ids| && i < |path.nodes| && path.nodes[i].variable == Some(v) && ids[i] == id
  }

  lemma FoundUnder(m: Merging, g: Graph, row: Row, rows: seq<Row>, v: string, id: string)
    requires ShowFits(m, g, row, rows) && v in VarsOf(m.path)
    ensures Hold(rows, v, id) <==> FitsUnder(m, g, row, v, id)
  {
    hide IdsHold, IdsNamed, AnchorAgrees;
    if k :| 0 <= k < |rows| && NamesAt(rows[k], v, id) {
      assert rows[k] in rows && ShowsSomeFit(m, g, row, rows[k]);
      var ids :| Fits(m, g, row, ids) && ShowsIds(m.path, rows[k], ids);
      var p :| p in m.path.nodes && p.variable == Some(v);
      var i: nat :| i < |m.path.nodes| && m.path.nodes[i] == p;
      assert StandsAt(m.path, ids, i, v, id);
    }
    if ids, i :| Fits(m, g, row, ids) && StandsAt(m.path, ids, i, v, id) {
      assert Shown(m.path, rows, ids);
      var r :| r in rows && ShowsIds(m.path, r, ids);
      var k :| 0 <= k < |rows| && rows[k] == r;
      assert NamesAt(rows[k], v, id);
    }
  }

  /**
   A row that matches: the rows given out show exactly the nodes that fit, and a property set ON MATCH is set at exactly the
   nodes they hold; nothing is created, no relationship changed.
   */
  lemma MatchedRowActs(m: Merging, g: Graph, known: Known, row: Row, s: Setting)
    requires Mergeable(m) && m.path.Valid() && WellFormed(m.Schema(), g) && RowOk(m, g, row) && Matched(m, g, row) && m.onMatch == s.Act()
    ensures MergeRow(m, g, known, row).Some?
    ensures var merged := MergeRow(m, g, known, row).value;
            && merged.created == 0 && merged.known == known && WellFormed(m.Schema(), merged.g)
            && ShowFits(m, g, row, merged.rows) && OnlySets(g, merged.g, merged.rows, s)
            && (s.variable in VarsOf(m.path) ==>
                  forall id :: Exists(g, id) ==> IsSet(ViewOf(g, id).value, ViewOf(merged.g, id).value, s, FitsUnder(m, g, row, s.variable, id)))
  {
    hide Gentle, Fits, RowOk, WellFormed, M.Apart, M.Plannable, HoldsNodes, MatchesOf, WritePattern, Key, ShowFits, Hold, FitsUnder, IsSet, HasEdge;
    var rows := MatchesOf(m, g, Refreshed(row, g));
    MatcherFindsIff(m, g, row);
    T.RefreshedFits(m, g, g, row);
    ActionsSet(m.Schema(), g, rows, s);
    FoundRowsShowFits(m, g, row);
    if s.variable in VarsOf(m.path) {
      forall id ensures Hold(rows, s.variable, id) <==> FitsUnder(m, g, row, s.variable, id) {
        FoundUnder(m, g, row, rows, s.variable, id);
      }
    }
  }

  // ---- a row that is created ----------------------------------------------------------------------------------

  lemma {:induction false} RelsKeepNames(m: Merging, row: Row, ids: seq<string>, k: nat, v: string)
    requires Mergeable(m) && m.path.Valid() && k <= |m.path.rels| < |ids| && v in m.nodeVars
    ensures Held(WithRels(m.path, row, ids, k), v) == Held(row, v)
  {
    hide M.Plannable, P.RelError;
    if k > 0 {
      RelsKeepNames(m, row, ids, k - 1, v);
      M.NamesDiffer(m.nodeVars, m.path, k - 1, 0);
    }
  }

  /** The row that names what was written for another. */
  lemma WrittenRowNames(m: Merging, g: Graph, row: Row)
    requires Mergeable(m) && WellFormed(m.Schema(), g) && RowOk(m, g, row) && m.path.Valid() && WritePattern(m, g, row).Some?
    ensures var made := WritePattern(m, g, row).value;
            ShowsIds(m.path, made.row, made.ids) && forall v :: v in m.bound ==> Held(made.row, v) == Held(row, v)
  {
    hide WellFormed, HasEdge, ViewOf, NodesAdded, M.Plannable, M.Apart, MakeNodes, MakeRels, WithRels, EdgeAt, SameEdges, Exists;
    MakesNodes(m, g, row, |m.path.nodes|);
    var made, after := MakeNodes(m, g, row, |m.path.nodes|).value, WritePattern(m, g, row).value;
    forall v | v in m.nodeVars ensures Held(after.row, v) == Held(made.row, v) {
      RelsKeepNames(m, made.row, made.ids, |m.path.rels|, v);
    }
    forall i | 0 <= i < |made.ids| && m.path.nodes[i].variable.Some? ensures NamesAt(after.row, m.path.nodes[i].variable.value, made.ids[i]) {
      NodeVarNamed(m, i);
      assert NamesAt(made.row, m.path.nodes[i].variable.value, made.ids[i]);
    }
  }

  /** The pattern was written for the row, giving this graph, and the row given out names what was written. */
  ghost predicate WrittenFor(m: Merging, g: Graph, row: Row, mid: Graph, out: Row) {
    exists ids :: Written(m, g, row, mid, ids) && ShowsIds(m.path, out, ids)
  }

  /**
   A row whose pattern was written: a property set ON CREATE is set at exactly the nodes that the row given out holds, and
   nothing but the pattern is added.
   */
  lemma CreatedRowActs(m: Merging, g: Graph, known: Known, row: Row, s: Setting) returns (mid: Graph)
    requires Mergeable(m) && m.path.Valid() && WellFormed(m.Schema(), g) && RowOk(m, g, row) && m.onCreate == s.Act()
    requires MergeRow(m, g, known, row).Some? && MergeRow(m, g, known, row).value.created > 0
    ensures var merged := MergeRow(m, g, known, row).value;
            && |merged.rows| == 1 && !Matched(m, g, row) && Key(m.path, row) !in known && WellFormed(m.Schema(), merged.g)
            && WrittenFor(m, g, Refreshed(row, g), mid, merged.rows[0]) && OnlySets(mid, merged.g, merged.rows, s)
            && KeepsBound(m, g, row, merged.rows[0])
            && merged.known == known[Key(m.path, row) := NewIn(Refreshed(row, g), merged.rows[0])]
  {
    hide Gentle, Fits, RowOk, WellFormed, Mergeable, MatchesOf, WritePattern, Key, Written, OnlySets, HoldsNodes, LabelsKnown, ShowsIds, Refreshed;
    var now := Refreshed(row, g);
    MatcherFindsIff(m, g, row);
    T.RefreshedFits(m, g, g, row);
    var made := WritePattern(m, g, now).value;
    PatternWritten(m, g, now);
    WrittenRowNames(m, g, now);
    WrittenIsWellFormed(m, g, now, made.g, made.ids);
    ActionSets(m.Schema(), made.g, made.row, s);
    RefreshedKeeps(m, g, row);
    mid := made.g;
  }

  lemma WrittenIsWellFormed(m: Merging, g: Graph, row: Row, h: Graph, ids: seq<string>)
    requires Written(m, g, row, h, ids)
    ensures WellFormed(m.Schema(), h)
  {
    hide WellFormed;
  }

  // ---- a whole query ------------------------------------------------------------------------------------------

  /** What the first n rows were answered with: rows that were created, or else rows that were found. */
  function Given(m: Merging, g: Graph, rows: seq<Row>, n: nat, created: bool): seq<Row>
    requires m.path.Valid() && n <= |rows|
  {
    if n == 0 then []
    else
      match MergeFirst(m, g, rows, n - 1)
      case None => []
      case Some(before) =>
        match MergeRow(m, before.g, before.known, rows[n - 1])
        case None => []
        case Some(last) => Given(m, g, rows, n - 1, created) + if (last.created > 0) == created then last.rows else []
  }

  /** What a node was before the ON actions: as it was at first, or as it was written for a node of the pattern. */
  ghost predicate Started(m: Merging, g: Graph, id: string, view: View) {
    if Exists(g, id) then ViewOf(g, id) == Some(view)
    else exists i :: 0 <= i < |m.path.nodes| && IsWrittenAt(m, i, view)
  }

  predicate IsWrittenAt(m: Merging, i: nat, view: View)
    requires i < |m.path.nodes|
  {
    !IsBoundAt(m, i) && view == View(NodeFor(m.Schema(), m.path.nodes[i], "").concept, AttrsOf(m.path.nodes[i].properties))
  }

  /** The property has the value of an action that reached the node, and without one what it had. */
  predicate Acted(before: Option<Scalar>, after: Option<Scalar>, matched: bool, onMatch: Option<Scalar>, created: bool, onCreate: Option<Scalar>) {
    if matched && created then after == onMatch || after == onCreate
    else after == if matched then onMatch else if created then onCreate else before
  }

  ghost predicate Reached(before: View, after: View, s: Setting, matched: bool, t: Setting, created: bool) {
    && after.concept == before.concept
    && forall name :: Acted(AttrOf(before, name), AttrOf(after, name), matched && name == s.name, s.value, created && name == t.name, t.value)
  }

  ghost predicate NodeReached(m: Merging, g: Graph, h: Graph, found: seq<Row>, s: Setting, made: seq<Row>, t: Setting, id: string) {
    exists start :: Started(m, g, id, start) && ViewOf(h, id).Some?
                    && Reached(start, ViewOf(h, id).value, s, Hold(found, s.variable, id), t, Hold(made, t.variable, id))
  }

  /** The rows hold nodes of the graph for the variables in scope. */
  ghost predicate Live(m: Merging, g: Graph, rows: seq<Row>) {
    forall r :: r in rows ==> RowLive(m, g, r)
  }

  ghost predicate RowLive(m: Merging, g: Graph, r: Row) {
    forall v :: v in m.bound + VarsOf(m.path) ==> Held(r, v).Some? && Exists(g, Held(r, v).value.id)
  }

  /** What is remembered names what some created row names, for rows with its bound nodes. */
  ghost predicate Remembered(m: Merging, key: seq<Option<string>>, kept: Row, r: Row) {
    && (forall v :: v in m.bound ==> v !in kept)
    && (forall v :: v in VarsOf(m.path) && v !in m.bound ==> v in kept && v in r && kept[v] == r[v])
    && |key| == |m.path.nodes| && forall i :: 0 <= i < |key| && IsBoundAt(m, i) ==> key[i] == IdIn(r, m.path.nodes[i].variable)
  }

  ghost predicate KnownFrom(m: Merging, known: Known, made: seq<Row>) {
    forall key :: key in known ==> exists r :: r in made && Remembered(m, key, known[key], r)
  }

  /** What the first n rows leave. */
  ghost predicate ActedOn(m: Merging, g: Graph, h: Graph, known: Known, found: seq<Row>, s: Setting, made: seq<Row>, t: Setting) {
    && WellFormed(m.Schema(), h) && Live(m, h, found) && Live(m, h, made) && KnownFrom(m, known, made)
    && (forall id :: Exists(g, id) ==> Exists(h, id))
    && (forall id :: Exists(h, id) ==> NodeReached(m, g, h, found, s, made, t, id))
  }

  /** The two settings are of variables the clause can see. */
  predicate InScope(m: Merging, s: Setting) {
    s.variable in m.bound || s.variable in VarsOf(m.path)
  }

  lemma ReachedByMatch(m: Merging, g: Graph, h: Graph, k: Graph, found: seq<Row>, s: Setting, made: seq<Row>, t: Setting, out: seq<Row>, id: string)
    requires NodeReached(m, g, h, found, s, made, t, id) && OnlySets(h, k, out, s)
    ensures NodeReached(m, g, k, found + out, s, made, t, id)
  {
    hide Hold, HasEdge, IsWrittenAt;
    HoldMore(found, out, s.variable, id);
    var start :| Started(m, g, id, start) && ViewOf(h, id).Some?
                 && Reached(start, ViewOf(h, id).value, s, Hold(found, s.variable, id), t, Hold(made, t.variable, id));
    hide Started;
    assert Exists(h, id);
    assert IsSet(ViewOf(h, id).value, ViewOf(k, id).value, s, Hold(out, s.variable, id));
    assert Reached(start, ViewOf(k, id).value, s, Hold(found + out, s.variable, id), t, Hold(made, t.variable, id));
  }

  lemma ReachedByCreate(m: Merging, g: Graph, h: Graph, k: Graph, found: seq<Row>, s: Setting, made: seq<Row>, t: Setting, out: seq<Row>, id: string)
    requires NodeReached(m, g, h, found, s, made, t, id) && OnlySets(h, k, out, t)
    ensures NodeReached(m, g, k, found, s, made + out, t, id)
  {
    hide Hold, HasEdge, IsWrittenAt;
    HoldMore(made, out, t.variable, id);
    var start :| Started(m, g, id, start) && ViewOf(h, id).Some?
                 && Reached(start, ViewOf(h, id).value, s, Hold(found, s.variable, id), t, Hold(made, t.variable, id));
    hide Started;
    assert Exists(h, id);
    assert IsSet(ViewOf(h, id).value, ViewOf(k, id).value, t, Hold(out, t.variable, id));
    assert Reached(start, ViewOf(k, id).value, s, Hold(found, s.variable, id), t, Hold(made + out, t.variable, id));
  }

  lemma NotHeldYet(m: Merging, g: Graph, rows: seq<Row>, s: Setting, id: string)
    requires Live(m, g, rows) && InScope(m, s) && !Exists(g, id)
    ensures !Hold(rows, s.variable, id)
  {
    hide Exists;
    forall i | 0 <= i < |rows| ensures !NamesAt(rows[i], s.variable, id) {
      assert RowLive(m, g, rows[i]);
    }
  }

  /** Writing the pattern reaches no node that was there, and no row so far holds a node it makes. */
  lemma ReachedByWrite(m: Merging, g: Graph, h: Graph, mid: Graph, row: Row, out: Row, found: seq<Row>, s: Setting, made: seq<Row>, t: Setting, id: string)
    requires Live(m, h, found) && Live(m, h, made) && InScope(m, s) && InScope(m, t) && (forall x :: Exists(g, x) ==> Exists(h, x))
    requires WrittenFor(m, h, row, mid, out) && Exists(mid, id)
    requires Exists(h, id) ==> NodeReached(m, g, h, found, s, made, t, id)
    ensures NodeReached(m, g, mid, found, s, made, t, id)
  {
    hide WellFormed, HasEdge, Exists, ShowsIds, BoundId, Rep, WrittenEdge;
    var ids :| Written(m, h, row, mid, ids) && ShowsIds(m.path, out, ids);
    ExistsIsView(h, id);
    ExistsIsView(mid, id);
    if Exists(h, id) {
      hide Hold, Started;
      assert ViewOf(mid, id) == ViewOf(h, id);
    } else {
      var i: nat :| i < |ids| && ids[i] == id;
      assert IdAt(m, h, row, mid, ids, i);
      assert IsWrittenAt(m, Rep(m.path, i), ViewOf(mid, id).value);
      NotHeldYet(m, h, found, s, id);
      NotHeldYet(m, h, made, t, id);
      assert Started(m, g, id, ViewOf(mid, id).value);
    }
  }

  lemma LiveMore(m: Merging, h: Graph, k: Graph, rows: seq<Row>, more: seq<Row>)
    requires Live(m, h, rows) && Live(m, k, more) && forall id :: Exists(h, id) ==> Exists(k, id)
    ensures Live(m, k, rows + more)
  {
    hide Exists;
  }

  lemma KnownMore(m: Merging, known: Known, made: seq<Row>, more: seq<Row>)
    requires KnownFrom(m, known, made)
    ensures KnownFrom(m, known, made + more)
  {
    hide Remembered;
    forall key | key in known ensures exists r :: r in made + more && Remembered(m, key, known[key], r) {
      var r :| r in made && Remembered(m, key, known[key], r);
      assert r in made + more;
    }
  }

  lemma FoundAreLive(m: Merging, g: Graph, row: Row, rows: seq<Row>)
    requires ShowFits(m, g, row, rows) && m.bound <= m.nodeVars
    ensures Live(m, g, rows)
  {
    hide AnchorAgrees, IdsNamed;
    forall r, v | r in rows && v in m.bound + VarsOf(m.path) ensures Held(r, v).Some? && Exists(g, Held(r, v).value.id) {
      if v in m.bound {
        assert KeepsBound(m, g, row, r);
      } else {
        assert ShowsSomeFit(m, g, row, r);
        var ids :| Fits(m, g, row, ids) && ShowsIds(m.path, r, ids);
        var p :| p in m.path.nodes && p.variable == Some(v);
        var i: nat :| i < |m.path.nodes| && m.path.nodes[i] == p;
        assert NamesAt(r, v, ids[i]);
      }
    }
  }

  lemma CreatedIsLive(m: Merging, g: Graph, now: Row, mid: Graph, row: Row, out: Row)
    requires WrittenFor(m, g, now, mid, out) && KeepsBound(m, g, row, out)
    ensures RowLive(m, mid, out) && (forall id :: Exists(g, id) ==> Exists(mid, id))
  {
    hide WellFormed, HasEdge, BoundId, Rep, WrittenEdge, Exists;
    var ids :| Written(m, g, now, mid, ids) && ShowsIds(m.path, out, ids);
    forall id | Exists(g, id) ensures Exists(mid, id) {
      ExistsIsView(g, id);
      ExistsIsView(mid, id);
    }
    forall v | v in VarsOf(m.path) ensures Held(out, v).Some? && Exists(mid, Held(out, v).value.id) {
      var p :| p in m.path.nodes && p.variable == Some(v);
      var i: nat :| i < |m.path.nodes| && m.path.nodes[i] == p;
      assert NamesAt(out, v, ids[i]) && IdAt(m, g, now, mid, ids, i);
      ExistsIsView(mid, ids[i]);
    }
  }

  /** Two rows hold the same nodes for the variables of the path. */
  ghost predicate SameNodes(m: Merging, r: Row, q: Row) {
    forall v :: v in VarsOf(m.path) ==> Held(r, v).Some? && Held(q, v).Some? && Held(r, v).value.id == Held(q, v).value.id
  }

  lemma KeyAt(m: Merging, row: Row, v: string) returns (i: nat)
    requires v in VarsOf(m.path)
    ensures i < |m.path.nodes| && m.path.nodes[i].variable == Some(v) && Key(m.path, row)[i] == IdIn(row, Some(v))
  {
    var p :| p in m.path.nodes && p.variable == Some(v);
    i :| 0 <= i < |m.path.nodes| && m.path.nodes[i] == p;
  }

  lemma RememberedHolds(m: Merging, g: Graph, row: Row, kept: Row, r: Row, v: string)
    requires RowOk(m, g, row) && RowLive(m, g, r) && Remembered(m, Key(m.path, row), kept, r) && KeepsBound(m, g, row, Refreshed(row, g))
    requires v in m.bound || v in VarsOf(m.path)
    ensures var mixed := Refreshed(row, g) + kept;
            && Held(mixed, v).Some? && Exists(g, Held(mixed, v).value.id)
            && (v in m.bound ==> NamesAt(mixed, v, Held(row, v).value.id))
            && (v in VarsOf(m.path) ==> Held(r, v).Some? && Held(mixed, v).value.id == Held(r, v).value.id)
  {
    hide Refreshed, Exists, Key;
    assert v in m.bound + VarsOf(m.path);
    if v in m.bound {
      assert NamesAt(Refreshed(row, g), v, Held(row, v).value.id);
      if v in VarsOf(m.path) {
        var i := KeyAt(m, row, v);
        assert Key(m.path, row)[i] == IdIn(r, m.path.nodes[i].variable);
      }
    }
  }

  /** A row that is answered with what was written for a row with the same bound nodes holds the same nodes as it. */
  lemma KnownRow(m: Merging, g: Graph, known: Known, row: Row, made: seq<Row>)
    requires Mergeable(m) && RowOk(m, g, row) && KnownFrom(m, known, made) && Live(m, g, made) && Key(m.path, row) in known
    ensures var again := Refreshed(Refreshed(row, g) + known[Key(m.path, row)], g);
            KeepsBound(m, g, row, again) && RowLive(m, g, again) && exists r :: r in made && SameNodes(m, again, r)
  {
    hide Mergeable, Refreshed, Exists, Key, Remembered;
    RefreshedKeeps(m, g, row);
    var kept := known[Key(m.path, row)];
    var mixed := Refreshed(row, g) + kept;
    var r :| r in made && Remembered(m, Key(m.path, row), kept, r);
    assert RowLive(m, g, r);
    forall v | v in m.bound || v in VarsOf(m.path)
      ensures Held(mixed, v).Some? && Exists(g, Held(mixed, v).value.id)
      ensures v in m.bound ==> NamesAt(mixed, v, Held(row, v).value.id)
      ensures v in VarsOf(m.path) ==> Held(r, v).Some? && Held(mixed, v).value.id == Held(r, v).value.id
    {
      RememberedHolds(m, g, row, kept, r, v);
    }
    RefreshedSame(m, g, mixed);
    assert SameNodes(m, Refreshed(mixed, g), r);
    BoundExist(m, g, row);
  }

  lemma BoundExist(m: Merging, g: Graph, row: Row)
    requires RowOk(m, g, row)
    ensures forall v :: v in m.bound ==> Held(row, v).Some? && Exists(g, Held(row, v).value.id)
  {
    hide Exists;
  }

  lemma RefreshedSame(m: Merging, g: Graph, row: Row)
    ensures forall v :: Held(row, v).Some? <==> Held(Refreshed(row, g), v).Some?
    ensures forall v :: Held(row, v).Some? ==> Held(Refreshed(row, g), v).value.id == Held(row, v).value.id
  {
    forall v | Held(row, v).Some? ensures Held(Refreshed(row, g), v).Some? && Held(Refreshed(row, g), v).value.id == Held(row, v).value.id {
      FindIs(g.nodes, row[v].node.id);
    }
  }

  lemma CreatedIsRemembered(m: Merging, g: Graph, row: Row, mid: Graph, out: Row)
    requires Mergeable(m) && RowOk(m, g, row) && RowLive(m, mid, out) && KeepsBound(m, g, row, out)
    ensures Remembered(m, Key(m.path, row), NewIn(Refreshed(row, g), out), out)
  {
    hide M.Plannable, M.Apart, Exists;
    RefreshedKeeps(m, g, row);
    forall v ensures v in Refreshed(row, g) <==> v in row {
    }
    forall v | v in m.bound + VarsOf(m.path) ensures Held(out, v).Some? {
    }
    forall v | v in VarsOf(m.path) ensures v in m.nodeVars {
      var i := KeyAt(m, row, v);
      NodeVarNamed(m, i);
    }
    hide Refreshed;
    var kept := NewIn(Refreshed(row, g), out);
    forall v | v in m.bound ensures v !in kept {
    }
    forall v | v in VarsOf(m.path) && v !in m.bound ensures v in kept && v in out && kept[v] == out[v] {
      assert v !in row && Held(out, v).Some?;
    }
    forall i | 0 <= i < |m.path.nodes| && IsBoundAt(m, i) ensures Key(m.path, row)[i] == IdIn(out, m.path.nodes[i].variable) {
      assert NamesAt(out, m.path.nodes[i].variable.value, Held(row, m.path.nodes[i].variable.value).value.id);
    }
  }

  // ---- one more row -------------------------------------------------------------------------------------------

  lemma MatchedKeepsActed(m: Merging, g: Graph, h: Graph, known: Known, found: seq<Row>, s: Setting, made: seq<Row>, t: Setting, k: Graph, out: seq<Row>)
    requires ActedOn(m, g, h, known, found, s, made, t) && WellFormed(m.Schema(), k) && OnlySets(h, k, out, s) && Live(m, h, out)
    ensures ActedOn(m, g, k, known, found + out, s, made, t)
  {
    hide WellFormed, RowLive, NodeReached, KnownFrom, HasEdge, IsSet, Hold;
    forall id | Exists(k, id) ensures NodeReached(m, g, k, found + out, s, made, t, id) {
      ReachedByMatch(m, g, h, k, found, s, made, t, out, id);
    }
    LiveSame(m, h, k, made);
    LiveSame(m, h, k, found + out);
  }

  lemma LiveSame(m: Merging, h: Graph, k: Graph, rows: seq<Row>)
    requires Live(m, h, rows) && forall id :: Exists(h, id) ==> Exists(k, id)
    ensures Live(m, k, rows)
  {
    hide Exists;
  }

  lemma CreatedKeepsActed(m: Merging, g: Graph, h: Graph, known: Known, found: seq<Row>, s: Setting, made: seq<Row>, t: Setting, row: Row, mid: Graph, k: Graph, out: Row)
    requires Mergeable(m) && RowOk(m, h, row) && ActedOn(m, g, h, known, found, s, made, t) && WellFormed(m.Schema(), k) && InScope(m, s) && InScope(m, t)
    requires WrittenFor(m, h, Refreshed(row, h), mid, out) && OnlySets(mid, k, [out], t) && KeepsBound(m, h, row, out)
    ensures ActedOn(m, g, k, known[Key(m.path, row) := NewIn(Refreshed(row, h), out)], found, s, made + [out], t)
  {
    hide Mergeable, RowOk, WellFormed, RowLive, NodeReached, Remembered, HasEdge, IsSet, Hold, WrittenFor, Refreshed, Key, InScope, KeepsBound, NewIn;
    CreatedIsLive(m, h, Refreshed(row, h), mid, row, out);
    CreatedIsRemembered(m, h, row, mid, out);
    forall id | Exists(k, id) ensures NodeReached(m, g, k, found, s, made + [out], t, id) {
      ReachedByWrite(m, g, h, mid, Refreshed(row, h), out, found, s, made, t, id);
      ReachedByCreate(m, g, mid, k, found, s, made, t, [out], id);
    }
    LiveSame(m, h, k, found);
    LiveMore(m, h, mid, made, [out]);
    LiveSame(m, mid, k, made + [out]);
    KnownMore(m, known, made, [out]);
    assert out in made + [out];
  }

  lemma RowStays(m: Merging, g: Graph, h: Graph, row: Row)
    requires RowOk(m, g, row) && forall id :: Exists(g, id) ==> Exists(h, id)
    ensures RowOk(m, h, row)
  {
    hide Exists;
  }

  lemma ActedOnMore(m: Merging, g: Graph, h: Graph, known: Known, found: seq<Row>, s: Setting, made: seq<Row>, t: Setting, row: Row)
    requires m.path.Valid() && Mergeable(m) && RowOk(m, g, row) && m.onMatch == s.Act() && m.onCreate == t.Act() && InScope(m, s) && InScope(m, t)
    requires ActedOn(m, g, h, known, found, s, made, t) && MergeRow(m, h, known, row).Some?
    ensures var last := MergeRow(m, h, known, row).value;
            && ActedOn(m, g, last.g, last.known, if last.created > 0 then found else found + last.rows, s, if last.created > 0 then made + last.rows else made, t)
            && (if Matched(m, h, row) then last.created == 0 && ShowFits(m, h, row, last.rows)
                else if Key(m.path, row) in known then last.created == 0 && AsWritten(m, h, row, made, last.rows)
                else last.created == 1 && CreatedFor(m, h, row, t, last))
  {
    hide Mergeable, RowOk, WellFormed, RowLive, NodeReached, Remembered, IsSet, Hold, WrittenFor, Refreshed, Key, InScope, KeepsBound, NewIn, MergeRow, Matched, ShowFits, OnlySets, HasEdge, SameNodes;
    RowStays(m, g, h, row);
    var last := MergeRow(m, h, known, row).value;
    if Matched(m, h, row) {
      MatchedRowActs(m, h, known, row, s);
      BoundNamed(m);
      FoundAreLive(m, h, row, last.rows);
      MatchedKeepsActed(m, g, h, known, found, s, made, t, last.g, last.rows);
    } else {
      T.UnmatchedIs(m, h, known, row);
      if Key(m.path, row) in known {
        KnownRow(m, h, known, row, made);
        ActionSets(m.Schema(), h, last.rows[0], s);
        MatchedKeepsActed(m, g, h, known, found, s, made, t, last.g, last.rows);
      } else {
        var mid := CreatedRowActs(m, h, known, row, t);
        CreatedKeepsActed(m, g, h, known, found, s, made, t, row, mid, last.g, last.rows[0]);
        assert last.rows == [last.rows[0]];
      }
    }
  }

  lemma BoundNamed(m: Merging)
    requires Mergeable(m)
    ensures m.bound <= m.nodeVars
  {
    hide M.Plannable, M.Apart;
  }

  /** One row that holds the nodes an earlier row was created with, the bound ones being the row's own. */
  ghost predicate AsWritten(m: Merging, g: Graph, row: Row, made: seq<Row>, out: seq<Row>) {
    |out| == 1 && KeepsBound(m, g, row, out[0]) && exists r :: r in made && SameNodes(m, out[0], r)
  }

  /** One row, and the graph is the pattern written for it with ON CREATE applied. */
  ghost predicate CreatedFor(m: Merging, g: Graph, row: Row, t: Setting, last: Merged) {
    && |last.rows| == 1 && KeepsBound(m, g, row, last.rows[0])
    && exists mid :: WrittenFor(m, g, Refreshed(row, g), mid, last.rows[0]) && OnlySets(mid, last.g, last.rows, t)
  }

  /** What the first n rows leave, with the actions having reached exactly the nodes the rows given out hold. */
  ghost predicate ActedAfter(m: Merging, g: Graph, rows: seq<Row>, n: nat, s: Setting, t: Setting)
    requires m.path.Valid() && n <= |rows|
  {
    match MergeFirst(m, g, rows, n)
    case None => true
    case Some(merged) => ActedOn(m, g, merged.g, merged.known, Given(m, g, rows, n, false), s, Given(m, g, rows, n, true), t)
  }

  lemma NothingActed(m: Merging, g: Graph, s: Setting, t: Setting)
    requires WellFormed(m.Schema(), g)
    ensures ActedOn(m, g, g, map[], [], s, [], t)
  {
    hide WellFormed, HasEdge, RowLive, Remembered;
    forall id | Exists(g, id) ensures NodeReached(m, g, g, [], s, [], t, id) {
      ExistsIsView(g, id);
      assert Started(m, g, id, ViewOf(g, id).value);
    }
  }

  /**
   Over a whole query: a property set ON MATCH is set at exactly the nodes held by rows that were found, one set ON CREATE
   at exactly those held by rows that were created; everything else is as it was, or as it was written.
   */
  lemma {:induction false} ActionsTakeEffect(m: Merging, g: Graph, rows: seq<Row>, n: nat, s: Setting, t: Setting)
    requires m.path.Valid() && n <= |rows| && Mergeable(m) && WellFormed(m.Schema(), g) && T.AllRowsOk(m, g, rows)
    requires m.onMatch == s.Act() && m.onCreate == t.Act() && InScope(m, s) && InScope(m, t)
    ensures ActedAfter(m, g, rows, n, s, t)
  {
    hide Mergeable, RowOk, WellFormed, MergeRow, ActedOn, InScope, Matched, Key, ShowFits, AsWritten, CreatedFor;
    if n == 0 {
      NothingActed(m, g, s, t);
    } else {
      ActionsTakeEffect(m, g, rows, n - 1, s, t);
      var before := MergeFirst(m, g, rows, n - 1);
      if before.Some? && MergeRow(m, before.value.g, before.value.known, rows[n - 1]).Some? {
        ActedOnMore(m, g, before.value.g, before.value.known, Given(m, g, rows, n - 1, false), s, Given(m, g, rows, n - 1, true), t, rows[n - 1]);
        assert Given(m, g, rows, n - 1, true) + [] == Given(m, g, rows, n - 1, true);
        assert Given(m, g, rows, n - 1, false) + [] == Given(m, g, rows, n - 1, false);
      }
    }
  }

  /**
   How each row of a query is answered: with the rows that fit it, if there are any; or else with what was written for an
   earlier row with the same bound nodes; or else with the pattern written for it.
   */
  lemma RowsAreAnswered(m: Merging, g: Graph, rows: seq<Row>, n: nat, s: Setting, t: Setting)
    requires m.path.Valid() && n < |rows| && Mergeable(m) && WellFormed(m.Schema(), g) && T.AllRowsOk(m, g, rows)
    requires m.onMatch == s.Act() && m.onCreate == t.Act() && InScope(m, s) && InScope(m, t)
    requires MergeFirst(m, g, rows, n + 1).Some?
    ensures var before := MergeFirst(m, g, rows, n).value; var last := MergeRow(m, before.g, before.known, rows[n]).value;
            && MergeFirst(m, g, rows, n + 1).value.rows == before.rows + last.rows
            && (if Matched(m, before.g, rows[n]) then last.created == 0 && ShowFits(m, before.g, rows[n], last.rows)
                else if Key(m.path, rows[n]) in before.known then last.created == 0 && AsWritten(m, before.g, rows[n], Given(m, g, rows, n, true), last.rows)
                else last.created == 1 && CreatedFor(m, before.g, rows[n], t, last))
  {
    hide Mergeable, RowOk, WellFormed, MergeRow, ActedOn, InScope, Matched, Key, ShowFits, AsWritten, CreatedFor, Given;
    ActionsTakeEffect(m, g, rows, n, s, t);
    var before := MergeFirst(m, g, rows, n).value;
    ActedOnMore(m, g, before.g, before.known, Given(m, g, rows, n, false), s, Given(m, g, rows, n, true), t, rows[n]);
  }
}
