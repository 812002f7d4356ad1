/**
 What MERGE writes, and which rows match it.

 `PatternWritten` says exactly what writing a pattern adds: a node for each new variable, and the pattern's relationships.
 So `WrittenMatchesIff` can tell, before anything is written, which rows will match: the old graph is joined with the
 pattern itself. A path is connected, so without bound variables a match lies wholly in what was there or wholly in what
 was written (`UnboundWrittenIff`): a row that did not match does afterwards exactly if what the pattern writes fits the
 pattern (`ReadsBack`, a check of the pattern alone) and no earlier clause left an anonymous first node in the row.
 */
module WrittenPatterns {
  import opened Wrappers
  import opened Values
  import opened Query
  import opened Evaluation
  import opened Graphs
  import opened Seqs
  import opened Operators
  import P = Planner
  import opened GraphWrites
  import M = MatchExactness
  import opened Merging

  // ---- what writing the pattern gives -------------------------------------------------------------------------

  /** The first position of the path that shares its node with this one. */
  function Rep(path: PatternPath, i: nat): (r: nat)
    requires i < |path.nodes|
    ensures r <= i && path.nodes[r].variable == path.nodes[i].variable
  {
    match path.nodes[i].variable
    case None => i
    case Some(v) =>
      assert path.nodes[i] in path.nodes;
      At(path.nodes, v)
  }

  lemma RepIsFirst(path: PatternPath, i: nat, j: nat)
    requires i < |path.nodes| && j < |path.nodes|
    ensures Rep(path, Rep(path, i)) == Rep(path, i)
    ensures Rep(path, i) == Rep(path, j) <==> i == j || (path.nodes[i].variable.Some? && path.nodes[i].variable == path.nodes[j].variable)
  {
  }

  function BoundId(m: Merging, row: Row, i: nat): string
    requires i < |m.path.nodes|
  {
    if IdIn(row, m.path.nodes[i].variable).Some? then IdIn(row, m.path.nodes[i].variable).value else ""
  }

  /** The row keeps what it held and names the ids of the first n positions. */
  ghost predicate RowNames(path: PatternPath, row: Row, made: Row, ids: seq<string>, n: nat) {
    && n <= |path.nodes| && |ids| == n
    && (forall i :: 0 <= i < n && path.nodes[i].variable.Some? ==> NamesAt(made, path.nodes[i].variable.value, ids[i]))
    && (forall v :: v in row ==> v in made && made[v] == row[v])
    && (forall v :: v in made && v !in row ==> exists i :: 0 <= i < n && path.nodes[i].variable == Some(v))
  }

  /** A bound position's node is the row's; any other is new, and was made for the first position it is at. */
  predicate IdAt(m: Merging, g: Graph, row: Row, h: Graph, ids: seq<string>, i: nat)
    requires i < |ids| && i < |m.path.nodes|
  {
    if IsBoundAt(m, i) then ids[i] == BoundId(m, row, i) && Exists(g, ids[i])
    else
      var r := Rep(m.path, i);
      && !Exists(g, ids[i]) && ids[i] == ids[r]
      && ViewOf(h, ids[i]) == Some(View(NodeFor(m.Schema(), m.path.nodes[r], "").concept, AttrsOf(m.path.nodes[r].properties)))
  }

  /** The graph is the old one and a node for every new variable among the first n positions. */
  ghost predicate NodesAdded(m: Merging, g: Graph, row: Row, h: Graph, ids: seq<string>, n: nat) {
    && n <= |m.path.nodes| && |ids| == n
    && (forall i :: 0 <= i < n ==> IdAt(m, g, row, h, ids, i))
    && (forall i, j :: 0 <= j < i < n && !IsBoundAt(m, i) && ids[i] == ids[j] ==> Rep(m.path, i) == Rep(m.path, j))
    && (forall x :: Exists(h, x) ==> Exists(g, x) || x in ids)
    && (forall x :: Exists(g, x) ==> ViewOf(h, x) == ViewOf(g, x))
  }

  ghost predicate SameEdges(g: Graph, h: Graph) {
    forall e :: HasEdge(h, e) <==> HasEdge(g, e)
  }

  lemma NodeVarNamed(m: Merging, n: nat)
    requires Mergeable(m) && n < |m.path.nodes| && m.path.nodes[n].variable.Some?
    ensures m.path.nodes[n].variable.value in m.nodeVars
  {
    hide M.Plannable;
    assert m.path.nodes[n] in m.path.nodes;
  }

  lemma NamesReused(m: Merging, row: Row, made: Made, n: nat, v: string)
    requires RowNames(m.path, row, made.row, made.ids, n) && n < |m.path.nodes| && m.path.nodes[n].variable == Some(v) && Held(made.row, v).Some?
    ensures RowNames(m.path, row, made.row, made.ids + [Held(made.row, v).value.id], n + 1)
  {
  }

  lemma NamesCreated(m: Merging, row: Row, made: Made, n: nat, node: Node)
    requires RowNames(m.path, row, made.row, made.ids, n) && n < |m.path.nodes|
    requires m.path.nodes[n].variable.Some? ==> m.path.nodes[n].variable.value !in made.row
    ensures RowNames(m.path, row, if m.path.nodes[n].variable.Some? then made.row[m.path.nodes[n].variable.value := NodeV(node)] else made.row, made.ids + [node.id], n + 1)
  {
    var after := if m.path.nodes[n].variable.Some? then made.row[m.path.nodes[n].variable.value := NodeV(node)] else made.row;
    var ids := made.ids + [node.id];
    forall i | 0 <= i < n + 1 && m.path.nodes[i].variable.Some? ensures NamesAt(after, m.path.nodes[i].variable.value, ids[i]) {
      assert i < n ==> NamesAt(made.row, m.path.nodes[i].variable.value, made.ids[i]);
    }
  }

  /** A variable of the pattern that is in the row is bound, or stands at an earlier position. */
  lemma ReusedIs(m: Merging, g: Graph, row: Row, made: Made, n: nat)
    requires Mergeable(m) && RowOk(m, g, row) && RowNames(m.path, row, made.row, made.ids, n) && n < |m.path.nodes|
    requires InRow(made.row, m.path.nodes[n].variable)
    ensures Held(made.row, m.path.nodes[n].variable.value).Some?
    ensures var id := Held(made.row, m.path.nodes[n].variable.value).value.id;
            if IsBoundAt(m, n) then id == BoundId(m, row, n) && Exists(g, id) else Rep(m.path, n) < n && id == made.ids[Rep(m.path, n)]
  {
    hide M.Plannable, M.Apart, Exists;
    NodeVarNamed(m, n);
    var v := m.path.nodes[n].variable.value;
    if v !in row {
      var i: nat :| i < n && m.path.nodes[i].variable == Some(v);
      RepIsFirst(m.path, i, n);
      assert NamesAt(made.row, v, made.ids[Rep(m.path, n)]);
    } else {
      assert v in m.bound;
    }
  }

  lemma ReuseAdds(m: Merging, g: Graph, row: Row, h: Graph, ids: seq<string>, n: nat, id: string)
    requires NodesAdded(m, g, row, h, ids, n) && n < |m.path.nodes|
    requires if IsBoundAt(m, n) then id == BoundId(m, row, n) && Exists(g, id) else Rep(m.path, n) < n && id == ids[Rep(m.path, n)]
    ensures NodesAdded(m, g, row, h, ids + [id], n + 1)
  {
    hide Exists, ViewOf, BoundId, NodeFor, AttrsOf, Rep;
    var r, more := Rep(m.path, n), ids + [id];
    RepIsFirst(m.path, n, n);
    assert IsBoundAt(m, r) == IsBoundAt(m, n);
    forall i | 0 <= i < n ensures IdAt(m, g, row, h, more, i) {
      assert IdAt(m, g, row, h, ids, i);
    }
    assert !IsBoundAt(m, n) ==> IdAt(m, g, row, h, ids, r);
    forall j | 0 <= j < n && !IsBoundAt(m, n) && id == ids[j] ensures r == Rep(m.path, j) {
      RepIsFirst(m.path, r, j);
      assert IdAt(m, g, row, h, ids, j);
      assert j < r || r < j || j == r;
    }
  }

  lemma CreateAdds(m: Merging, g: Graph, row: Row, h: Graph, ids: seq<string>, n: nat, k: Graph, id: string)
    requires NodesAdded(m, g, row, h, ids, n) && n < |m.path.nodes| && !IsBoundAt(m, n) && Rep(m.path, n) == n
    requires !Exists(h, id) && forall x :: ViewOf(k, x) == if x == id then Some(View(NodeFor(m.Schema(), m.path.nodes[n], "").concept, AttrsOf(m.path.nodes[n].properties))) else ViewOf(h, x)
    ensures NodesAdded(m, g, row, k, ids + [id], n + 1)
  {
    hide Exists, BoundId, NodeFor, AttrsOf, Rep, ViewOf;
    var more := ids + [id];
    assert !Exists(g, id) by {
      assert Exists(g, id) ==> ViewOf(h, id) == ViewOf(g, id);
      ExistsIsView(g, id);
      ExistsIsView(h, id);
    }
    forall i | 0 <= i < n ensures IdAt(m, g, row, k, more, i) && ids[i] != id {
      assert IdAt(m, g, row, h, ids, i);
      ExistsIsView(h, ids[i]);
      ExistsIsView(g, ids[i]);
    }
    forall x ensures Exists(k, x) ==> Exists(g, x) || x in more {
      ExistsIsView(k, x);
      ExistsIsView(h, x);
      assert x in ids ==> x in more;
      assert more[n] == id;
    }
    forall x | Exists(g, x) ensures ViewOf(k, x) == ViewOf(g, x) {
    }
  }

  lemma ExistsIsView(g: Graph, x: string)
    ensures Exists(g, x) <==> ViewOf(g, x).Some?
  {
  }

  ghost predicate NodesMade(m: Merging, g: Graph, row: Row, made: Made, n: nat) {
    && WellFormed(m.Schema(), made.g) && SameEdges(g, made.g)
    && RowNames(m.path, row, made.row, made.ids, n) && NodesAdded(m, g, row, made.g, made.ids, n)
  }

  lemma CreateMakes(m: Merging, g: Graph, row: Row, made: Made, n: nat)
    requires Mergeable(m) && RowOk(m, g, row) && NodesMade(m, g, row, made, n) && n < |m.path.nodes| && !InRow(made.row, m.path.nodes[n].variable)
    ensures var node := NodeFor(m.Schema(), m.path.nodes[n], m.newId(made.g));
            NodesMade(m, g, row, Made(Created(made.g, node.id, node.concept, node.attrs),
                                      if m.path.nodes[n].variable.Some? then made.row[m.path.nodes[n].variable.value := NodeV(node)] else made.row,
                                      made.ids + [node.id]), n + 1)
  {
    var node := NodeFor(m.Schema(), m.path.nodes[n], m.newId(made.g));
    var k := Created(made.g, node.id, node.concept, node.attrs);
    CreatedWorks(m.Schema(), made.g, node.id, node.concept, node.attrs);
    assert !IsBoundAt(m, n) && Rep(m.path, n) == n by {
      hide WellFormed, NodesAdded, M.Plannable, M.Apart;
      var r := Rep(m.path, n);
      assert r < n && m.path.nodes[r].variable.Some? ==> NamesAt(made.row, m.path.nodes[r].variable.value, made.ids[r]);
    }
    hide WellFormed, HasEdge, Exists, ViewOf, M.Plannable, M.Apart, Created, RowNames, NodesAdded, Rep;
    NamesCreated(m, row, made, n, node);
    CreateAdds(m, g, row, made.g, made.ids, n, k, node.id);
  }

  lemma ReuseMakes(m: Merging, g: Graph, row: Row, made: Made, n: nat)
    requires Mergeable(m) && RowOk(m, g, row) && NodesMade(m, g, row, made, n) && n < |m.path.nodes| && InRow(made.row, m.path.nodes[n].variable)
    ensures Held(made.row, m.path.nodes[n].variable.value).Some?
    ensures NodesMade(m, g, row, made.(ids := made.ids + [Held(made.row, m.path.nodes[n].variable.value).value.id]), n + 1)
  {
    hide HasEdge, Exists, ViewOf, Mergeable, RowOk, NodesAdded, RowNames, WellFormed, BoundId, Rep;
    ReusedIs(m, g, row, made, n);
    var id := Held(made.row, m.path.nodes[n].variable.value).value.id;
    NamesReused(m, row, made, n, m.path.nodes[n].variable.value);
    ReuseAdds(m, g, row, made.g, made.ids, n, id);
  }

  lemma MakesOneMore(m: Merging, g: Graph, row: Row, n: nat, made: Made)
    requires Mergeable(m) && RowOk(m, g, row) && n < |m.path.nodes| && MakeNodes(m, g, row, n) == Some(made) && NodesMade(m, g, row, made, n)
    requires MakeNodes(m, g, row, n + 1).Some?
    ensures NodesMade(m, g, row, MakeNodes(m, g, row, n + 1).value, n + 1)
  {
    hide Mergeable, Created, RowOk, NodesMade;
    if InRow(made.row, m.path.nodes[n].variable) {
      ReuseMakes(m, g, row, made, n);
    } else {
      CreateMakes(m, g, row, made, n);
    }
  }

  /** Making the nodes adds exactly what is not bound, a node for each new variable. */
  lemma {:induction false} MakesNodes(m: Merging, g: Graph, row: Row, n: nat)
    requires Mergeable(m) && WellFormed(m.Schema(), g) && RowOk(m, g, row) && n <= |m.path.nodes| && MakeNodes(m, g, row, n).Some?
    ensures NodesMade(m, g, row, MakeNodes(m, g, row, n).value, n)
  {
    hide Mergeable, RowOk, WellFormed, NodesMade;
    if n == 0 {
      NothingMade(m, g, row);
    } else {
      MakesNodes(m, g, row, n - 1);
      MakesOneMore(m, g, row, n - 1, MakeNodes(m, g, row, n - 1).value);
    }
  }

  lemma NothingMade(m: Merging, g: Graph, row: Row)
    requires WellFormed(m.Schema(), g)
    ensures NodesMade(m, g, row, Made(g, row, []), 0)
  {
    hide WellFormed;
  }

  /** Making the relationships adds them and changes nothing else. */
  lemma {:induction false} RelsMade(m: Merging, g: Graph, ids: seq<string>, k: nat)
    requires WellFormed(m.Schema(), g) && k <= |m.path.rels| < |ids| && MakeRels(m, g, ids, k).Some?
    ensures WellFormed(m.Schema(), MakeRels(m, g, ids, k).value)
    ensures forall x :: ViewOf(MakeRels(m, g, ids, k).value, x) == ViewOf(g, x)
    ensures forall e :: HasEdge(MakeRels(m, g, ids, k).value, e) <==> HasEdge(g, e) || exists i :: 0 <= i < k && e == EdgeAt(m.path, ids, i)
  {
    hide WellFormed, HasEdge, EdgeAt, ViewOf;
    if k > 0 {
      RelsMade(m, g, ids, k - 1);
      var h := MakeRels(m, g, ids, k - 1).value;
      var e := EdgeAt(m.path, ids, k - 1);
      if !HasEdge(h, e) {
        EdgeAddedWorks(m.Schema(), h, e);
      }
    }
  }

  predicate WrittenEdge(path: PatternPath, ids: seq<string>, e: Edge)
    requires |path.rels| < |ids|
  {
    exists k :: 0 <= k < |path.rels| && e == EdgeAt(path, ids, k)
  }

  /** The graph is the old one with the pattern written for a row: its new nodes, and its relationships. */
  ghost predicate Written(m: Merging, g: Graph, row: Row, h: Graph, ids: seq<string>) {
    && WellFormed(m.Schema(), h) && |ids| == |m.path.rels| + 1
    && NodesAdded(m, g, row, h, ids, |m.path.nodes|)
    && (forall e :: HasEdge(h, e) <==> HasEdge(g, e) || WrittenEdge(m.path, ids, e))
  }

  lemma NodesAddedSame(m: Merging, g: Graph, row: Row, h: Graph, k: Graph, ids: seq<string>, n: nat)
    requires NodesAdded(m, g, row, h, ids, n) && forall x :: ViewOf(k, x) == ViewOf(h, x)
    ensures NodesAdded(m, g, row, k, ids, n)
  {
    hide ViewOf, Exists, BoundId, NodeFor, AttrsOf, Rep;
    forall x ensures Exists(k, x) <==> Exists(h, x) {
      ExistsIsView(k, x);
      ExistsIsView(h, x);
    }
    forall i | 0 <= i < n ensures IdAt(m, g, row, k, ids, i) {
      assert IdAt(m, g, row, h, ids, i);
    }
  }

  lemma PatternWritten(m: Merging, g: Graph, row: Row)
    requires Mergeable(m) && WellFormed(m.Schema(), g) && RowOk(m, g, row) && m.path.Valid() && WritePattern(m, g, row).Some?
    ensures Written(m, g, row, WritePattern(m, g, row).value.g, WritePattern(m, g, row).value.ids)
  {
    hide WellFormed, HasEdge, ViewOf, NodesAdded, RowNames, M.Plannable, M.Apart, RowOk, MakeNodes, MakeRels, WithRels, EdgeAt;
    MakesNodes(m, g, row, |m.path.nodes|);
    var made := MakeNodes(m, g, row, |m.path.nodes|).value;
    RelsMade(m, made.g, made.ids, |m.path.rels|);
    NodesAddedSame(m, g, row, made.g, MakeRels(m, made.g, made.ids, |m.path.rels|).value, made.ids, |m.path.nodes|);
  }

  lemma WrittenIsGentle(m: Merging, g: Graph, row: Row, h: Graph, ids: seq<string>)
    requires Written(m, g, row, h, ids)
    ensures Gentle(m, g, h)
  {
    hide WellFormed, HasEdge, AsksFor, Follows, IdAt, Rep, WrittenEdge;
  }

  // ---- which rows match what was written ----------------------------------------------------------------------

  /** A node of the written graph: one that was there, or the one made for a position. */
  datatype Place = Old(id: string) | New(at: nat)

  function PlaceOf(m: Merging, row: Row, i: nat): Place
    requires i < |m.path.nodes|
  {
    if IsBoundAt(m, i) then Old(BoundId(m, row, i)) else New(Rep(m.path, i))
  }

  /** Where the pattern is written for a row. */
  function PlacesOf(m: Merging, row: Row): (r: seq<Place>)
    ensures |r| == |m.path.nodes| && forall i :: 0 <= i < |r| ==> r[i] == PlaceOf(m, row, i)
  {
    seq(|m.path.nodes|, i requires 0 <= i < |m.path.nodes| => PlaceOf(m, row, i))
  }

  /** A position whose node is made, and is the first of its variable. */
  predicate IsNew(m: Merging, r: nat) {
    r < |m.path.nodes| && !IsBoundAt(m, r) && Rep(m.path, r) == r
  }

  predicate PlaceMatches(m: Merging, g: Graph, p: NodePattern, place: Place) {
    match place
    case Old(id) => Exists(g, id) && M.NodeMatches(m.Schema(), p, NodeOf(g, id))
    case New(r) => IsNew(m, r) && M.NodeMatches(m.Schema(), p, NodeFor(m.Schema(), m.path.nodes[r], ""))
  }

  /** A relationship of the old graph, or one of the pattern's own. */
  predicate LinkThere(m: Merging, g: Graph, places: seq<Place>, l: Link<Place>)
    requires |m.path.rels| < |places|
  {
    || (l.from.Old? && l.to.Old? && HasEdge(g, Edge(l.from.id, l.member, l.to.id)))
    || exists k :: 0 <= k < |m.path.rels| && l == LinkAt(m.path, places, k)
  }

  /** The pattern fits the old graph joined with itself, written for one row, under what another row fixes. */
  ghost predicate FitsJoined(m: Merging, g: Graph, written: Row, row: Row, ps: seq<Place>) {
    && |ps| == |m.path.nodes| == |m.path.rels| + 1
    && (forall i :: 0 <= i < |ps| ==> PlaceMatches(m, g, m.path.nodes[i], ps[i]))
    && (forall i, j :: 0 <= i < j < |ps| && m.path.nodes[i].variable.Some? && m.path.nodes[i].variable == m.path.nodes[j].variable ==> ps[i] == ps[j])
    && (forall i :: 0 <= i < |ps| && IsBoundAt(m, i) ==> ps[i] == Old(BoundId(m, row, i)))
    && (forall i :: 0 <= i < |m.path.rels| ==> LinkThere(m, g, PlacesOf(m, written), LinkAt(m.path, ps, i)))
    && (m.path.nodes[0].variable.None? && M.ANON_ANCHOR in row && row[M.ANON_ANCHOR].NodeV? ==> ps[0] == Old(row[M.ANON_ANCHOR].node.id))
  }

  function FirstAt(ids: seq<string>, id: string): (r: nat)
    requires id in ids
    ensures r < |ids| && ids[r] == id && forall j :: 0 <= j < r ==> ids[j] != id
  {
    if ids[0] == id then 0 else 1 + FirstAt(ids[1..], id)
  }

  function PlaceOfId(g: Graph, ids: seq<string>, id: string): Place {
    if Exists(g, id) || id !in ids then Old(id) else New(FirstAt(ids, id))
  }

  function IdOf(ids: seq<string>, place: Place): string {
    match place
    case Old(id) => id
    case New(r) => if r < |ids| then ids[r] else ""
  }

  lemma PlaceOfWritten(m: Merging, g: Graph, row: Row, h: Graph, ids: seq<string>, k: nat)
    requires NodesAdded(m, g, row, h, ids, |m.path.nodes|) && k < |ids|
    ensures PlaceOfId(g, ids, ids[k]) == PlaceOf(m, row, k) && IdOf(ids, PlaceOf(m, row, k)) == ids[k]
    ensures !IsBoundAt(m, k) ==> IsNew(m, Rep(m.path, k))
  {
    hide Exists, ViewOf, BoundId, NodeFor, AttrsOf, Rep;
    assert IdAt(m, g, row, h, ids, k);
    if !IsBoundAt(m, k) {
      var f, r := FirstAt(ids, ids[k]), Rep(m.path, k);
      RepIsFirst(m.path, k, f);
      RepIsFirst(m.path, f, k);
      assert IdAt(m, g, row, h, ids, f);
      assert f <= r <= k;
      assert f != k ==> Rep(m.path, k) == Rep(m.path, f);
    }
  }

  lemma LinkIds(path: PatternPath, ps: seq<Place>, ids: seq<string>, made: seq<string>, i: nat)
    requires i < |path.rels| && i + 1 < |ids| && |ids| == |ps| && forall j :: 0 <= j < |ps| ==> ids[j] == IdOf(made, ps[j])
    ensures var l, e := LinkAt(path, ps, i), EdgeAt(path, ids, i); e == Edge(IdOf(made, l.from), l.member, IdOf(made, l.to))
  {
  }

  lemma LinkPlaces(path: PatternPath, ps: seq<Place>, ids: seq<string>, g: Graph, made: seq<string>, i: nat)
    requires i < |path.rels| && i + 1 < |ids| && |ids| == |ps| && forall j :: 0 <= j < |ps| ==> ps[j] == PlaceOfId(g, made, ids[j])
    ensures var l, e := LinkAt(path, ps, i), EdgeAt(path, ids, i); l == Link(PlaceOfId(g, made, e.from), e.member, PlaceOfId(g, made, e.to))
  {
    hide PlaceOfId;
  }

  lemma SameViewMatches(schema: Schema, p: NodePattern, a: Node, b: Node)
    requires a.concept == b.concept && a.attrs == b.attrs
    ensures M.NodeMatches(schema, p, a) <==> M.NodeMatches(schema, p, b)
  {
  }

  lemma EdgeEnds(m: Merging, g: Graph, e: Edge)
    requires WellFormed(m.Schema(), g) && HasEdge(g, e)
    ensures Exists(g, e.from) && Exists(g, e.to)
  {
  }

  /** A node of the written graph is at one place, and matches a pattern there as it does in the graph. */
  lemma MatchesByPlace(m: Merging, g: Graph, row: Row, h: Graph, ids: seq<string>, p: NodePattern, id: string)
    requires NodesAdded(m, g, row, h, ids, |m.path.nodes|) && Exists(h, id)
    ensures PlaceMatches(m, g, p, PlaceOfId(g, ids, id)) <==> M.NodeMatches(m.Schema(), p, NodeOf(h, id))
    ensures IdOf(ids, PlaceOfId(g, ids, id)) == id
  {
    hide M.NodeMatches, BoundId;
    if Exists(g, id) {
      assert ViewOf(h, id) == ViewOf(g, id);
      SameViewMatches(m.Schema(), p, NodeOf(g, id), NodeOf(h, id));
    } else {
      var f := FirstAt(ids, id);
      PlaceOfWritten(m, g, row, h, ids, f);
      assert IdAt(m, g, row, h, ids, f);
      hide Rep;
      var r := Rep(m.path, f);
      SameViewMatches(m.Schema(), p, NodeFor(m.Schema(), m.path.nodes[r], ""), NodeOf(h, id));
    }
  }

  /** The place of an id and back, for places that are there. */
  lemma PlaceOfIdOf(m: Merging, g: Graph, row: Row, h: Graph, ids: seq<string>, p: NodePattern, place: Place)
    requires NodesAdded(m, g, row, h, ids, |m.path.nodes|) && PlaceMatches(m, g, p, place)
    ensures Exists(h, IdOf(ids, place)) && PlaceOfId(g, ids, IdOf(ids, place)) == place
  {
    hide M.NodeMatches, BoundId, Rep, NodeFor, AttrsOf, ViewOf, Exists;
    match place {
      case Old(id) =>
        ExistsIsView(g, id);
        ExistsIsView(h, id);
      case New(r) =>
        PlaceOfWritten(m, g, row, h, ids, r);
        assert IdAt(m, g, row, h, ids, r);
        ExistsIsView(h, ids[r]);
    }
  }

  lemma FitGivesPlaces(m: Merging, g: Graph, written: Row, h: Graph, made: seq<string>, row: Row, ids: seq<string>) returns (ps: seq<Place>)
    requires Mergeable(m) && WellFormed(m.Schema(), g) && Written(m, g, written, h, made) && RowOk(m, g, row) && Fits(m, h, row, ids)
    ensures FitsJoined(m, g, written, row, ps)
  {
    hide M.Plannable, M.Apart, NodesAdded, Exists, HasEdge, WellFormed, M.NodeMatches, PlaceOfId, PlaceMatches, LinkAt, EdgeAt;
    ps := seq(|ids|, i requires 0 <= i < |ids| => PlaceOfId(g, made, ids[i]));
    forall i | 0 <= i < |ps| ensures PlaceMatches(m, g, m.path.nodes[i], ps[i]) {
      MatchesByPlace(m, g, written, h, made, m.path.nodes[i], ids[i]);
    }
    forall i | 0 <= i < |m.path.rels| ensures LinkThere(m, g, PlacesOf(m, written), LinkAt(m.path, ps, i)) {
      LinkBack(m, g, written, h, made, ps, ids, i);
    }
    BoundPlaces(m, g, made, row, ps, ids);
  }

  lemma BoundPlaces(m: Merging, g: Graph, made: seq<string>, row: Row, ps: seq<Place>, ids: seq<string>)
    requires RowOk(m, g, row) && IdsNamed(m.path, ids, row, m.bound) && AnchorAgrees(m.path, ids, row) && |ps| == |ids| > 0
    requires forall i :: 0 <= i < |ps| ==> ps[i] == PlaceOfId(g, made, ids[i])
    ensures forall i :: 0 <= i < |ps| && IsBoundAt(m, i) ==> ps[i] == Old(BoundId(m, row, i))
    ensures m.path.nodes[0].variable.None? && M.ANON_ANCHOR in row && row[M.ANON_ANCHOR].NodeV? ==> ps[0] == Old(row[M.ANON_ANCHOR].node.id)
  {
    hide Exists;
  }

  lemma LinkBack(m: Merging, g: Graph, written: Row, h: Graph, made: seq<string>, ps: seq<Place>, ids: seq<string>, i: nat)
    requires WellFormed(m.Schema(), g) && Written(m, g, written, h, made) && i < |m.path.rels| && i + 1 < |ids| == |ps| && m.path.Valid()
    requires HasEdge(h, EdgeAt(m.path, ids, i)) && forall j :: 0 <= j < |ps| ==> ps[j] == PlaceOfId(g, made, ids[j])
    ensures LinkThere(m, g, PlacesOf(m, written), LinkAt(m.path, ps, i))
  {
    hide NodesAdded, HasEdge, WellFormed, LinkAt, EdgeAt;
    var e, places := EdgeAt(m.path, ids, i), PlacesOf(m, written);
    LinkPlaces(m.path, ps, ids, g, made, i);
    if HasEdge(g, e) {
      EdgeEnds(m, g, e);
    } else {
      hide Exists, PlaceOfId, PlaceOf;
      var k :| 0 <= k < |m.path.rels| && e == EdgeAt(m.path, made, k);
      forall j | 0 <= j < |places| ensures places[j] == PlaceOfId(g, made, made[j]) {
        PlaceOfWritten(m, g, written, h, made, j);
      }
      LinkPlaces(m.path, places, made, g, made, k);
    }
  }

  lemma PlacesGiveFit(m: Merging, g: Graph, written: Row, h: Graph, made: seq<string>, row: Row, ps: seq<Place>) returns (ids: seq<string>)
    requires Mergeable(m) && Written(m, g, written, h, made) && RowOk(m, g, row) && FitsJoined(m, g, written, row, ps)
    ensures Fits(m, h, row, ids)
  {
    hide M.Plannable, M.Apart, NodesAdded, Exists, HasEdge, WellFormed, M.NodeMatches, PlaceOfId, PlaceMatches, LinkAt, EdgeAt, IdOf, LinkThere;
    ids := seq(|ps|, i requires 0 <= i < |ps| => IdOf(made, ps[i]));
    forall i | 0 <= i < |ps| ensures Exists(h, ids[i]) && M.NodeMatches(m.Schema(), m.path.nodes[i], NodeOf(h, ids[i])) {
      PlaceOfIdOf(m, g, written, h, made, m.path.nodes[i], ps[i]);
      MatchesByPlace(m, g, written, h, made, m.path.nodes[i], ids[i]);
    }
    forall i | 0 <= i < |m.path.rels| ensures HasEdge(h, EdgeAt(m.path, ids, i)) {
      LinkForth(m, g, written, h, made, ps, ids, i);
    }
    assert IdsHold(m.Schema(), h, m.path, ids);
    NamedPlaces(m, g, made, row, ps, ids);
  }

  lemma NamedPlaces(m: Merging, g: Graph, made: seq<string>, row: Row, ps: seq<Place>, ids: seq<string>)
    requires RowOk(m, g, row) && |ps| == |ids| == |m.path.nodes| > 0 && forall i :: 0 <= i < |ps| ==> ids[i] == IdOf(made, ps[i])
    requires forall i, j :: 0 <= i < j < |ps| && m.path.nodes[i].variable.Some? && m.path.nodes[i].variable == m.path.nodes[j].variable ==> ps[i] == ps[j]
    requires forall i :: 0 <= i < |ps| && IsBoundAt(m, i) ==> ps[i] == Old(BoundId(m, row, i))
    requires m.path.nodes[0].variable.None? && M.ANON_ANCHOR in row && row[M.ANON_ANCHOR].NodeV? ==> ps[0] == Old(row[M.ANON_ANCHOR].node.id)
    ensures IdsNamed(m.path, ids, row, m.bound) && AnchorAgrees(m.path, ids, row)
  {
    hide Exists;
  }

  lemma LinkForth(m: Merging, g: Graph, written: Row, h: Graph, made: seq<string>, ps: seq<Place>, ids: seq<string>, i: nat)
    requires Written(m, g, written, h, made) && i < |m.path.rels| && i + 1 < |ids| == |ps| && m.path.Valid()
    requires LinkThere(m, g, PlacesOf(m, written), LinkAt(m.path, ps, i)) && forall j :: 0 <= j < |ps| ==> ids[j] == IdOf(made, ps[j])
    ensures HasEdge(h, EdgeAt(m.path, ids, i))
  {
    hide NodesAdded, HasEdge, WellFormed, LinkAt, EdgeAt, Exists, PlaceOf;
    var l, places := LinkAt(m.path, ps, i), PlacesOf(m, written);
    LinkIds(m.path, ps, ids, made, i);
    if !(l.from.Old? && l.to.Old? && HasEdge(g, Edge(l.from.id, l.member, l.to.id))) {
      hide IdOf;
      var k :| 0 <= k < |m.path.rels| && l == LinkAt(m.path, places, k);
      forall j | 0 <= j < |places| ensures made[j] == IdOf(made, places[j]) {
        PlaceOfWritten(m, g, written, h, made, j);
      }
      LinkIds(m.path, places, made, made, k);
    }
  }

  /**
   Once the pattern has been written for one row, another row matches exactly if the pattern fits, under what that row
   fixes, the old graph joined with what is written for the first: a check that needs nothing written.
   */
  lemma WrittenMatchesIff(m: Merging, g: Graph, written: Row, h: Graph, made: seq<string>, row: Row)
    requires Mergeable(m) && WellFormed(m.Schema(), g) && Written(m, g, written, h, made) && RowOk(m, g, row)
    ensures Matched(m, h, row) <==> exists ps :: FitsJoined(m, g, written, row, ps)
  {
    hide Mergeable, WellFormed, Written, RowOk, Fits, FitsJoined;
    if Matched(m, h, row) {
      var ids :| Fits(m, h, row, ids);
      var ps := FitGivesPlaces(m, g, written, h, made, row, ids);
    }
    if ps: seq<Place> :| FitsJoined(m, g, written, row, ps) {
      var ids := PlacesGiveFit(m, g, written, h, made, row, ps);
    }
  }

  ghost predicate Matched(m: Merging, g: Graph, row: Row) {
    exists ids :: Fits(m, g, row, ids)
  }

  // ---- patterns that read back --------------------------------------------------------------------------------

  /** Where the pattern is written, by positions alone. */
  function Reps(path: PatternPath): (r: seq<nat>)
    ensures |r| == |path.nodes| && forall i :: 0 <= i < |r| ==> r[i] == Rep(path, i)
  {
    seq(|path.nodes|, i requires 0 <= i < |path.nodes| => Rep(path, i))
  }

  /** The relationship at these positions is one the pattern writes. */
  ghost predicate LinkWritten(path: PatternPath, ps: seq<nat>, i: nat)
    requires path.Valid() && |ps| == |path.nodes| && i < |path.rels|
  {
    exists k :: 0 <= k < |path.rels| && LinkAt(path, ps, i) == LinkAt(path, Reps(path), k)
  }

  predicate FitsAt(m: Merging, i: nat, r: nat)
    requires i < |m.path.nodes|
  {
    if IsBoundAt(m, i) then r == Rep(m.path, i)
    else IsNew(m, r) && M.NodeMatches(m.Schema(), m.path.nodes[i], NodeFor(m.Schema(), m.path.nodes[r], ""))
  }

  /** The pattern fits what it writes, each position at the node of another, bound ones at their own. */
  ghost predicate FitsItself(m: Merging, ps: seq<nat>) {
    && |ps| == |m.path.nodes| && m.path.Valid()
    && (forall i :: 0 <= i < |ps| ==> FitsAt(m, i, ps[i]))
    && (forall i, j :: 0 <= i < j < |ps| && m.path.nodes[i].variable.Some? && m.path.nodes[i].variable == m.path.nodes[j].variable ==> ps[i] == ps[j])
    && (forall i :: 0 <= i < |m.path.rels| ==> LinkWritten(m.path, ps, i))
  }

  /** What the pattern writes fits the pattern: a check of finitely many positions, without a graph or a row. */
  ghost predicate ReadsBack(m: Merging) {
    exists ps :: FitsItself(m, ps)
  }

  /** The first node has a name, or the row holds no anonymous first node of an earlier path. */
  predicate AnchorFree(m: Merging, row: Row) {
    m.path.nodes != [] && (m.path.nodes[0].variable.Some? || M.ANON_ANCHOR !in row)
  }

  function PlacesAt(m: Merging, row: Row, ps: seq<nat>): (r: seq<Place>)
    ensures |r| == |ps| && forall i :: 0 <= i < |r| && ps[i] < |m.path.nodes| ==> r[i] == PlaceOf(m, row, ps[i])
  {
    seq(|ps|, i requires 0 <= i < |ps| => if ps[i] < |m.path.nodes| then PlaceOf(m, row, ps[i]) else New(0))
  }

  lemma PlaceOfRep(m: Merging, row: Row, i: nat)
    requires i < |m.path.nodes|
    ensures PlaceOf(m, row, Rep(m.path, i)) == PlaceOf(m, row, i)
  {
    hide Rep;
    RepIsFirst(m.path, i, i);
  }

  lemma PlacedNodes(m: Merging, g: Graph, row: Row, ps: seq<nat>, i: nat)
    requires Mergeable(m) && RowOk(m, g, row) && FitsItself(m, ps) && i < |ps|
    ensures ps[i] < |m.path.nodes| && PlaceMatches(m, g, m.path.nodes[i], PlaceOf(m, row, ps[i]))
    ensures IsBoundAt(m, i) ==> PlaceOf(m, row, ps[i]) == Old(BoundId(m, row, i))
  {
    PlaceOfRep(m, row, i);
    assert FitsAt(m, i, ps[i]);
    hide M.Apart, M.FixedLength, P.RelError, Exists, Rep, NodeFor, LinkAt;
    if IsBoundAt(m, i) {
      assert Exists(g, BoundId(m, row, i)) && M.NodeMatches(m.Schema(), m.path.nodes[i], NodeOf(g, BoundId(m, row, i)));
    }
  }

  lemma PlacedLinks(m: Merging, g: Graph, row: Row, ps: seq<nat>, places: seq<Place>, i: nat)
    requires FitsItself(m, ps) && i < |m.path.rels| && |places| == |ps|
    requires forall j :: 0 <= j < |ps| ==> ps[j] < |m.path.nodes| && places[j] == PlaceOf(m, row, ps[j])
    ensures LinkThere(m, g, PlacesOf(m, row), LinkAt(m.path, places, i))
  {
    assert LinkWritten(m.path, ps, i);
    var k :| 0 <= k < |m.path.rels| && LinkAt(m.path, ps, i) == LinkAt(m.path, Reps(m.path), k);
    hide FitsItself, Rep, LinkAt, PlaceOf, HasEdge;
    forall j | 0 <= j < |m.path.nodes| ensures PlacesOf(m, row)[j] == PlaceOf(m, row, Reps(m.path)[j]) {
      PlaceOfRep(m, row, j);
    }
    LinkPlaced(m, row, ps, places, i);
    LinkPlaced(m, row, Reps(m.path), PlacesOf(m, row), k);
  }

  /** Whatever row it is written for, a pattern that reads back matches that row, if the anchor lets it. */
  lemma ReadsBackFits(m: Merging, g: Graph, row: Row, ps: seq<nat>)
    requires Mergeable(m) && RowOk(m, g, row) && AnchorFree(m, row) && FitsItself(m, ps)
    ensures FitsJoined(m, g, row, row, PlacesAt(m, row, ps))
  {
    hide Mergeable, RowOk, PlaceMatches, LinkAt, LinkThere, PlaceOf, BoundId, Rep, IsNew, M.NodeMatches, NodeFor;
    var places := PlacesAt(m, row, ps);
    forall i | 0 <= i < |ps|
      ensures ps[i] < |m.path.nodes| && PlaceMatches(m, g, m.path.nodes[i], places[i]) && (IsBoundAt(m, i) ==> places[i] == Old(BoundId(m, row, i)))
    {
      PlacedNodes(m, g, row, ps, i);
    }
    forall i | 0 <= i < |m.path.rels| ensures LinkThere(m, g, PlacesOf(m, row), LinkAt(m.path, places, i)) {
      PlacedLinks(m, g, row, ps, places, i);
    }
  }

  lemma LinkPlaced(m: Merging, row: Row, ps: seq<nat>, places: seq<Place>, i: nat)
    requires |ps| == |places| && i < |m.path.rels| && i + 1 < |ps|
    requires forall j :: 0 <= j < |ps| ==> ps[j] < |m.path.nodes| && places[j] == PlaceOf(m, row, ps[j])
    ensures LinkAt(m.path, ps, i).from < |m.path.nodes| && LinkAt(m.path, ps, i).to < |m.path.nodes|
    ensures var l := LinkAt(m.path, ps, i); LinkAt(m.path, places, i) == Link(PlaceOf(m, row, l.from), l.member, PlaceOf(m, row, l.to))
  {
    hide PlaceOf;
  }

  /** A written pattern is there: its row matches. */
  lemma WrittenFits(m: Merging, g: Graph, row: Row, h: Graph, made: seq<string>)
    requires Mergeable(m) && ReadsBack(m) && WellFormed(m.Schema(), g) && RowOk(m, g, row) && AnchorFree(m, row) && Written(m, g, row, h, made)
    ensures Matched(m, h, row)
  {
    hide Mergeable, WellFormed, Written, RowOk, FitsItself, FitsJoined, AnchorFree, Matched;
    var ps :| FitsItself(m, ps);
    ReadsBackFits(m, g, row, ps);
    WrittenMatchesIff(m, g, row, h, made, row);
  }

  // ---- patterns without bound variables -----------------------------------------------------------------------

  /** No variable of the pattern is bound, so no relationship joins what is written to what was there. */
  predicate Unbound(m: Merging) {
    m.bound == {}
  }

  lemma BothSides(m: Merging, g: Graph, written: Row, ps: seq<Place>, i: nat)
    requires Unbound(m) && m.path.Valid() && i < |m.path.rels| && i + 1 < |ps| && LinkThere(m, g, PlacesOf(m, written), LinkAt(m.path, ps, i))
    ensures ps[i].Old? == ps[i + 1].Old?
  {
    hide Rep, HasEdge, BoundId;
  }

  lemma {:induction false} OneSide(m: Merging, g: Graph, written: Row, ps: seq<Place>, i: nat)
    requires Unbound(m) && m.path.Valid() && |ps| == |m.path.nodes| && i < |ps|
    requires forall j :: 0 <= j < |m.path.rels| ==> LinkThere(m, g, PlacesOf(m, written), LinkAt(m.path, ps, j))
    ensures ps[i].Old? == ps[0].Old?
  {
    hide LinkThere, LinkAt, BoundId;
    if i > 0 {
      OneSide(m, g, written, ps, i - 1);
      BothSides(m, g, written, ps, i - 1);
    }
  }

  lemma OldFits(m: Merging, g: Graph, written: Row, row: Row, ps: seq<Place>) returns (ids: seq<string>)
    requires Mergeable(m) && Unbound(m) && RowOk(m, g, row) && FitsJoined(m, g, written, row, ps) && ps[0].Old?
    ensures Fits(m, g, row, ids)
  {
    forall i | 0 <= i < |ps| ensures ps[i].Old? {
      OneSide(m, g, written, ps, i);
    }
    hide M.Plannable, M.Apart, Exists, Rep, HasEdge, M.NodeMatches, RowOk;
    ids := seq(|ps|, i requires 0 <= i < |ps| => IdOf([], ps[i]));
    assert AllOld(ps, ids);
    OldHolds(m, g, written, row, ps, ids);
  }

  predicate AllOld(ps: seq<Place>, ids: seq<string>) {
    |ids| == |ps| && forall i :: 0 <= i < |ps| ==> ps[i] == Old(ids[i])
  }

  lemma OldHolds(m: Merging, g: Graph, written: Row, row: Row, ps: seq<Place>, ids: seq<string>)
    requires Unbound(m) && FitsJoined(m, g, written, row, ps) && AllOld(ps, ids)
    ensures Fits(m, g, row, ids)
  {
    hide Exists, Rep, HasEdge, M.NodeMatches;
    forall i | 0 <= i < |ids| ensures Exists(g, ids[i]) && M.NodeMatches(m.Schema(), m.path.nodes[i], NodeOf(g, ids[i])) {
      assert PlaceMatches(m, g, m.path.nodes[i], ps[i]);
    }
    forall i | 0 <= i < |m.path.rels| ensures HasEdge(g, EdgeAt(m.path, ids, i)) {
      assert LinkThere(m, g, PlacesOf(m, written), LinkAt(m.path, ps, i));
    }
  }

  lemma NewReadsBack(m: Merging, g: Graph, written: Row, row: Row, ps: seq<Place>)
    requires Unbound(m) && FitsJoined(m, g, written, row, ps) && ps[0].New?
    requires M.ANON_ANCHOR in row ==> row[M.ANON_ANCHOR].NodeV?
    ensures ReadsBack(m) && AnchorFree(m, row)
  {
    hide PlaceMatches, LinkThere, LinkAt, BoundId;
    forall i | 0 <= i < |ps| ensures ps[i].New? {
      OneSide(m, g, written, ps, i);
    }
    var at: seq<nat> := seq(|ps|, i requires 0 <= i < |ps| => ps[i].at);
    NewFits(m, g, written, row, ps, at);
    assert AnchorFree(m, row);
    hide FitsJoined, FitsItself;
    assert FitsItself(m, at);
  }

  lemma NewFits(m: Merging, g: Graph, written: Row, row: Row, ps: seq<Place>, at: seq<nat>)
    requires Unbound(m) && FitsJoined(m, g, written, row, ps) && |at| == |ps| && forall i :: 0 <= i < |ps| ==> ps[i] == New(at[i])
    ensures FitsItself(m, at)
  {
    hide LinkWritten, FitsAt, PlaceMatches, LinkThere;
    forall i | 0 <= i < |m.path.rels| ensures LinkWritten(m.path, at, i) {
      NewLinkWritten(m, g, written, ps, at, i);
    }
    forall i | 0 <= i < |ps| ensures FitsAt(m, i, at[i]) {
      NewFitsAt(m, g, i, ps[i]);
    }
  }

  lemma NewFitsAt(m: Merging, g: Graph, i: nat, place: Place)
    requires Unbound(m) && i < |m.path.nodes| && PlaceMatches(m, g, m.path.nodes[i], place) && place.New?
    ensures FitsAt(m, i, place.at)
  {
    hide Rep, NodeFor;
  }

  lemma NewLinkWritten(m: Merging, g: Graph, written: Row, ps: seq<Place>, at: seq<nat>, i: nat)
    requires Unbound(m) && m.path.Valid() && i < |m.path.rels| && |ps| == |at| == |m.path.nodes|
    requires LinkThere(m, g, PlacesOf(m, written), LinkAt(m.path, ps, i)) && forall j :: 0 <= j < |ps| ==> ps[j] == New(at[j])
    ensures LinkWritten(m.path, at, i)
  {
    hide Rep, HasEdge, LinkAt, PlaceOf, BoundId;
    NewLinkIs(m.path, ps, i);
    var k :| 0 <= k < |m.path.rels| && LinkAt(m.path, ps, i) == LinkAt(m.path, PlacesOf(m, written), k);
    NewLinks(m, written, ps, at, i, k);
  }

  lemma NewLinkIs(path: PatternPath, ps: seq<Place>, i: nat)
    requires i < |path.rels| && i + 1 < |ps| && ps[i].New? && ps[i + 1].New?
    ensures LinkAt(path, ps, i).from.New?
  {
  }

  lemma NewLinks(m: Merging, written: Row, ps: seq<Place>, at: seq<nat>, i: nat, k: nat)
    requires Unbound(m) && m.path.Valid() && i < |m.path.rels| && k < |m.path.rels| && |ps| == |at| == |m.path.nodes|
    requires forall j :: 0 <= j < |ps| ==> ps[j] == New(at[j])
    requires LinkAt(m.path, ps, i) == LinkAt(m.path, PlacesOf(m, written), k)
    ensures LinkAt(m.path, at, i) == LinkAt(m.path, Reps(m.path), k)
  {
    hide Rep;
  }

  /** The path is connected: a match in the written graph lies wholly in what was there, or wholly in what was written. */
  lemma UnboundWrittenIff(m: Merging, g: Graph, written: Row, h: Graph, made: seq<string>, row: Row)
    requires Mergeable(m) && Unbound(m) && WellFormed(m.Schema(), g) && RowOk(m, g, written) && Written(m, g, written, h, made) && RowOk(m, g, row)
    ensures Matched(m, h, row) <==> Matched(m, g, row) || (AnchorFree(m, row) && ReadsBack(m))
  {
    hide M.Apart, M.FixedLength, P.RelError, WellFormed, Written, RowOk, FitsItself, FitsJoined, AnchorFree, Fits;
    WrittenMatchesIff(m, g, written, h, made, row);
    if ps: seq<Place> :| FitsJoined(m, g, written, row, ps) {
      assert ps != [] by {
        FitsSome(m, g, written, row, ps);
      }
      if ps[0].Old? {
        var ids := OldFits(m, g, written, row, ps);
      } else {
        if M.ANON_ANCHOR in row {
          AnchorIsNode(m, g, row);
        }
        NewReadsBack(m, g, written, row, ps);
      }
    }
    if ids: seq<string> :| Fits(m, g, row, ids) {
      WrittenIsGentle(m, g, written, h, made);
      FitsPersist(m, g, h, row, ids);
    } else if AnchorFree(m, row) && ReadsBack(m) {
      var ps :| FitsItself(m, ps);
      ReadsBackFits(m, g, row, ps);
      SamePlaces(m, g, row, written, PlacesAt(m, row, ps));
    }
  }

  lemma AnchorIsNode(m: Merging, g: Graph, row: Row)
    requires RowOk(m, g, row) && M.ANON_ANCHOR in row
    ensures row[M.ANON_ANCHOR].NodeV?
  {
  }

  lemma FitsSome(m: Merging, g: Graph, written: Row, row: Row, ps: seq<Place>)
    requires FitsJoined(m, g, written, row, ps)
    ensures ps != []
  {
  }

  /** Without bound variables the pattern is written alike for every row. */
  lemma SamePlaces(m: Merging, g: Graph, row: Row, written: Row, ps: seq<Place>)
    requires Unbound(m) && FitsJoined(m, g, row, row, ps)
    ensures FitsJoined(m, g, written, row, ps)
  {
    hide Rep;
    assert PlacesOf(m, row) == PlacesOf(m, written);
  }

  predicate KeysOnce(properties: seq<Property>) {
    forall i, j :: 0 <= i < j < |properties| ==> properties[i].key != properties[j].key
  }

  lemma {:induction false} AttrsReadBack(properties: seq<Property>, i: nat)
    requires i < |properties| && KeysOnce(properties)
    ensures properties[i].key in AttrsOf(properties) && AttrsOf(properties)[properties[i].key] == properties[i].value
    decreases |properties|
  {
    if i < |properties| - 1 {
      AttrsReadBack(properties[..|properties| - 1], i);
    }
  }

  /** Patterns whose new variables occur once, with known labels and each property key once, read back. */
  lemma PlainPatternsReadBack(m: Merging)
    requires Mergeable(m) && m.Schema().Valid()
    requires forall i, j :: 0 <= j < i < |m.path.nodes| && !IsBoundAt(m, i) && m.path.nodes[i].variable.Some? ==> m.path.nodes[i].variable != m.path.nodes[j].variable
    requires forall i :: 0 <= i < |m.path.nodes| && !IsBoundAt(m, i) ==>
               KeysOnce(m.path.nodes[i].properties) && m.path.nodes[i].labelName.value in m.Schema().concepts
    ensures ReadsBack(m)
  {
    hide M.Apart, M.FixedLength, P.RelError;
    forall i | 0 <= i < |m.path.nodes| && !IsBoundAt(m, i)
      ensures Rep(m.path, i) == i && M.NodeMatches(m.Schema(), m.path.nodes[i], NodeFor(m.Schema(), m.path.nodes[i], ""))
    {
      var properties := m.path.nodes[i].properties;
      forall q | q in properties ensures q.key in AttrsOf(properties) && AttrsOf(properties)[q.key] == q.value {
        var k: nat :| k < |properties| && properties[k] == q;
        AttrsReadBack(properties, k);
      }
    }
    AtOwnNodes(m);
  }

  lemma AtOwnNodes(m: Merging)
    requires m.path.Valid()
    requires forall i :: 0 <= i < |m.path.nodes| && !IsBoundAt(m, i) ==>
               IsNew(m, Rep(m.path, i)) && M.NodeMatches(m.Schema(), m.path.nodes[i], NodeFor(m.Schema(), m.path.nodes[Rep(m.path, i)], ""))
    ensures ReadsBack(m)
  {
    hide M.NodeMatches, Rep, NodeFor, LinkAt;
    var ps := Reps(m.path);
    forall i, j | 0 <= i < j < |m.path.nodes| && m.path.nodes[i].variable.Some? && m.path.nodes[i].variable == m.path.nodes[j].variable
      ensures ps[i] == ps[j]
    {
      RepIsFirst(m.path, i, j);
    }
    forall i | 0 <= i < |m.path.rels| ensures LinkWritten(m.path, ps, i) {
      assert LinkAt(m.path, ps, i) == LinkAt(m.path, Reps(m.path), i);
    }
    hide IsNew, LinkWritten;
    forall i | 0 <= i < |ps| ensures FitsAt(m, i, ps[i]) {
    }
    hide FitsAt;
    assert FitsItself(m, ps);
  }
}
