/**
 What a write query's overlay holds, and what it stands for: the base graph with the query's accepted writes applied
 (`Simulates`). Every write keeps the two in step (`CreateKeeps` ... `DeleteNodeKeeps`), and the links between two nodes
 can be counted from the base and the recorded edges (`LinksAfter`).
 */
module OverlayStates {
  import opened Wrappers
  import opened Values
  import opened Graphs
  import opened Seqs
  import opened GraphWrites

  datatype CreatedNode = CreatedNode(concept: string, attrs: map<string, Scalar>)

  /** Maps keep insertion order: `createdIds` orders `created`; recorded edges are kept once, in order. */
  datatype State = State(created: map<string, CreatedNode>, createdIds: seq<string>, changed: map<string, map<string, Option<Scalar>>>,
                         deleted: set<string>, added: seq<Edge>, dropped: seq<Edge>, touched: set<string>)

  // ---- recording ----------------------------------------------------------------------------------------------

  function Start(): State {
    State(map[], [], map[], {}, [], [], {})
  }

  function RecordCreate(s: State, id: string, concept: string, attrs: map<string, Scalar>): State {
    s.(created := s.created[id := CreatedNode(concept, attrs)],
       createdIds := if id in s.created then s.createdIds else s.createdIds + [id],
       touched := s.touched + {id})
  }

  /** None removes the attribute. */
  function RecordAttr(s: State, id: string, name: string, value: Option<Scalar>): State {
    var touched := s.touched + {id};
    if id in s.created then
      s.(created := s.created[id := s.created[id].(attrs := Attrs(s.created[id].attrs, name, value))], touched := touched)
    else
      s.(changed := s.changed[id := (if id in s.changed then s.changed[id] else map[])[name := value]], touched := touched)
  }

  function IsOther(e: Edge): Edge -> bool {
    (x: Edge) => x != e
  }

  function WithoutEdge(es: seq<Edge>, e: Edge): seq<Edge> {
    Filter(es, IsOther(e))
  }

  function WithEdge(es: seq<Edge>, e: Edge): seq<Edge> {
    if e in es then es else es + [e]
  }

  /** Adding a base edge this query dropped cancels the drop. */
  function RecordAddEdge(s: State, e: Edge): State {
    var t := s.(touched := s.touched + {e.from});
    if e in s.dropped then t.(dropped := WithoutEdge(s.dropped, e)) else t.(added := WithEdge(s.added, e))
  }

  function RecordDeleteEdge(s: State, e: Edge): State {
    var t := s.(touched := s.touched + {e.from});
    if e in s.added then t.(added := WithoutEdge(s.added, e)) else t.(dropped := WithEdge(s.dropped, e))
  }

  function RecordDeleteNode(s: State, id: string): State {
    s.(deleted := s.deleted + {id}, touched := s.touched + {id})
  }

  // ---- reading ------------------------------------------------------------------------------------------------

  function ApplyChanges(attrs: map<string, Scalar>, changes: map<string, Option<Scalar>>): map<string, Scalar> {
    (map k | k in attrs && k !in changes :: attrs[k]) + (map k | k in changes && changes[k].Some? :: changes[k].value)
  }

  function Changes(s: State, id: string): map<string, Option<Scalar>> {
    if id in s.changed then s.changed[id] else map[]
  }

  /** A touched node: created, or a base node with this query's changes. */
  function Synthesized(base: Graph, s: State, id: string): Option<View> {
    if id in s.created then Some(View(s.created[id].concept, s.created[id].attrs))
    else match ViewOf(base, id)
      case None => None
      case Some(v) => Some(v.(attrs := ApplyChanges(v.attrs, Changes(s, id))))
  }

  function CurrentView(base: Graph, s: State, id: string): Option<View> {
    if id in s.deleted then None else if id !in s.touched then ViewOf(base, id) else Synthesized(base, s, id)
  }

  // ---- the graph it stands for --------------------------------------------------------------------------------

  function IsKept(s: State): string -> bool {
    (id: string) => id !in s.deleted
  }

  predicate Shown(base: Graph, s: State, e: Edge) {
    e.from !in s.deleted && e.to !in s.deleted && ((HasEdge(base, e) && e !in s.dropped) || e in s.added)
  }

  /** The recorded state is consistent. */
  ghost predicate Sound(base: Graph, s: State) {
    && Distinct(s.createdIds) && (forall id :: id in s.createdIds <==> id in s.created)
    && (forall id :: id in s.created ==> !Exists(base, id))
    && (forall id :: id in s.changed ==> Exists(base, id))
    && s.created.Keys + s.changed.Keys + s.deleted <= s.touched
    && Distinct(s.dropped) && (forall e :: e in s.dropped ==> HasEdge(base, e))
    && Distinct(s.added) && (forall e :: e in s.added ==> !HasEdge(base, e))
  }

  /** The overlay shows `applied`: same nodes in the same order, same fields, same edges. */
  ghost predicate Simulates(schema: Schema, base: Graph, s: State, applied: Graph) {
    && WellFormed(schema, base) && WellFormed(schema, applied) && Sound(base, s)
    && Ids(applied.nodes) == Filter(Ids(base.nodes), IsKept(s)) + Filter(s.createdIds, IsKept(s))
    && (forall id :: ViewOf(applied, id) == CurrentView(base, s, id))
    && (forall e :: HasEdge(applied, e) <==> Shown(base, s, e))
  }

  lemma StartSimulates(schema: Schema, base: Graph)
    requires WellFormed(schema, base)
    ensures Simulates(schema, base, Start(), base)
  {
    FilterAll(Ids(base.nodes), IsKept(Start()));
  }

  // ---- every write keeps them in step -------------------------------------------------------------------------

  lemma WithoutEdgeIs(es: seq<Edge>, e: Edge)
    requires Distinct(es)
    ensures Distinct(WithoutEdge(es, e)) && forall x :: x in WithoutEdge(es, e) <==> x in es && x != e
  {
    FilterDistinct(es, IsOther(e));
    forall x ensures x in WithoutEdge(es, e) <==> x in es && x != e {
      FilterMember(es, IsOther(e), x);
    }
  }

  lemma SameKept(s: State, t: State, ids: seq<string>)
    requires s.deleted == t.deleted
    ensures Filter(ids, IsKept(s)) == Filter(ids, IsKept(t))
  {
    FilterEqual(ids, IsKept(s), IsKept(t));
  }

  /** A created id is new: neither in the graph, nor one this query deleted. */
  lemma CreateKeeps(schema: Schema, base: Graph, s: State, applied: Graph, id: string, concept: string, attrs: map<string, Scalar>)
    requires Simulates(schema, base, s, applied) && !Exists(applied, id) && id !in s.deleted
    ensures Simulates(schema, base, RecordCreate(s, id, concept, attrs), Created(applied, id, concept, attrs))
  {
    hide WellFormed, Filter;
    var t := RecordCreate(s, id, concept, attrs);
    var h := Created(applied, id, concept, attrs);
    CreatedWorks(schema, applied, id, concept, attrs);
    assert ViewOf(applied, id) == CurrentView(base, s, id);
    assert id !in s.created && !Exists(base, id);
    SameKept(s, t, Ids(base.nodes));
    SameKept(s, t, s.createdIds);
    FilterConcat(s.createdIds, [id], IsKept(t));
    FilterAll([id], IsKept(t));
    assert Filter(t.createdIds, IsKept(t)) == Filter(s.createdIds, IsKept(s)) + [id];
    forall x ensures ViewOf(h, x) == CurrentView(base, t, x) {
      assert ViewOf(applied, x) == CurrentView(base, s, x);
    }
  }

  lemma AttrView(base: Graph, s: State, id: string, name: string, value: Option<Scalar>, x: string)
    requires Sound(base, s) && CurrentView(base, s, id).Some?
    ensures CurrentView(base, RecordAttr(s, id, name, value), x)
         == if x == id then Some(CurrentView(base, s, id).value.(attrs := Attrs(CurrentView(base, s, id).value.attrs, name, value)))
            else CurrentView(base, s, x)
  {
    hide ViewOf, Exists, Attrs, ApplyChanges;
    if x == id && id !in s.created {
      ChangeOnTop(ViewOf(base, id).value.attrs, Changes(s, id), name, value);
      UnchangedView(base, s, id);
    }
  }

  lemma AttrSound(base: Graph, s: State, id: string, name: string, value: Option<Scalar>)
    requires Sound(base, s) && (id in s.created || Exists(base, id))
    ensures Sound(base, RecordAttr(s, id, name, value))
  {
    hide Exists, HasEdge;
  }

  /** Setting or removing an attribute of a node that exists. */
  lemma AttrKeeps(schema: Schema, base: Graph, s: State, applied: Graph, id: string, name: string, value: Option<Scalar>)
    requires Simulates(schema, base, s, applied) && Exists(applied, id)
    ensures Simulates(schema, base, RecordAttr(s, id, name, value), AttrSet(applied, id, name, value))
  {
    hide WellFormed, Filter, HasEdge, ApplyChanges, Sound, AttrSet, RecordAttr, ViewOf;
    var t := RecordAttr(s, id, name, value);
    var h := AttrSet(applied, id, name, value);
    AttrSetWorks(schema, applied, id, name, value);
    assert ViewOf(applied, id) == CurrentView(base, s, id);
    SameRest(s, id, name, value);
    AttrTarget(base, s, id);
    AttrSound(base, s, id, name, value);
    SameKept(s, t, Ids(base.nodes));
    SameKept(s, t, s.createdIds);
    forall x ensures ViewOf(h, x) == CurrentView(base, t, x) {
      assert ViewOf(applied, x) == CurrentView(base, s, x);
      AttrView(base, s, id, name, value, x);
    }
    forall e ensures HasEdge(h, e) <==> Shown(base, t, e) {
      assert HasEdge(applied, e) <==> Shown(base, s, e);
    }
  }

  lemma SameRest(s: State, id: string, name: string, value: Option<Scalar>)
    ensures var t := RecordAttr(s, id, name, value);
            t.createdIds == s.createdIds && t.deleted == s.deleted && t.added == s.added && t.dropped == s.dropped
  {
  }

  lemma AttrTarget(base: Graph, s: State, id: string)
    requires CurrentView(base, s, id).Some?
    ensures id in s.created || Exists(base, id)
  {
  }

  lemma ChangeOnTop(attrs: map<string, Scalar>, changes: map<string, Option<Scalar>>, name: string, value: Option<Scalar>)
    ensures ApplyChanges(attrs, changes[name := value]) == Attrs(ApplyChanges(attrs, changes), name, value)
  {
  }

  /** An untouched base node has no changes. */
  lemma UnchangedView(base: Graph, s: State, id: string)
    requires Sound(base, s) && id !in s.created
    ensures id !in s.deleted ==> CurrentView(base, s, id) == Synthesized(base, s, id)
  {
    if id !in s.touched && ViewOf(base, id).Some? {
      var attrs := ViewOf(base, id).value.attrs;
      assert ApplyChanges(attrs, map[]) == attrs;
    }
  }

  /** An edge between nodes that exist, through a member of the source's concept. */
  lemma AddEdgeKeeps(schema: Schema, base: Graph, s: State, applied: Graph, e: Edge)
    requires Simulates(schema, base, s, applied) && Exists(applied, e.from) && Exists(applied, e.to) && !HasEdge(applied, e)
    requires e.member in schema.EdgeMembers(ViewOf(applied, e.from).value.concept)
    ensures Simulates(schema, base, RecordAddEdge(s, e), EdgeAdded(applied, e))
  {
    hide WellFormed, Filter, HasEdge, CurrentView, ViewOf, EdgeAdded, Exists, Sound, Shown, RecordAddEdge;
    var t := RecordAddEdge(s, e);
    EdgeAddedWorks(schema, applied, e);
    AddKeepsRest(s, e);
    SameKept(s, t, Ids(base.nodes));
    SameKept(s, t, s.createdIds);
    TouchedView(base, s, t, e.from);
    ExistsNotDeleted(schema, base, s, applied, e.from);
    ExistsNotDeleted(schema, base, s, applied, e.to);
    assert !Shown(base, s, e);
    AddSound(base, s, e);
    forall x ensures HasEdge(EdgeAdded(applied, e), x) <==> Shown(base, t, x) {
      assert HasEdge(applied, x) <==> Shown(base, s, x);
      AddShows(base, s, e, x);
    }
    forall x ensures ViewOf(EdgeAdded(applied, e), x) == CurrentView(base, t, x) {
      assert ViewOf(applied, x) == CurrentView(base, s, x);
    }
  }

  lemma AddKeepsRest(s: State, e: Edge)
    ensures var t := RecordAddEdge(s, e);
            t.created == s.created && t.createdIds == s.createdIds && t.changed == s.changed && t.deleted == s.deleted && t.touched == s.touched + {e.from}
  {
  }

  lemma ExistsNotDeleted(schema: Schema, base: Graph, s: State, applied: Graph, id: string)
    requires Simulates(schema, base, s, applied) && Exists(applied, id)
    ensures id !in s.deleted
  {
    hide WellFormed, Filter, HasEdge;
    assert ViewOf(applied, id) == CurrentView(base, s, id);
  }

  lemma AddSound(base: Graph, s: State, e: Edge)
    requires Sound(base, s) && !Shown(base, s, e) && e.from !in s.deleted && e.to !in s.deleted
    ensures Sound(base, RecordAddEdge(s, e))
  {
    hide HasEdge, Exists;
    WithoutEdgeIs(s.dropped, e);
  }

  lemma AddShows(base: Graph, s: State, e: Edge, x: Edge)
    requires Sound(base, s) && !Shown(base, s, e) && e.from !in s.deleted && e.to !in s.deleted
    ensures Shown(base, RecordAddEdge(s, e), x) <==> Shown(base, s, x) || x == e
  {
    hide HasEdge, Exists;
    WithoutEdgeIs(s.dropped, e);
  }

  /** Touching a node does not change what it shows. */
  lemma TouchedView(base: Graph, s: State, t: State, from: string)
    requires Sound(base, s) && t.touched == s.touched + {from}
    requires t.created == s.created && t.changed == s.changed && t.deleted == s.deleted
    ensures forall x :: CurrentView(base, t, x) == CurrentView(base, s, x)
  {
    forall x ensures CurrentView(base, t, x) == CurrentView(base, s, x) {
      if x !in s.created {
        UnchangedView(base, s, x);
      }
    }
  }

  lemma DropEdgeKeeps(schema: Schema, base: Graph, s: State, applied: Graph, e: Edge)
    requires Simulates(schema, base, s, applied) && HasEdge(applied, e)
    ensures Simulates(schema, base, RecordDeleteEdge(s, e), EdgeDropped(applied, e))
  {
    hide WellFormed, Filter, HasEdge, CurrentView, ViewOf, EdgeDropped, Exists, Sound, Shown, RecordDeleteEdge;
    var t := RecordDeleteEdge(s, e);
    EdgeDroppedWorks(schema, applied, e);
    DropKeepsRest(s, e);
    SameKept(s, t, Ids(base.nodes));
    SameKept(s, t, s.createdIds);
    TouchedView(base, s, t, e.from);
    assert Shown(base, s, e);
    DropSound(base, s, e);
    forall x ensures HasEdge(EdgeDropped(applied, e), x) <==> Shown(base, t, x) {
      assert HasEdge(applied, x) <==> Shown(base, s, x);
      DropShows(base, s, e, x);
    }
    forall x ensures ViewOf(EdgeDropped(applied, e), x) == CurrentView(base, t, x) {
      assert ViewOf(applied, x) == CurrentView(base, s, x);
    }
  }

  lemma DropKeepsRest(s: State, e: Edge)
    ensures var t := RecordDeleteEdge(s, e);
            t.created == s.created && t.createdIds == s.createdIds && t.changed == s.changed && t.deleted == s.deleted && t.touched == s.touched + {e.from}
  {
  }

  lemma DropSound(base: Graph, s: State, e: Edge)
    requires Sound(base, s) && Shown(base, s, e)
    ensures Sound(base, RecordDeleteEdge(s, e))
  {
    hide HasEdge, Exists;
    WithoutEdgeIs(s.added, e);
  }

  lemma DropShows(base: Graph, s: State, e: Edge, x: Edge)
    requires Sound(base, s) && Shown(base, s, e)
    ensures Shown(base, RecordDeleteEdge(s, e), x) <==> Shown(base, s, x) && x != e
  {
    hide HasEdge, Exists;
    WithoutEdgeIs(s.added, e);
  }

  lemma {:induction false} FilterMore(ids: seq<string>, s: State, t: State, id: string)
    requires t.deleted == s.deleted + {id}
    ensures Filter(ids, IsKept(t)) == Filter(Filter(ids, IsKept(s)), IsNot(id))
  {
    if ids != [] {
      FilterMore(ids[1..], s, t, id);
      if ids[0] !in s.deleted {
        var kept := Filter(ids, IsKept(s));
        assert kept[0] == ids[0] && kept[1..] == Filter(ids[1..], IsKept(s));
      }
    }
  }

  lemma DeleteNodeKeeps(schema: Schema, base: Graph, s: State, applied: Graph, id: string)
    requires Simulates(schema, base, s, applied)
    ensures Simulates(schema, base, RecordDeleteNode(s, id), NodeRemoved(applied, id))
  {
    hide WellFormed, Filter, HasEdge;
    var t := RecordDeleteNode(s, id);
    NodeRemovedWorks(schema, applied, id);
    FilterMore(Ids(base.nodes), s, t, id);
    FilterMore(s.createdIds, s, t, id);
    FilterConcat(Filter(Ids(base.nodes), IsKept(s)), Filter(s.createdIds, IsKept(s)), IsNot(id));
    forall x ensures HasEdge(NodeRemoved(applied, id), x) <==> Shown(base, t, x) {
      assert HasEdge(applied, x) <==> Shown(base, s, x);
    }
    forall x ensures ViewOf(NodeRemoved(applied, id), x) == CurrentView(base, t, x) {
      assert ViewOf(applied, x) == CurrentView(base, s, x);
    }
  }

  /** Without the freshness of created ids the two part: a node created under the id of a deleted one stays invisible. */
  lemma RecreatedStaysDeleted(schema: Schema, base: Graph, s: State, applied: Graph, id: string, concept: string, attrs: map<string, Scalar>)
    requires Simulates(schema, base, s, applied) && id in s.deleted && !Exists(applied, id)
    ensures CurrentView(base, RecordCreate(s, id, concept, attrs), id) == None
    ensures ViewOf(Created(applied, id, concept, attrs), id) == Some(View(concept, attrs))
    ensures !Simulates(schema, base, RecordCreate(s, id, concept, attrs), Created(applied, id, concept, attrs))
  {
    hide WellFormed, Sound;
    CreatedWorks(schema, applied, id, concept, attrs);
  }

  // ---- links between two nodes --------------------------------------------------------------------------------

  function LinkSet(g: Graph, from: string, to: string, relType: Option<string>): set<string> {
    match Find(g.nodes, from)
    case None => {}
    case Some(n) => Links(n.refs, to, relType)
  }

  lemma LinkSetIs(schema: Schema, g: Graph, from: string, to: string, relType: Option<string>, m: string)
    requires WellFormed(schema, g)
    ensures m in LinkSet(g, from, to, relType) <==> Matches(m, relType) && HasEdge(g, Edge(from, m, to))
  {
    FindIs(g.nodes, from);
    match Find(g.nodes, from)
    case None =>
    case Some(n) => LinksAre(n.refs, schema.EdgeMembers(n.concept), to, relType, m);
  }

  /** The recorded edges between two nodes. */
  function Recorded(es: seq<Edge>, from: string, to: string, relType: Option<string>): set<string> {
    set e | e in es && e.from == from && e.to == to && Matches(e.member, relType) :: e.member
  }

  /** Base links, minus the dropped, plus the added; none once an end is deleted. */
  lemma LinksAfter(schema: Schema, base: Graph, s: State, applied: Graph, from: string, to: string, relType: Option<string>)
    requires Simulates(schema, base, s, applied)
    ensures Degree(applied, from, to, relType)
         == if from in s.deleted || to in s.deleted then 0
            else |LinkSet(base, from, to, relType)| - |Recorded(s.dropped, from, to, relType)| + |Recorded(s.added, from, to, relType)|
    ensures Recorded(s.dropped, from, to, relType) <= LinkSet(base, from, to, relType)
    ensures Recorded(s.added, from, to, relType) !! LinkSet(base, from, to, relType)
  {
    hide WellFormed, HasEdge, Filter, Links;
    var was, dropped, added := LinkSet(base, from, to, relType), Recorded(s.dropped, from, to, relType), Recorded(s.added, from, to, relType);
    var now := LinkSet(applied, from, to, relType);
    forall m ensures m in dropped <==> Matches(m, relType) && Edge(from, m, to) in s.dropped
             ensures m in added <==> Matches(m, relType) && Edge(from, m, to) in s.added
             ensures m in was <==> Matches(m, relType) && HasEdge(base, Edge(from, m, to))
             ensures m in now <==> Matches(m, relType) && Shown(base, s, Edge(from, m, to))
    {
      LinkSetIs(schema, base, from, to, relType, m);
      LinkSetIs(schema, applied, from, to, relType, m);
      RecordedIs(s.dropped, from, to, relType, m);
      RecordedIs(s.added, from, to, relType, m);
      assert HasEdge(applied, Edge(from, m, to)) <==> Shown(base, s, Edge(from, m, to));
    }
    if from in s.deleted || to in s.deleted {
      assert now == {};
    } else {
      assert now == was - dropped + added;
      assert |was - dropped + added| == |was - dropped| + |added|;
    }
  }

  lemma RecordedIs(es: seq<Edge>, from: string, to: string, relType: Option<string>, m: string)
    ensures m in Recorded(es, from, to, relType) <==> Matches(m, relType) && Edge(from, m, to) in es
  {
    if Matches(m, relType) && Edge(from, m, to) in es {
      var e := Edge(from, m, to);
      assert e in es && e.from == from && e.to == to && e.member == m;
    }
    if m in Recorded(es, from, to, relType) {
      var e :| e in es && e.from == from && e.to == to && Matches(e.member, relType) && e.member == m;
      assert e == Edge(from, m, to);
    }
  }
}
