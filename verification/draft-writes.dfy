/**
 What each write of a query does to the working model, told by the model alone: which writes are accepted, and the nodes and
 edges the model has afterwards (`WriteMeans`). Base documents are never changed.
 */
module DraftWrites {
  import opened Wrappers
  import opened Seqs
  import opened Values
  import opened Drafts

  // ---- the model of a document --------------------------------------------------------------------------------

  lemma {:induction false} ByIdConcat(a: seq<NodeValue>, b: seq<NodeValue>)
    ensures NodesById(a + b) == NodesById(a) + NodesById(b)
    decreases |b|
  {
    if b == [] {
      assert a + b == a;
    } else {
      var n := |b| - 1;
      ByIdConcat(a, b[..n]);
      assert (a + b)[..|a + b| - 1] == a + b[..n] && (a + b)[|a + b| - 1] == b[n];
    }
  }

  lemma {:induction false} ByIdAt(nodes: seq<NodeValue>, i: nat)
    requires i < |nodes| && DistinctIds(nodes)
    ensures nodes[i].id in NodesById(nodes) && NodesById(nodes)[nodes[i].id] == nodes[i]
    decreases |nodes|
  {
    var n := |nodes| - 1;
    if i < n {
      assert DistinctIds(nodes[..n]) && nodes[i].id != nodes[n].id;
      ByIdAt(nodes[..n], i);
    }
  }

  lemma {:induction false} ByIdIff(nodes: seq<NodeValue>, id: string)
    ensures id in NodesById(nodes) <==> exists i :: 0 <= i < |nodes| && nodes[i].id == id
  {
    DerivedHas(nodes, id);
    if HasNode(nodes, id) {
      var n :| n in nodes && n.id == id;
      var i :| 0 <= i < |nodes| && nodes[i] == n;
    }
    if i :| 0 <= i < |nodes| && nodes[i].id == id {
      assert nodes[i] in nodes;
    }
  }

  lemma ByIdSame(b: seq<NodeValue>, m: map<string, NodeValue>)
    requires DistinctIds(b)
    requires forall i :: 0 <= i < |b| ==> b[i].id in m && m[b[i].id] == b[i]
    requires forall id :: id in m ==> exists i :: 0 <= i < |b| && b[i].id == id
    ensures NodesById(b) == m
  {
    hide NodesById, DistinctIds;
    var n := NodesById(b);
    forall id ensures id in n <==> id in m {
      ByIdIff(b, id);
    }
    forall id | id in m ensures n[id] == m[id] {
      var i :| 0 <= i < |b| && b[i].id == id;
      ByIdAt(b, i);
    }
    assert n.Keys == m.Keys;
  }

  /** Replacing one node's attributes. */
  lemma ByIdSet(nodes: seq<NodeValue>, i: nat, attrs: map<string, Scalar>)
    requires i < |nodes| && DistinctIds(nodes)
    ensures NodesById(nodes[i := nodes[i].(attrs := attrs)]) == NodesById(nodes)[nodes[i].id := nodes[i].(attrs := attrs)]
  {
    var after := nodes[i := nodes[i].(attrs := attrs)];
    var m := NodesById(nodes)[nodes[i].id := nodes[i].(attrs := attrs)];
    forall j | 0 <= j < |after| ensures after[j].id in m && m[after[j].id] == after[j] {
      ByIdAt(nodes, j);
    }
    forall id | id in m ensures exists j :: 0 <= j < |after| && after[j].id == id {
      ByIdIff(nodes, id);
      if id != nodes[i].id {
        var j :| 0 <= j < |nodes| && nodes[j].id == id;
        assert after[j].id == id;
      } else {
        assert after[i].id == id;
      }
    }
    ByIdSame(after, m);
  }

  lemma ByIdMore(before: seq<NodeValue>, last: NodeValue)
    ensures NodesById(before + [last]) == NodesById(before)[last.id := last]
  {
    assert (before + [last])[..|before|] == before;
  }

  lemma FilterMore(before: seq<NodeValue>, last: NodeValue, id: string)
    ensures Filter(before + [last], NotNode(id)) == Filter(before, NotNode(id)) + if last.id == id then [] else [last]
  {
    FilterConcat(before, [last], NotNode(id));
    assert [last][1..] == [];
  }

  lemma UpdateThenDrop(m: map<string, NodeValue>, n: NodeValue, id: string)
    ensures m[n.id := n] - {id} == if n.id == id then m - {id} else (m - {id})[n.id := n]
  {
  }

  lemma {:induction false} FilterById(nodes: seq<NodeValue>, id: string)
    ensures NodesById(Filter(nodes, NotNode(id))) == NodesById(nodes) - {id}
    decreases |nodes|, 1
  {
    if nodes == [] {
      assert Filter(nodes, NotNode(id)) == [];
    } else {
      FilterByIdMore(nodes[..|nodes| - 1], nodes[|nodes| - 1], id);
      assert nodes[..|nodes| - 1] + [nodes[|nodes| - 1]] == nodes;
    }
  }

  lemma FilterByIdMore(before: seq<NodeValue>, last: NodeValue, id: string)
    ensures NodesById(Filter(before + [last], NotNode(id))) == NodesById(before + [last]) - {id}
    decreases |before| + 1, 0
  {
    hide Filter, NodesById;
    FilterById(before, id);
    var kept := Filter(before, NotNode(id));
    FilterMore(before, last, id);
    ByIdMore(before, last);
    UpdateThenDrop(NodesById(before), last, id);
    if last.id == id {
      assert kept + [] == kept;
    } else {
      ByIdMore(kept, last);
    }
  }

  lemma DerivedIs(base: Document, own: Document)
    ensures Derived(base, own).nodes == NodesById(base.nodes) + NodesById(own.nodes)
    ensures forall e :: e in Derived(base, own).edges <==> e in base.edges || e in own.edges
    ensures forall id :: HasNode(base.nodes, id) <==> id in NodesById(base.nodes)
    ensures forall id :: HasNode(own.nodes, id) <==> id in NodesById(own.nodes)
  {
    ByIdConcat(base.nodes, own.nodes);
    forall id ensures HasNode(base.nodes, id) <==> id in NodesById(base.nodes) {
      DerivedHas(base.nodes, id);
    }
    forall id ensures HasNode(own.nodes, id) <==> id in NodesById(own.nodes) {
      DerivedHas(own.nodes, id);
    }
  }

  // ---- what a write means -------------------------------------------------------------------------------------

  /** A node that is not frozen. */
  predicate Writable(base: Document, m: Repository, id: string) {
    id in m.nodes && !HasNode(base.nodes, id)
  }

  /** The writes a query may make of a model. */
  predicate Accepts(base: Document, own: Document, rules: Rules, deleted: set<string>, op: WriteOp) {
    var m := Derived(base, own);
    match op
    case CreateNode(id, concept, _) => concept in m.nodes && id !in m.nodes
    case SetProperty(id, _, _) => Writable(base, m, id)
    case RemoveProperty(id, _) => Writable(base, m, id)
    case CreateRelationship(e) => Writable(base, m, e.from) && e.to in m.nodes && rules.accepts(m, e)
    case DeleteRelationship(e) => Writable(base, m, e.from)
    case DeleteNode(id, detach) => id in deleted || (Writable(base, m, id) && (detach || !Touched(own.edges, id)))
  }

  /** The nodes afterwards: one more, one with other attributes, or one fewer. */
  ghost predicate NodesAfter(m: Repository, deleted: set<string>, op: WriteOp, n: Repository) {
    match op
    case CreateNode(id, concept, properties) => n.nodes == m.nodes[id := NodeValue(id, concept, properties)]
    case SetProperty(id, name, value) => id in m.nodes && n.nodes == m.nodes[id := m.nodes[id].(attrs := m.nodes[id].attrs[name := value])]
    case RemoveProperty(id, name) => id in m.nodes && n.nodes == m.nodes[id := m.nodes[id].(attrs := m.nodes[id].attrs - {name})]
    case CreateRelationship(_) => n.nodes == m.nodes
    case DeleteRelationship(_) => n.nodes == m.nodes
    case DeleteNode(id, _) => n.nodes == if id in deleted then m.nodes else m.nodes - {id}
  }

  /** The edges afterwards; those of the base documents stay. */
  ghost predicate EdgesAfter(base: Document, m: Repository, deleted: set<string>, op: WriteOp, n: Repository) {
    match op
    case CreateRelationship(e) => forall x :: x in n.edges <==> x in m.edges || x == e
    case DeleteRelationship(e) => forall x :: x in n.edges <==> x in m.edges && (x != e || x in base.edges)
    case DeleteNode(id, _) =>
      if id in deleted then n.edges == m.edges
      else forall x :: x in n.edges <==> x in m.edges && ((x.from != id && x.to != id) || x in base.edges)
    case _ => n.edges == m.edges
  }

  lemma AcceptedIff(base: Document, rules: Rules, p: Progress, op: WriteOp)
    ensures Perform(base, rules, p, op).Some? <==> Accepts(base, p.doc, rules, p.deleted, op)
  {
    hide NodesById, Derived;
    DerivedIs(base, p.doc);
  }

  lemma OwnAttrs(base: Document, own: Document, id: string)
    requires Sound(base, own) && HasNode(own.nodes, id)
    ensures id in Derived(base, own).nodes && id !in NodesById(base.nodes)
    ensures var i := NodeIndex(own.nodes, id); i < |own.nodes| && own.nodes[i].id == id && Derived(base, own).nodes[id] == own.nodes[i]
  {
    DerivedIs(base, own);
    ByIdAt(own.nodes, NodeIndex(own.nodes, id));
    var n :| n in own.nodes && n.id == id;
  }

  lemma SetMeans(base: Document, own: Document, id: string, attrs: map<string, Scalar>)
    requires Sound(base, own) && HasNode(own.nodes, id)
    ensures id in Derived(base, own).nodes && AttrsOf(own, id) == Derived(base, own).nodes[id].attrs
    ensures Derived(base, WithAttrs(own, id, attrs)).nodes == Derived(base, own).nodes[id := Derived(base, own).nodes[id].(attrs := attrs)]
    ensures Derived(base, WithAttrs(own, id, attrs)).edges == Derived(base, own).edges
  {
    hide NodesById, Derived, HasNode;
    OwnAttrs(base, own, id);
    var i := NodeIndex(own.nodes, id);
    assert DistinctIds(own.nodes);
    hide Sound;
    ByIdSet(own.nodes, i, attrs);
    DerivedIs(base, own);
    DerivedIs(base, WithAttrs(own, id, attrs));
    assert NodesById(base.nodes) + NodesById(own.nodes)[id := own.nodes[i].(attrs := attrs)]
        == (NodesById(base.nodes) + NodesById(own.nodes))[id := own.nodes[i].(attrs := attrs)];
  }

  lemma CreateMeans(base: Document, own: Document, n: NodeValue)
    ensures Derived(base, own.(nodes := own.nodes + [n])).nodes == Derived(base, own).nodes[n.id := n]
    ensures Derived(base, own.(nodes := own.nodes + [n])).edges == Derived(base, own).edges
  {
    var all := base.nodes + own.nodes;
    assert base.nodes + (own.nodes + [n]) == all + [n];
    assert (all + [n])[..|all|] == all;
  }

  lemma DropMeans(base: Document, own: Document, id: string)
    requires Sound(base, own) && HasNode(own.nodes, id)
    ensures var after := Document(Filter(own.nodes, NotNode(id)), Filter(own.edges, NotTouching(id)));
            && Derived(base, after).nodes == Derived(base, own).nodes - {id}
            && forall x :: x in Derived(base, after).edges <==> x in Derived(base, own).edges && ((x.from != id && x.to != id) || x in base.edges)
  {
    hide NodesById, Derived, HasNode, Filter, Sound, DistinctIds;
    var after := Document(Filter(own.nodes, NotNode(id)), Filter(own.edges, NotTouching(id)));
    OwnAttrs(base, own, id);
    DerivedIs(base, own);
    DerivedIs(base, after);
    FilterById(own.nodes, id);
    forall x ensures x in after.edges <==> x in own.edges && x.from != id && x.to != id {
      FilterMember(own.edges, NotTouching(id), x);
    }
  }

  lemma EdgeDropMeans(base: Document, own: Document, e: Edge)
    ensures var after := own.(edges := Filter(own.edges, NotEdge(e)));
            && Derived(base, after).nodes == Derived(base, own).nodes
            && forall x :: x in Derived(base, after).edges <==> x in Derived(base, own).edges && (x != e || x in base.edges)
  {
    var after := own.(edges := Filter(own.edges, NotEdge(e)));
    forall x ensures x in after.edges <==> x in own.edges && x != e {
      FilterMember(own.edges, NotEdge(e), x);
    }
  }

  /** A write is accepted exactly if the model lets it, and changes the model by what it says. */
  lemma WriteMeans(base: Document, rules: Rules, p: Progress, op: WriteOp)
    requires Sound(base, p.doc)
    ensures Perform(base, rules, p, op).Some? <==> Accepts(base, p.doc, rules, p.deleted, op)
    ensures Perform(base, rules, p, op).Some? ==>
              var m, n := Derived(base, p.doc), Derived(base, Perform(base, rules, p, op).value.doc);
              NodesAfter(m, p.deleted, op, n) && EdgesAfter(base, m, p.deleted, op, n)
  {
    hide Derived, NodesById, Sound, WithAttrs, AttrsOf, Accepts, HasNode, Touched, NodeIndex;
    AcceptedIff(base, rules, p, op);
    if Perform(base, rules, p, op).Some? {
      match op {
        case CreateNode(id, concept, properties) => CreateMeans(base, p.doc, NodeValue(id, concept, properties));
        case SetProperty(id, name, value) => SetMeans(base, p.doc, id, AttrsOf(p.doc, id)[name := value]);
        case RemoveProperty(id, name) => SetMeans(base, p.doc, id, AttrsOf(p.doc, id) - {name});
        case CreateRelationship(e) => EdgeAddMeans(base, p.doc, e);
        case DeleteRelationship(e) => EdgeDropMeans(base, p.doc, e);
        case DeleteNode(id, _) =>
          if id !in p.deleted {
            DropMeans(base, p.doc, id);
          }
      }
    }
  }

  lemma EdgeAddMeans(base: Document, own: Document, e: Edge)
    ensures var after := if e in own.edges then own else own.(edges := own.edges + [e]);
            && Derived(base, after).nodes == Derived(base, own).nodes
            && forall x :: x in Derived(base, after).edges <==> x in Derived(base, own).edges || x == e
  {
  }
}
