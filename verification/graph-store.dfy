/**
 The in-memory graph store: nodes, the edges of every node in both directions, and the nodes of every type.

 Both adjacencies are always the edges of the graph, each in the order they were added, sorted by one end
 (`InMemoryGraphStore.Valid`); so they agree, and no edge outlives either of its nodes. Every mutation is proved against
 `Mutate`, the effect it has on the graph.
 */
module GraphStores {
  import opened Wrappers
  import opened Seqs
  import opened Values

  datatype FieldDecl = FieldDecl(name: string, typeName: string, cardinality: nat)

  datatype Node = Node(tier: string, typeId: Option<string>, metaKind: Option<string>, namespace: Option<string>, localId: Option<string>,
                       isClass: bool, classId: Option<string>, storageId: Option<string>, canonicalId: Option<string>,
                       fields: seq<FieldDecl>, attrs: map<string, Scalar>)

  datatype Edge = Edge(kind: string, via: Option<string>, from: string, to: string)

  /** A graph: its nodes by id, and its edges as they were added. */
  datatype Graph = Graph(nodes: map<string, Node>, edges: seq<Edge>)

  datatype Mutation =
    | AddNode(id: string, node: Node)
    | AddEdge(edge: Edge)
    | RemoveEdge(edge: Edge)
    | AddFieldDecl(id: string, decl: FieldDecl)
    | SetAttr(id: string, name: string, value: Scalar)
    | Remove(id: string)

  function IsNot(edge: Edge): Edge -> bool {
    (e: Edge) => e != edge
  }

  function NotTouching(id: string): Edge -> bool {
    (e: Edge) => e.from != id && e.to != id
  }

  function FromIs(id: string): Edge -> bool {
    (e: Edge) => e.from == id
  }

  function ToIs(id: string): Edge -> bool {
    (e: Edge) => e.to == id
  }

  /** The effect of a mutation; None when it throws. */
  function Mutate(g: Graph, m: Mutation): Option<Graph> {
    match m
    case AddNode(id, node) => if id in g.nodes then None else Some(g.(nodes := g.nodes[id := node]))
    case AddEdge(e) => if e.from !in g.nodes || e.to !in g.nodes then None else Some(g.(edges := g.edges + [e]))
    case RemoveEdge(e) => Some(g.(edges := Filter(g.edges, IsNot(e))))
    case AddFieldDecl(id, decl) =>
      if id !in g.nodes then None else Some(g.(nodes := g.nodes[id := g.nodes[id].(fields := g.nodes[id].fields + [decl])]))
    case SetAttr(id, name, value) =>
      if id !in g.nodes then None else Some(g.(nodes := g.nodes[id := g.nodes[id].(attrs := g.nodes[id].attrs[name := value])]))
    case Remove(id) =>
      if id !in g.nodes then None else Some(Graph(g.nodes - {id}, Filter(g.edges, NotTouching(id))))
  }

  predicate Closed(g: Graph) {
    forall e :: e in g.edges ==> e.from in g.nodes && e.to in g.nodes
  }

  /** Every mutation keeps each edge between nodes that exist. */
  lemma MutateKeepsClosed(g: Graph, m: Mutation)
    requires Closed(g) && Mutate(g, m).Some?
    ensures Closed(Mutate(g, m).value)
  {
    forall e ensures m.RemoveEdge? && e in Filter(g.edges, IsNot(m.edge)) ==> e in g.edges {
      if m.RemoveEdge? {
        FilterMember(g.edges, IsNot(m.edge), e);
      }
    }
    forall e ensures m.Remove? && e in Filter(g.edges, NotTouching(m.id)) ==> e in g.edges && e.from != m.id && e.to != m.id {
      if m.Remove? {
        FilterMember(g.edges, NotTouching(m.id), e);
      }
    }
  }

  // ---- indexes ------------------------------------------------------------------------------------------------

  type Adjacency = map<string, seq<Edge>>
  type Index = map<string, set<string>>

  function EdgesAt(a: Adjacency, id: string): seq<Edge> {
    if id in a then a[id] else []
  }

  function Indexed(x: Index, key: string): set<string> {
    if key in x then x[key] else {}
  }

  function Append(a: Adjacency, key: string, e: Edge): Adjacency {
    a[key := EdgesAt(a, key) + [e]]
  }

  function AddTo(x: Index, key: Option<string>, id: string): Index {
    if key.None? then x else x[key.value := Indexed(x, key.value) + {id}]
  }

  function DropFrom(x: Index, key: Option<string>, id: string): Index {
    if key.None? || key.value !in x then x
    else if x[key.value] - {id} == {} then x - {key.value}
    else x[key.value := x[key.value] - {id}]
  }

  function TypeOf(): Node -> Option<string> {
    (n: Node) => n.typeId
  }

  function MetaKindOf(): Node -> Option<string> {
    (n: Node) => n.metaKind
  }

  /** An index lists exactly the nodes that have a key, and no key without nodes. */
  ghost predicate IndexOk(x: Index, nodes: map<string, Node>, key: Node -> Option<string>) {
    && (forall k :: k in x ==> x[k] != {})
    && (forall k, id :: id in Indexed(x, k) <==> id in nodes && key(nodes[id]) == Some(k))
  }

  lemma IndexAdds(x: Index, nodes: map<string, Node>, key: Node -> Option<string>, id: string, node: Node)
    requires IndexOk(x, nodes, key) && id !in nodes
    ensures IndexOk(AddTo(x, key(node), id), nodes[id := node], key)
  {
  }

  lemma IndexDrops(x: Index, nodes: map<string, Node>, key: Node -> Option<string>, id: string)
    requires IndexOk(x, nodes, key) && id in nodes
    ensures IndexOk(DropFrom(x, key(nodes[id]), id), nodes - {id}, key)
  {
    var own := key(nodes[id]);
    var y := DropFrom(x, own, id);
    forall k, other ensures other in Indexed(y, k) <==> other in nodes - {id} && key((nodes - {id})[other]) == Some(k) {
      assert other in Indexed(x, k) <==> other in nodes && key(nodes[other]) == Some(k);
      if own == Some(k) {
        assert id in Indexed(x, k);
      }
    }
  }

  lemma IndexStays(x: Index, nodes: map<string, Node>, key: Node -> Option<string>, id: string, node: Node)
    requires IndexOk(x, nodes, key) && id in nodes && key(node) == key(nodes[id])
    ensures IndexOk(x, nodes[id := node], key)
  {
  }

  // ---- adjacency ----------------------------------------------------------------------------------------------

  /** Every node's list is the edges with that node at one end, in the order they were added. */
  ghost predicate AdjacencyOk(a: Adjacency, edges: seq<Edge>, end: string -> Edge -> bool) {
    forall id :: EdgesAt(a, id) == Filter(edges, end(id))
  }

  lemma {:induction false} FilterBoth<T>(s: seq<T>, p: T -> bool, q: T -> bool, both: T -> bool)
    requires forall x :: x in s ==> both(x) == (p(x) && q(x))
    ensures Filter(Filter(s, p), q) == Filter(s, both)
  {
    if s != [] {
      FilterBoth(s[1..], p, q, both);
      assert s == [s[0]] + s[1..];
      if p(s[0]) {
        assert Filter(s, p)[0] == s[0] && Filter(s, p)[1..] == Filter(s[1..], p);
      }
    }
  }

  lemma AppendFilters(edges: seq<Edge>, e: Edge, p: Edge -> bool)
    ensures Filter(edges + [e], p) == Filter(edges, p) + if p(e) then [e] else []
  {
    FilterConcat(edges, [e], p);
    assert [e][1..] == [];
  }

  lemma AppendKeeps(a: Adjacency, edges: seq<Edge>, end: string -> Edge -> bool, key: string, e: Edge)
    requires AdjacencyOk(a, edges, end) && forall id :: end(id)(e) <==> id == key
    ensures AdjacencyOk(Append(a, key, e), edges + [e], end)
  {
    forall id ensures EdgesAt(Append(a, key, e), id) == Filter(edges + [e], end(id)) {
      AppendFilters(edges, e, end(id));
    }
  }

  /** Taking an edge out of the list of its own end takes it out everywhere. */
  lemma RemoveKeeps(a: Adjacency, edges: seq<Edge>, end: string -> Edge -> bool, key: string, e: Edge)
    requires AdjacencyOk(a, edges, end) && forall id :: end(id)(e) <==> id == key
    ensures AdjacencyOk(if key in a then a[key := Filter(a[key], IsNot(e))] else a, Filter(edges, IsNot(e)), end)
  {
    var b := if key in a then a[key := Filter(a[key], IsNot(e))] else a;
    forall id ensures EdgesAt(b, id) == Filter(Filter(edges, IsNot(e)), end(id)) {
      FilterTwice(edges, end(id), IsNot(e));
      if id == key {
        assert EdgesAt(a, key) == Filter(edges, end(key));
        assert key !in a ==> Filter([], IsNot(e)) == [];
      } else {
        NothingFiltered(edges, end(id), e);
      }
    }
  }

  lemma NothingFiltered(edges: seq<Edge>, p: Edge -> bool, e: Edge)
    requires !p(e)
    ensures Filter(Filter(edges, p), IsNot(e)) == Filter(edges, p)
  {
    forall x ensures x in Filter(edges, p) ==> x != e {
      FilterMember(edges, p, x);
    }
    FilterAll(Filter(edges, p), IsNot(e));
  }

  // ---- the store ----------------------------------------------------------------------------------------------

  function From(): string -> Edge -> bool {
    (id: string) => FromIs(id)
  }

  function To(): string -> Edge -> bool {
    (id: string) => ToIs(id)
  }

  class InMemoryGraphStore {
    var nodes: map<string, Node>
    var outs: Adjacency
    var ins: Adjacency
    var byType: Index
    var byMetaKind: Index
    ghost var edges: seq<Edge>

    ghost function Contents(): Graph
      reads this
    {
      Graph(nodes, edges)
    }

    ghost predicate Valid()
      reads this
    {
      && AdjacencyOk(outs, edges, From()) && AdjacencyOk(ins, edges, To()) && Closed(Contents())
      && IndexOk(byType, nodes, TypeOf()) && IndexOk(byMetaKind, nodes, MetaKindOf())
    }

    constructor ()
      ensures Valid() && Contents() == Graph(map[], [])
    {
      nodes, outs, ins, byType, byMetaKind, edges := map[], map[], map[], map[], map[], [];
    }

    method InstancesOf(typeId: string) returns (ids: set<string>)
      requires Valid()
      ensures forall id :: id in ids <==> id in nodes && nodes[id].typeId == Some(typeId)
    {
      ids := Indexed(byType, typeId);
    }

    method OutEdges(id: string) returns (r: seq<Edge>)
      requires Valid()
      ensures r == Filter(edges, FromIs(id))
    {
      assert From()(id) == FromIs(id);
      r := EdgesAt(outs, id);
    }

    method InEdges(id: string) returns (r: seq<Edge>)
      requires Valid()
      ensures r == Filter(edges, ToIs(id))
    {
      assert To()(id) == ToIs(id);
      r := EdgesAt(ins, id);
    }

    method AddNode(id: string, node: Node) returns (ok: bool)
      requires Valid()
      modifies this
      ensures Valid() && ok == Mutate(old(Contents()), Mutation.AddNode(id, node)).Some?
      ensures Contents() == if ok then Mutate(old(Contents()), Mutation.AddNode(id, node)).value else old(Contents())
    {
      hide AdjacencyOk, IndexOk;
      if id in nodes {
        return false;
      }
      IndexAdds(byType, nodes, TypeOf(), id, node);
      IndexAdds(byMetaKind, nodes, MetaKindOf(), id, node);
      nodes := nodes[id := node];
      byType := AddTo(byType, node.typeId, id);
      byMetaKind := AddTo(byMetaKind, node.metaKind, id);
      ok := true;
    }

    method AddEdge(e: Edge) returns (ok: bool)
      requires Valid()
      modifies this
      ensures Valid() && ok == Mutate(old(Contents()), Mutation.AddEdge(e)).Some?
      ensures Contents() == if ok then Mutate(old(Contents()), Mutation.AddEdge(e)).value else old(Contents())
    {
      hide AdjacencyOk, IndexOk;
      if e.from !in nodes || e.to !in nodes {
        return false;
      }
      AppendKeeps(outs, edges, From(), e.from, e);
      AppendKeeps(ins, edges, To(), e.to, e);
      MutateKeepsClosed(Contents(), Mutation.AddEdge(e));
      outs := Append(outs, e.from, e);
      ins := Append(ins, e.to, e);
      edges := edges + [e];
      ok := true;
    }

    /** Removes every edge equal to the one given. */
    method RemoveEdge(e: Edge)
      requires Valid()
      modifies this
      ensures Valid() && Contents() == Mutate(old(Contents()), Mutation.RemoveEdge(e)).value
    {
      hide AdjacencyOk, IndexOk;
      RemoveKeeps(outs, edges, From(), e.from, e);
      RemoveKeeps(ins, edges, To(), e.to, e);
      MutateKeepsClosed(Contents(), Mutation.RemoveEdge(e));
      if e.from in outs {
        outs := outs[e.from := Filter(outs[e.from], IsNot(e))];
      }
      if e.to in ins {
        ins := ins[e.to := Filter(ins[e.to], IsNot(e))];
      }
      edges := Filter(edges, IsNot(e));
    }

    method Change(id: string, node: Node)
      requires Valid() && id in nodes && node.typeId == nodes[id].typeId && node.metaKind == nodes[id].metaKind
      modifies this
      ensures Valid() && Contents() == old(Contents()).(nodes := old(nodes)[id := node])
    {
      hide AdjacencyOk, IndexOk;
      IndexStays(byType, nodes, TypeOf(), id, node);
      IndexStays(byMetaKind, nodes, MetaKindOf(), id, node);
      nodes := nodes[id := node];
    }

    method AddFieldDecl(id: string, decl: FieldDecl) returns (ok: bool)
      requires Valid()
      modifies this
      ensures Valid() && ok == Mutate(old(Contents()), Mutation.AddFieldDecl(id, decl)).Some?
      ensures Contents() == if ok then Mutate(old(Contents()), Mutation.AddFieldDecl(id, decl)).value else old(Contents())
    {
      if id !in nodes {
        return false;
      }
      Change(id, nodes[id].(fields := nodes[id].fields + [decl]));
      ok := true;
    }

    method SetAttr(id: string, name: string, value: Scalar) returns (ok: bool)
      requires Valid()
      modifies this
      ensures Valid() && ok == Mutate(old(Contents()), Mutation.SetAttr(id, name, value)).Some?
      ensures Contents() == if ok then Mutate(old(Contents()), Mutation.SetAttr(id, name, value)).value else old(Contents())
    {
      if id !in nodes {
        return false;
      }
      Change(id, nodes[id].(attrs := nodes[id].attrs[name := value]));
      ok := true;
    }

    /** Removes a node: first its edges from the lists of their other ends, then its own lists, its keys and itself. */
    method Remove(id: string) returns (ok: bool)
      requires Valid()
      modifies this
      ensures Valid() && ok == Mutate(old(Contents()), Mutation.Remove(id)).Some?
      ensures Contents() == if ok then Mutate(old(Contents()), Mutation.Remove(id)).value else old(Contents())
    {
      hide AdjacencyOk, IndexOk;
      if id !in nodes {
        return false;
      }
      ghost var were := edges;
      DetachKeeps(outs, ins, edges, id);
      var without := Dropped(ins, EdgesAt(outs, id), true);
      var alone := Dropped(outs, EdgesAt(without, id), false);
      ins := without - {id};
      outs := alone - {id};
      IndexDrops(byType, nodes, TypeOf(), id);
      IndexDrops(byMetaKind, nodes, MetaKindOf(), id);
      MutateKeepsClosed(Contents(), Mutation.Remove(id));
      byType := DropFrom(byType, nodes[id].typeId, id);
      byMetaKind := DropFrom(byMetaKind, nodes[id].metaKind, id);
      nodes := nodes - {id};
      edges := Filter(edges, NotTouching(id));
      ok := true;
    }
  }

  /** The lists with some edges taken out, each from the list of one end: its target, or its source. */
  function DroppedFrom(a: Adjacency, gone: seq<Edge>, n: nat, atTarget: bool): Adjacency
    requires n <= |gone|
  {
    if n == 0 then a
    else
      var b := DroppedFrom(a, gone, n - 1, atTarget);
      var key := if atTarget then gone[n - 1].to else gone[n - 1].from;
      if key in b then b[key := Filter(b[key], IsNot(gone[n - 1]))] else b
  }

  method Dropped(a: Adjacency, gone: seq<Edge>, atTarget: bool) returns (r: Adjacency)
    ensures r == DroppedFrom(a, gone, |gone|, atTarget)
  {
    r := a;
    for i := 0 to |gone|
      invariant r == DroppedFrom(a, gone, i, atTarget)
    {
      var key := if atTarget then gone[i].to else gone[i].from;
      if key in r {
        r := r[key := Filter(r[key], IsNot(gone[i]))];
      }
    }
  }

  function Remaining(gone: seq<Edge>): Edge -> bool {
    (e: Edge) => e !in gone
  }

  /** Each list loses exactly the edges taken out. */
  lemma {:induction false} DroppedAt(a: Adjacency, gone: seq<Edge>, n: nat, atTarget: bool, id: string)
    requires n <= |gone| && forall e :: e in EdgesAt(a, id) ==> (if atTarget then e.to else e.from) == id
    ensures EdgesAt(DroppedFrom(a, gone, n, atTarget), id) == Filter(EdgesAt(a, id), Remaining(gone[..n]))
  {
    var list := EdgesAt(a, id);
    if n == 0 {
      FilterAll(list, Remaining(gone[..0]));
    } else {
      DroppedAt(a, gone, n - 1, atTarget, id);
      var e := gone[n - 1];
      assert gone[..n] == gone[..n - 1] + [e];
      FilterBoth(list, Remaining(gone[..n - 1]), IsNot(e), Remaining(gone[..n]));
      var b := DroppedFrom(a, gone, n - 1, atTarget);
      if (if atTarget then e.to else e.from) != id {
        FilterEqual(list, Remaining(gone[..n - 1]), Remaining(gone[..n]));
      } else if id !in b {
        assert Filter([], IsNot(e)) == [];
      }
    }
  }

  function OnlyIn(id: string, k: string): Edge -> bool {
    (e: Edge) => e.to == k && e.from != id
  }

  function OnlyOut(id: string, k: string): Edge -> bool {
    (e: Edge) => e.from == k && e.to != id
  }

  /** Taking a node's edges out of the lists of their other ends leaves the edges that do not touch it. */
  lemma DetachKeeps(outs: Adjacency, ins: Adjacency, edges: seq<Edge>, id: string)
    requires AdjacencyOk(outs, edges, From()) && AdjacencyOk(ins, edges, To())
    ensures var without := DroppedFrom(ins, EdgesAt(outs, id), |EdgesAt(outs, id)|, true);
            var alone := DroppedFrom(outs, EdgesAt(without, id), |EdgesAt(without, id)|, false);
            && AdjacencyOk(without - {id}, Filter(edges, NotTouching(id)), To())
            && AdjacencyOk(alone - {id}, Filter(edges, NotTouching(id)), From())
  {
    hide DroppedFrom, Filter, AdjacencyOk;
    var mine := EdgesAt(outs, id);
    var without := DroppedFrom(ins, mine, |mine|, true);
    forall k ensures EdgesAt(without, k) == Filter(edges, OnlyIn(id, k)) {
      InsWithout(outs, ins, edges, id, k);
    }
    var others := EdgesAt(without, id);
    var alone := DroppedFrom(outs, others, |others|, false);
    forall k ensures k != id ==> EdgesAt(alone, k) == Filter(edges, OnlyOut(id, k)) {
      if k != id {
        OutsWithout(outs, edges, id, others, k);
      }
    }
    LeftIn(without, edges, id);
    LeftOut(alone, edges, id);
  }

  lemma LeftIn(without: Adjacency, edges: seq<Edge>, id: string)
    requires forall k :: EdgesAt(without, k) == Filter(edges, OnlyIn(id, k))
    ensures AdjacencyOk(without - {id}, Filter(edges, NotTouching(id)), To())
  {
    hide Filter;
    forall k ensures EdgesAt(without - {id}, k) == Filter(Filter(edges, NotTouching(id)), To()(k)) {
      EndsLeft(edges, id, k);
    }
  }

  lemma LeftOut(alone: Adjacency, edges: seq<Edge>, id: string)
    requires forall k :: k != id ==> EdgesAt(alone, k) == Filter(edges, OnlyOut(id, k))
    ensures AdjacencyOk(alone - {id}, Filter(edges, NotTouching(id)), From())
  {
    hide Filter;
    forall k ensures EdgesAt(alone - {id}, k) == Filter(Filter(edges, NotTouching(id)), From()(k)) {
      EndsLeft(edges, id, k);
    }
  }

  lemma EndsLeft(edges: seq<Edge>, id: string, k: string)
    ensures Filter(Filter(edges, NotTouching(id)), ToIs(k)) == if k == id then [] else Filter(edges, OnlyIn(id, k))
    ensures Filter(Filter(edges, NotTouching(id)), FromIs(k)) == if k == id then [] else Filter(edges, OnlyOut(id, k))
  {
    var left := Filter(edges, NotTouching(id));
    if k == id {
      forall e ensures e in left ==> e.from != id && e.to != id {
        FilterMember(edges, NotTouching(id), e);
      }
      FilterNone(left, ToIs(k));
      FilterNone(left, FromIs(k));
    } else {
      FilterBoth(edges, NotTouching(id), ToIs(k), OnlyIn(id, k));
      FilterBoth(edges, NotTouching(id), FromIs(k), OnlyOut(id, k));
    }
  }

  lemma InsWithout(outs: Adjacency, ins: Adjacency, edges: seq<Edge>, id: string, k: string)
    requires AdjacencyOk(outs, edges, From()) && AdjacencyOk(ins, edges, To())
    ensures EdgesAt(DroppedFrom(ins, EdgesAt(outs, id), |EdgesAt(outs, id)|, true), k) == Filter(edges, OnlyIn(id, k))
  {
    hide DroppedFrom;
    var mine := EdgesAt(outs, id);
    assert mine == Filter(edges, FromIs(id)) by {
      assert From()(id) == FromIs(id);
    }
    assert EdgesAt(ins, k) == Filter(edges, ToIs(k)) by {
      assert To()(k) == ToIs(k);
    }
    forall e ensures (e in mine <==> e in edges && e.from == id) && (e in EdgesAt(ins, k) <==> e in edges && e.to == k) {
      FilterMember(edges, FromIs(id), e);
      FilterMember(edges, ToIs(k), e);
    }
    DroppedAt(ins, mine, |mine|, true, k);
    assert mine[..|mine|] == mine;
    FilterBoth(edges, ToIs(k), Remaining(mine), OnlyIn(id, k));
  }

  lemma OutsWithout(outs: Adjacency, edges: seq<Edge>, id: string, others: seq<Edge>, k: string)
    requires AdjacencyOk(outs, edges, From()) && k != id && others == Filter(edges, OnlyIn(id, id))
    ensures EdgesAt(DroppedFrom(outs, others, |others|, false), k) == Filter(edges, OnlyOut(id, k))
  {
    hide DroppedFrom;
    assert EdgesAt(outs, k) == Filter(edges, FromIs(k)) by {
      assert From()(k) == FromIs(k);
    }
    forall e ensures (e in others <==> e in edges && e.to == id && e.from != id) && (e in EdgesAt(outs, k) <==> e in edges && e.from == k) {
      FilterMember(edges, OnlyIn(id, id), e);
      FilterMember(edges, FromIs(k), e);
    }
    DroppedAt(outs, others, |others|, false, k);
    assert others[..|others|] == others;
    FilterBoth(edges, FromIs(k), Remaining(others), OnlyOut(id, k));
  }

  /** The two adjacencies hold the same edges equally often. */
  lemma AdjacenciesAgree(outs: Adjacency, ins: Adjacency, edges: seq<Edge>, e: Edge)
    requires AdjacencyOk(outs, edges, From()) && AdjacencyOk(ins, edges, To())
    ensures multiset(EdgesAt(outs, e.from))[e] == multiset(EdgesAt(ins, e.to))[e] == multiset(edges)[e]
  {
    assert From()(e.from) == FromIs(e.from) && To()(e.to) == ToIs(e.to);
    FilterCounts(edges, FromIs(e.from), e);
    FilterCounts(edges, ToIs(e.to), e);
  }

  lemma {:induction false} FilterCounts<T>(s: seq<T>, p: T -> bool, x: T)
    ensures multiset(Filter(s, p))[x] == if p(x) then multiset(s)[x] else 0
  {
    if s != [] {
      FilterCounts(s[1..], p, x);
      assert s == [s[0]] + s[1..];
    }
  }
}
