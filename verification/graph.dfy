/** The graph a query reads, and its restriction to some of its nodes. */
module Graphs {
  import opened Wrappers
  import opened Values
  import opened Query
  import opened Seqs

  /**
   What the schema says: the concept a label names, the concepts a concept may stand for (itself and its supertypes), and
   the members a concept's instances traverse as edges, in order.
   */
  datatype Schema = Schema(concepts: map<string, string>, supertypes: map<string, set<string>>,
                           members: map<string, seq<string>>) {

    /** Every concept a label names is known and matches itself. */
    predicate Valid() {
      && (forall labelName :: labelName in concepts ==> concepts[labelName] in supertypes)
      && (forall c :: c in supertypes ==> c in supertypes[c])
    }

    /** True when a scan of `concept` also yields instances of `instance`. */
    predicate Matches(concept: string, instance: string) {
      instance in supertypes && concept in supertypes[instance]
    }

    predicate IsInstanceOf(node: Node, labelName: string) {
      labelName in concepts && Matches(concepts[labelName], node.concept)
    }

    predicate HasLabel(node: Node, labelName: Option<string>) {
      labelName.None? || IsInstanceOf(node, labelName.value)
    }

    predicate HasRelationshipType(relType: string) {
      exists c :: c in members && relType in members[c]
    }

    function EdgeMembers(concept: string): seq<string> {
      if concept in members then members[concept] else []
    }
  }

  /** The instances, in store order, with distinct ids. */
  datatype Graph = Graph(nodes: seq<Node>) {
    predicate Valid() {
      forall i, j :: 0 <= i < |nodes| && 0 <= j < |nodes| && nodes[i].id == nodes[j].id ==> i == j
    }
  }

  function Find(nodes: seq<Node>, id: string): Option<Node> {
    if nodes == [] then None else if nodes[0].id == id then Some(nodes[0]) else Find(nodes[1..], id)
  }

  lemma {:induction false} FindIs(nodes: seq<Node>, id: string)
    ensures var r := Find(nodes, id);
            if r.Some? then r.value in nodes && r.value.id == id else forall n :: n in nodes ==> n.id != id
  {
    if nodes != [] {
      FindIs(nodes[1..], id);
    }
  }

  /** The node with this id as a sequence of at most one. */
  function Reflected(g: Graph, id: string): seq<Node> {
    var n := Find(g.nodes, id);
    if n.Some? then [n.value] else []
  }

  /** The nodes with these ids, in this order; unknown ids are skipped. */
  function ReflectAll(g: Graph, ids: seq<string>): seq<Node> {
    FlatMap(ids, id => Reflected(g, id))
  }

  function Targets(refs: seq<Refs>, member: string): seq<string> {
    if refs == [] then [] else if refs[0].member == member then refs[0].targets else Targets(refs[1..], member)
  }

  function OutgoingIds(schema: Schema, node: Node, relType: Option<string>): seq<string> {
    match relType
    case Some(t) => Targets(node.refs, t)
    case None => FlatMap(schema.EdgeMembers(node.concept), member => Targets(node.refs, member))
  }

  function OutgoingNodes(schema: Schema, g: Graph, id: string, relType: Option<string>): seq<Node> {
    FlatMap(Reflected(g, id), n => ReflectAll(g, OutgoingIds(schema, n, relType)))
  }

  /** One entry `from` for every reference of `from` to `id` through a matching member. */
  function Hits(refs: Refs, id: string, relType: Option<string>, from: string): seq<string> {
    if relType.Some? && refs.member != relType.value then []
    else FlatMap(refs.targets, target => if target == id then [from] else [])
  }

  function HitsOf(node: Node, id: string, relType: Option<string>): seq<string> {
    FlatMap(node.refs, refs => Hits(refs, id, relType, node.id))
  }

  function ReferrerIds(nodes: seq<Node>, id: string, relType: Option<string>): seq<string> {
    FlatMap(nodes, n => HitsOf(n, id, relType))
  }

  function IncomingNodes(g: Graph, id: string, relType: Option<string>): seq<Node> {
    ReflectAll(g, ReferrerIds(g.nodes, id, relType))
  }

  /** The first node of every id, in order; ids in `seen` are dropped. */
  function Dedup(nodes: seq<Node>, seen: set<string>): seq<Node> {
    if nodes == [] then []
    else if nodes[0].id in seen then Dedup(nodes[1..], seen)
    else [nodes[0]] + Dedup(nodes[1..], seen + {nodes[0].id})
  }

  /** The nodes one hop from `id`, one per edge; an undirected hop reports every neighbour once. */
  function Expand(schema: Schema, g: Graph, id: string, relType: Option<string>, direction: Direction): seq<Node> {
    match direction
    case Outgoing => OutgoingNodes(schema, g, id, relType)
    case Incoming => IncomingNodes(g, id, relType)
    case Undirected => Dedup(OutgoingNodes(schema, g, id, relType) + IncomingNodes(g, id, relType), {})
  }

  lemma ReflectAllMembers(g: Graph, ids: seq<string>, n: Node)
    requires n in ReflectAll(g, ids)
    ensures n in g.nodes
  {
    FlatMapMember(ids, id => Reflected(g, id), n);
    var id :| id in ids && n in Reflected(g, id);
    FindIs(g.nodes, id);
  }

  lemma {:induction false} DedupMembers(nodes: seq<Node>, seen: set<string>, n: Node)
    requires n in Dedup(nodes, seen)
    ensures n in nodes
  {
    if nodes[0].id in seen {
      DedupMembers(nodes[1..], seen, n);
    } else if n != nodes[0] {
      DedupMembers(nodes[1..], seen + {nodes[0].id}, n);
    }
  }

  /** A hop stays in the graph. */
  lemma ExpandMembers(schema: Schema, g: Graph, id: string, relType: Option<string>, direction: Direction, n: Node)
    requires n in Expand(schema, g, id, relType, direction)
    ensures n in g.nodes
  {
    hide ReflectAll, ReferrerIds, OutgoingIds, Reflected, Dedup;
    if direction.Undirected? {
      DedupMembers(OutgoingNodes(schema, g, id, relType) + IncomingNodes(g, id, relType), {}, n);
    }
    if n in OutgoingNodes(schema, g, id, relType) {
      FlatMapMember(Reflected(g, id), m => ReflectAll(g, OutgoingIds(schema, m, relType)), n);
      var m :| m in Reflected(g, id) && n in ReflectAll(g, OutgoingIds(schema, m, relType));
      ReflectAllMembers(g, OutgoingIds(schema, m, relType), n);
    } else {
      ReflectAllMembers(g, ReferrerIds(g.nodes, id, relType), n);
    }
  }

  // ---- restriction to some nodes ------------------------------------------------------------------------------

  function Stays(gone: set<string>): Node -> bool {
    (n: Node) => n.id !in gone
  }

  function IdStays(gone: set<string>): string -> bool {
    (id: string) => id !in gone
  }

  /** The graph without the nodes in `gone`; references to them dangle and are skipped when followed. */
  function Without(g: Graph, gone: set<string>): Graph {
    Graph(Filter(g.nodes, Stays(gone)))
  }

  lemma {:induction false} FindKept(nodes: seq<Node>, gone: set<string>, id: string)
    ensures Find(Filter(nodes, Stays(gone)), id) == if id in gone then None else Find(nodes, id)
  {
    if nodes != [] {
      FindKept(nodes[1..], gone, id);
      if nodes[0].id !in gone {
        var kept := Filter(nodes, Stays(gone));
        assert kept[0] == nodes[0] && kept[1..] == Filter(nodes[1..], Stays(gone));
      }
    }
  }

  lemma ReflectedKept(g: Graph, gone: set<string>, id: string)
    ensures Reflected(Without(g, gone), id) == if id in gone then [] else Reflected(g, id)
    ensures Filter(Reflected(g, id), Stays(gone)) == Reflected(Without(g, gone), id)
  {
    FindKept(g.nodes, gone, id);
    FindIs(g.nodes, id);
    if id in gone {
      FilterNone(Reflected(g, id), Stays(gone));
    } else {
      FilterAll(Reflected(g, id), Stays(gone));
    }
  }

  lemma ReflectAllKept(g: Graph, gone: set<string>, ids: seq<string>)
    ensures ReflectAll(Without(g, gone), ids) == Filter(ReflectAll(g, ids), Stays(gone))
    ensures ReflectAll(Without(g, gone), Filter(ids, IdStays(gone))) == ReflectAll(Without(g, gone), ids)
  {
    hide Reflected;
    var f, h := (id: string) => Reflected(g, id), (id: string) => Reflected(Without(g, gone), id);
    forall id ensures h(id) == Filter(f(id), Stays(gone)) && (h(id) == if IdStays(gone)(id) then h(id) else []) {
      ReflectedKept(g, gone, id);
    }
    FilterFlatMap(ids, f, Stays(gone), h);
    FlatMapFilter(ids, IdStays(gone), h, h);
  }

  /** All hits of a node name the node itself, so they stay or go together. */
  lemma HitsKept(node: Node, id: string, relType: Option<string>, gone: set<string>)
    ensures Filter(HitsOf(node, id, relType), IdStays(gone)) == if node.id in gone then [] else HitsOf(node, id, relType)
  {
    forall x | x in HitsOf(node, id, relType) ensures x == node.id {
      FlatMapMember(node.refs, refs => Hits(refs, id, relType, node.id), x);
      var refs :| refs in node.refs && x in Hits(refs, id, relType, node.id);
      FlatMapMember(refs.targets, target => if target == id then [node.id] else [], x);
    }
    if node.id in gone {
      FilterNone(HitsOf(node, id, relType), IdStays(gone));
    } else {
      FilterAll(HitsOf(node, id, relType), IdStays(gone));
    }
  }

  lemma ReferrerIdsKept(nodes: seq<Node>, id: string, relType: Option<string>, gone: set<string>)
    ensures ReferrerIds(Filter(nodes, Stays(gone)), id, relType) == Filter(ReferrerIds(nodes, id, relType), IdStays(gone))
  {
    hide HitsOf;
    forall n: Node {
      HitsKept(n, id, relType, gone);
    }
    FilterCommutes(nodes, Stays(gone), n => HitsOf(n, id, relType), IdStays(gone), n => HitsOf(n, id, relType));
  }

  lemma {:induction false} DedupKept(nodes: seq<Node>, seen: set<string>, more: set<string>, gone: set<string>)
    requires seen <= more <= seen + gone
    ensures Dedup(Filter(nodes, Stays(gone)), seen) == Filter(Dedup(nodes, more), Stays(gone))
  {
    if nodes != [] {
      var n := nodes[0];
      var kept := Filter(nodes, Stays(gone));
      if n.id in gone {
        DedupKept(nodes[1..], seen, more + {n.id}, gone);
        if n.id in more {
          assert more + {n.id} == more;
        } else {
          FilterHead(n, Dedup(nodes[1..], more + {n.id}), Stays(gone));
        }
      } else {
        assert kept[0] == n && kept[1..] == Filter(nodes[1..], Stays(gone));
        if n.id in seen {
          DedupKept(nodes[1..], seen, more, gone);
        } else {
          DedupKept(nodes[1..], seen + {n.id}, more + {n.id}, gone);
          FilterHead(n, Dedup(nodes[1..], more + {n.id}), Stays(gone));
        }
      }
    }
  }

  lemma FilterHead<T>(x: T, s: seq<T>, p: T -> bool)
    ensures Filter([x] + s, p) == if p(x) then [x] + Filter(s, p) else Filter(s, p)
  {
    assert ([x] + s)[1..] == s;
  }

  /** From a node that stays, one hop in the restricted graph reaches what it reached before, minus what is gone. */
  lemma ExpandKept(schema: Schema, g: Graph, gone: set<string>, id: string, relType: Option<string>, direction: Direction)
    requires id !in gone
    ensures Expand(schema, Without(g, gone), id, relType, direction)
         == Filter(Expand(schema, g, id, relType, direction), Stays(gone))
  {
    OutgoingKept(schema, g, gone, id, relType);
    IncomingKept(g, gone, id, relType);
    hide IncomingNodes, OutgoingNodes, Without;
    var out, inn := OutgoingNodes(schema, g, id, relType), IncomingNodes(g, id, relType);
    FilterConcat(out, inn, Stays(gone));
    DedupKept(out + inn, {}, {}, gone);
  }

  lemma OutgoingKept(schema: Schema, g: Graph, gone: set<string>, id: string, relType: Option<string>)
    requires id !in gone
    ensures OutgoingNodes(schema, Without(g, gone), id, relType)
         == Filter(OutgoingNodes(schema, g, id, relType), Stays(gone))
  {
    hide Reflected, ReflectAll, OutgoingIds, Without;
    ReflectedKept(g, gone, id);
    forall n: Node {
      ReflectAllKept(g, gone, OutgoingIds(schema, n, relType));
    }
    FilterFlatMap(Reflected(g, id), n => ReflectAll(g, OutgoingIds(schema, n, relType)), Stays(gone),
                  n => ReflectAll(Without(g, gone), OutgoingIds(schema, n, relType)));
  }

  lemma IncomingKept(g: Graph, gone: set<string>, id: string, relType: Option<string>)
    ensures IncomingNodes(Without(g, gone), id, relType) == Filter(IncomingNodes(g, id, relType), Stays(gone))
  {
    hide ReflectAll, ReferrerIds;
    var ids := ReferrerIds(g.nodes, id, relType);
    ReferrerIdsKept(g.nodes, id, relType, gone);
    ReflectAllKept(g, gone, ids);
  }
}
