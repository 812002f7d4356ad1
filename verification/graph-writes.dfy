/**
 Writing to a graph, and what its expansions are worth: in a well-formed graph a hop yields a neighbour once for every
 member that links the two nodes (`OutgoingDegree`, `IncomingDegree`).
 */
module GraphWrites {
  import opened Wrappers
  import opened Values
  import opened Query
  import opened Graphs
  import opened Seqs

  datatype Edge = Edge(from: string, member: string, to: string)

  ghost predicate Distinct<T>(s: seq<T>) {
    forall i, j :: 0 <= i < j < |s| ==> s[i] != s[j]
  }

  function Ids(nodes: seq<Node>): (r: seq<string>)
    ensures |r| == |nodes|
  {
    seq(|nodes|, i requires 0 <= i < |nodes| => nodes[i].id)
  }

  predicate Exists(g: Graph, id: string) {
    Find(g.nodes, id).Some?
  }

  /** What a node shows besides its references. */
  datatype View = View(concept: string, attrs: map<string, Scalar>)

  function ViewOf(g: Graph, id: string): (r: Option<View>)
    ensures r.Some? <==> Exists(g, id)
  {
    match Find(g.nodes, id)
    case None => None
    case Some(n) => Some(View(n.concept, n.attrs))
  }

  /** The ids a node's member points at. */
  function TargetsIn(g: Graph, from: string, member: string): seq<string> {
    match Find(g.nodes, from)
    case None => []
    case Some(n) => Targets(n.refs, member)
  }

  predicate HasEdge(g: Graph, e: Edge) {
    e.to in TargetsIn(g, e.from, e.member)
  }

  predicate Matches(member: string, relType: Option<string>) {
    relType.None? || member == relType.value
  }

  /** The members through which a node with these references points at `to`. */
  function Links(refs: seq<Refs>, to: string, relType: Option<string>): set<string> {
    if refs == [] then {}
    else (if Matches(refs[0].member, relType) && to in refs[0].targets then {refs[0].member} else {}) + Links(refs[1..], to, relType)
  }

  /** How often a hop from one node reaches the other. */
  function Degree(g: Graph, from: string, to: string, relType: Option<string>): nat {
    match Find(g.nodes, from)
    case None => 0
    case Some(n) => |Links(n.refs, to, relType)|
  }

  // ---- well-formed graphs -------------------------------------------------------------------------------------

  ghost predicate RefsOk(refs: seq<Refs>, members: seq<string>) {
    && (forall i, j :: 0 <= i < j < |refs| ==> refs[i].member != refs[j].member)
    && (forall i :: 0 <= i < |refs| ==> Distinct(refs[i].targets) && refs[i].member in members)
  }

  ghost predicate NodeOk(schema: Schema, n: Node) {
    RefsOk(n.refs, schema.EdgeMembers(n.concept))
  }

  /** No reference leads out of the graph. */
  ghost predicate Closed(g: Graph) {
    forall e: Edge :: HasEdge(g, e) ==> Exists(g, e.to)
  }

  /** One entry per member, one reference per target, through members that are edges, to nodes that exist. */
  ghost predicate WellFormed(schema: Schema, g: Graph) {
    && (forall c :: Distinct(schema.EdgeMembers(c)))
    && g.Valid()
    && (forall n :: n in g.nodes ==> NodeOk(schema, n))
    && Closed(g)
  }

  lemma {:induction false} TargetsFound(refs: seq<Refs>, members: seq<string>, i: nat)
    requires RefsOk(refs, members) && i < |refs|
    ensures Targets(refs, refs[i].member) == refs[i].targets
  {
    if i > 0 {
      assert refs[0].member != refs[i].member;
      TargetsFound(refs[1..], members, i - 1);
    }
  }

  lemma {:induction false} TargetsFrom(refs: seq<Refs>, member: string, to: string) returns (i: nat)
    requires to in Targets(refs, member)
    ensures i < |refs| && refs[i].member == member && refs[i].targets == Targets(refs, member)
  {
    if refs[0].member == member {
      i := 0;
    } else {
      i := TargetsFrom(refs[1..], member, to);
      i := i + 1;
    }
  }

  lemma {:induction false} TargetsAbsent(refs: seq<Refs>, member: string)
    requires forall i :: 0 <= i < |refs| ==> refs[i].member != member
    ensures Targets(refs, member) == []
  {
    if refs != [] {
      TargetsAbsent(refs[1..], member);
    }
  }

  /** A member has one entry. */
  lemma FirstIsOnly(refs: seq<Refs>, members: seq<string>)
    requires refs != [] && RefsOk(refs, members)
    ensures Targets(refs[1..], refs[0].member) == []
  {
    TargetsAbsent(refs[1..], refs[0].member);
  }

  lemma {:induction false} LinksAre(refs: seq<Refs>, members: seq<string>, to: string, relType: Option<string>, m: string)
    requires RefsOk(refs, members)
    ensures m in Links(refs, to, relType) <==> Matches(m, relType) && to in Targets(refs, m)
    ensures m in Links(refs, to, relType) ==> m in members
  {
    if refs != [] {
      LinksAre(refs[1..], members, to, relType, m);
      FirstIsOnly(refs, members);
    }
  }

  lemma FindMember(g: Graph, n: Node)
    requires g.Valid() && n in g.nodes
    ensures Find(g.nodes, n.id) == Some(n)
  {
    FindIs(g.nodes, n.id);
  }

  // ---- counting hops ------------------------------------------------------------------------------------------

  lemma {:induction false} DistinctCount(s: seq<string>, x: string)
    requires Distinct(s)
    ensures multiset(s)[x] == if x in s then 1 else 0
  {
    if s != [] {
      DistinctCount(s[1..], x);
      assert s == [s[0]] + s[1..];
    }
  }

  lemma {:induction false} FlatMapIds(ids: seq<string>, g: Graph, x: string)
    requires g.Valid()
    ensures multiset(Ids(ReflectAll(g, ids)))[x] == if Exists(g, x) then multiset(ids)[x] else 0
  {
    if ids == [] {
      assert ReflectAll(g, ids) == [];
    } else {
      FlatMapIds(ids[1..], g, x);
      FindIs(g.nodes, ids[0]);
      assert ids == [ids[0]] + ids[1..];
      IdsConcat(Reflected(g, ids[0]), ReflectAll(g, ids[1..]));
      assert ReflectAll(g, ids) == Reflected(g, ids[0]) + ReflectAll(g, ids[1..]);
      if Find(g.nodes, ids[0]).Some? {
        assert Ids(Reflected(g, ids[0])) == [ids[0]];
      }
    }
  }

  lemma IdsConcat(a: seq<Node>, b: seq<Node>)
    ensures Ids(a + b) == Ids(a) + Ids(b)
  {
  }

  function TargetsEach(refs: seq<Refs>): string -> seq<string> {
    (m: string) => Targets(refs, m)
  }

  function PointingAt(refs: seq<Refs>, ms: seq<string>, to: string): set<string> {
    set m | m in ms && to in Targets(refs, m)
  }

  /** How many of the members point at `to`. */
  lemma {:induction false} MembersCount(refs: seq<Refs>, ms: seq<string>, to: string)
    requires Distinct(ms) && forall m :: Distinct(Targets(refs, m))
    ensures multiset(FlatMap(ms, TargetsEach(refs)))[to] == |PointingAt(refs, ms, to)|
  {
    if ms != [] {
      var rest := PointingAt(refs, ms[1..], to);
      MembersCount(refs, ms[1..], to);
      DistinctCount(Targets(refs, ms[0]), to);
      assert FlatMap(ms, TargetsEach(refs)) == Targets(refs, ms[0]) + FlatMap(ms[1..], TargetsEach(refs));
      assert ms == [ms[0]] + ms[1..];
      assert ms[0] !in rest;
      assert PointingAt(refs, ms, to) == if to in Targets(refs, ms[0]) then rest + {ms[0]} else rest;
    } else {
      assert PointingAt(refs, ms, to) == {};
    }
  }

  lemma {:induction false} TargetsDistinct(refs: seq<Refs>, members: seq<string>, m: string)
    requires RefsOk(refs, members)
    ensures Distinct(Targets(refs, m))
  {
    if refs != [] && refs[0].member != m {
      TargetsDistinct(refs[1..], members, m);
    }
  }

  lemma OutgoingAll(schema: Schema, n: Node)
    ensures OutgoingIds(schema, n, None) == FlatMap(schema.EdgeMembers(n.concept), TargetsEach(n.refs))
  {
    FlatMapEqual(schema.EdgeMembers(n.concept), member => Targets(n.refs, member), TargetsEach(n.refs));
  }

  lemma OutgoingIdsDegree(schema: Schema, n: Node, relType: Option<string>, to: string)
    requires NodeOk(schema, n) && Distinct(schema.EdgeMembers(n.concept))
    ensures multiset(OutgoingIds(schema, n, relType))[to] == |Links(n.refs, to, relType)|
  {
    var members := schema.EdgeMembers(n.concept);
    forall m ensures Distinct(Targets(n.refs, m)) {
      TargetsDistinct(n.refs, members, m);
    }
    forall m ensures m in Links(n.refs, to, relType) <==> Matches(m, relType) && to in Targets(n.refs, m)
             ensures m in Links(n.refs, to, relType) ==> m in members
    {
      LinksAre(n.refs, members, to, relType, m);
    }
    if relType.Some? {
      DistinctCount(Targets(n.refs, relType.value), to);
      assert Links(n.refs, to, relType) == if to in Targets(n.refs, relType.value) then {relType.value} else {};
    } else {
      MembersCount(n.refs, members, to);
      OutgoingAll(schema, n);
      assert Links(n.refs, to, relType) == PointingAt(n.refs, members, to);
    }
  }

  lemma FlatMapOne<S, T>(x: S, f: S -> seq<T>)
    ensures FlatMap([x], f) == f(x)
  {
    assert [x][1..] == [];
  }

  /** Following a node's references yields every target once per linking member. */
  lemma OutgoingDegree(schema: Schema, g: Graph, id: string, relType: Option<string>, to: string)
    requires WellFormed(schema, g)
    ensures multiset(Ids(OutgoingNodes(schema, g, id, relType)))[to] == if Exists(g, to) then Degree(g, id, to, relType) else 0
  {
    hide ReflectAll, OutgoingIds, Links, Closed;
    FindIs(g.nodes, id);
    match Find(g.nodes, id) {
      case None =>
        assert OutgoingNodes(schema, g, id, relType) == [];
      case Some(n) =>
        var ids := OutgoingIds(schema, n, relType);
        assert Reflected(g, id) == [n] && [n][1..] == [];
        FlatMapOne(n, (m: Node) => ReflectAll(g, OutgoingIds(schema, m, relType)));
        FlatMapEqual([n], (m: Node) => ReflectAll(g, OutgoingIds(schema, m, relType)), m => ReflectAll(g, OutgoingIds(schema, m, relType)));
        FlatMapIds(ids, g, to);
        OutgoingIdsDegree(schema, n, relType, to);
    }
  }

  lemma {:induction false} HitsCount(targets: seq<string>, id: string, from: string, x: string)
    requires Distinct(targets)
    ensures multiset(FlatMap(targets, (target: string) => if target == id then [from] else []))[x]
         == if x == from && id in targets then 1 else 0
  {
    if targets != [] {
      HitsCount(targets[1..], id, from, x);
      assert targets == [targets[0]] + targets[1..];
    }
  }

  lemma {:induction false} RefsHits(refs: seq<Refs>, members: seq<string>, id: string, relType: Option<string>, from: string, x: string)
    requires RefsOk(refs, members)
    ensures multiset(FlatMap(refs, (r: Refs) => Hits(r, id, relType, from)))[x] == if x == from then |Links(refs, id, relType)| else 0
  {
    if refs != [] {
      RefsHits(refs[1..], members, id, relType, from, x);
      HitsCount(refs[0].targets, id, from, x);
      var rest := refs[1..];
      FirstIsOnly(refs, members);
      LinksAre(rest, members, id, relType, refs[0].member);
    }
  }

  lemma NodeHits(schema: Schema, n: Node, id: string, relType: Option<string>, x: string)
    requires NodeOk(schema, n)
    ensures multiset(HitsOf(n, id, relType))[x] == if x == n.id then |Links(n.refs, id, relType)| else 0
  {
    RefsHits(n.refs, schema.EdgeMembers(n.concept), id, relType, n.id, x);
    var f, h := (refs: Refs) => Hits(refs, id, relType, n.id), (r: Refs) => Hits(r, id, relType, n.id);
    FlatMapEqual(n.refs, f, h);
  }

  lemma {:induction false} ReferrersCount(schema: Schema, nodes: seq<Node>, id: string, relType: Option<string>, x: string)
    requires (forall n :: n in nodes ==> NodeOk(schema, n)) && Graph(nodes).Valid()
    ensures multiset(ReferrerIds(nodes, id, relType))[x] == Degree(Graph(nodes), x, id, relType)
  {
    hide HitsOf, Links;
    if nodes != [] {
      assert Graph(nodes[1..]).Valid();
      ReferrersCount(schema, nodes[1..], id, relType, x);
      NodeHits(schema, nodes[0], id, relType, x);
      assert ReferrerIds(nodes, id, relType) == HitsOf(nodes[0], id, relType) + ReferrerIds(nodes[1..], id, relType);
      if x == nodes[0].id {
        FindIs(nodes[1..], x);
      }
    }
  }

  /** Following references back yields every referrer once per linking member. */
  lemma IncomingDegree(schema: Schema, g: Graph, id: string, relType: Option<string>, from: string)
    requires WellFormed(schema, g)
    ensures multiset(Ids(IncomingNodes(g, id, relType)))[from] == Degree(g, from, id, relType)
  {
    hide ReflectAll, ReferrerIds, Links, Closed;
    ReferrersCount(schema, g.nodes, id, relType, from);
    FlatMapIds(ReferrerIds(g.nodes, id, relType), g, from);
  }

  // ---- writes -------------------------------------------------------------------------------------------------

  /** Replaces the node with this id. */
  function Change(nodes: seq<Node>, id: string, f: Node -> Node): (r: seq<Node>)
    ensures |r| == |nodes|
  {
    if nodes == [] then [] else [if nodes[0].id == id then f(nodes[0]) else nodes[0]] + Change(nodes[1..], id, f)
  }

  predicate KeepsId(f: Node -> Node, n: Node) {
    f(n).id == n.id
  }

  lemma {:induction false} FindChanged(nodes: seq<Node>, id: string, f: Node -> Node, x: string)
    requires forall n :: n in nodes ==> KeepsId(f, n)
    ensures Find(Change(nodes, id, f), x) == match Find(nodes, x) case None => None case Some(n) => Some(if x == id then f(n) else n)
    ensures Ids(Change(nodes, id, f)) == Ids(nodes)
  {
    if nodes != [] {
      FindChanged(nodes[1..], id, f, x);
      assert KeepsId(f, nodes[0]);
      assert Ids(nodes) == [nodes[0].id] + Ids(nodes[1..]);
      assert Ids(Change(nodes, id, f)) == [nodes[0].id] + Ids(Change(nodes[1..], id, f));
    }
  }

  lemma {:induction false} ChangedMember(nodes: seq<Node>, id: string, f: Node -> Node, n: Node) returns (was: Node)
    requires n in Change(nodes, id, f)
    ensures was in nodes && n == if was.id == id then f(was) else was
  {
    if n == Change(nodes, id, f)[0] {
      was := nodes[0];
    } else {
      was := ChangedMember(nodes[1..], id, f, n);
    }
  }

  lemma SameIdsValid(g: Graph, h: Graph)
    requires g.Valid() && Ids(h.nodes) == Ids(g.nodes)
    ensures h.Valid()
  {
    forall i, j | 0 <= i < |h.nodes| && 0 <= j < |h.nodes| && h.nodes[i].id == h.nodes[j].id ensures i == j {
      assert Ids(h.nodes)[i] == Ids(g.nodes)[i] && Ids(h.nodes)[j] == Ids(g.nodes)[j];
    }
  }

  function Attrs(attrs: map<string, Scalar>, name: string, value: Option<Scalar>): map<string, Scalar> {
    if value.None? then attrs - {name} else attrs[name := value.value]
  }

  function WithAttr(name: string, value: Option<Scalar>): Node -> Node {
    (n: Node) => n.(attrs := Attrs(n.attrs, name, value))
  }

  function AddTarget(refs: seq<Refs>, member: string, to: string): seq<Refs> {
    if refs == [] then [Refs(member, [to])]
    else if refs[0].member == member then [Refs(member, refs[0].targets + [to])] + refs[1..]
    else [refs[0]] + AddTarget(refs[1..], member, to)
  }

  function IsNot(id: string): string -> bool {
    (x: string) => x != id
  }

  function DropTarget(refs: seq<Refs>, member: string, to: string): (r: seq<Refs>)
    ensures |r| == |refs|
  {
    if refs == [] then []
    else [if refs[0].member == member then Refs(member, Filter(refs[0].targets, IsNot(to))) else refs[0]] + DropTarget(refs[1..], member, to)
  }

  function Forget(refs: seq<Refs>, id: string): (r: seq<Refs>)
    ensures |r| == |refs|
  {
    if refs == [] then [] else [Refs(refs[0].member, Filter(refs[0].targets, IsNot(id)))] + Forget(refs[1..], id)
  }

  function WithTarget(member: string, to: string): Node -> Node {
    (n: Node) => n.(refs := AddTarget(n.refs, member, to))
  }

  function WithoutTarget(member: string, to: string): Node -> Node {
    (n: Node) => n.(refs := DropTarget(n.refs, member, to))
  }

  function Created(g: Graph, id: string, concept: string, attrs: map<string, Scalar>): Graph {
    Graph(g.nodes + [Node(id, concept, attrs, [])])
  }

  function AttrSet(g: Graph, id: string, name: string, value: Option<Scalar>): Graph {
    Graph(Change(g.nodes, id, WithAttr(name, value)))
  }

  function EdgeAdded(g: Graph, e: Edge): Graph {
    Graph(Change(g.nodes, e.from, WithTarget(e.member, e.to)))
  }

  function EdgeDropped(g: Graph, e: Edge): Graph {
    Graph(Change(g.nodes, e.from, WithoutTarget(e.member, e.to)))
  }

  /** Every node but the one, its references to the one forgotten. */
  function Removed(nodes: seq<Node>, id: string): seq<Node> {
    if nodes == [] then []
    else (if nodes[0].id == id then [] else [nodes[0].(refs := Forget(nodes[0].refs, id))]) + Removed(nodes[1..], id)
  }

  function NodeRemoved(g: Graph, id: string): Graph {
    Graph(Removed(g.nodes, id))
  }

  // ---- what a write does to the references of a node ----------------------------------------------------------

  lemma {:induction false} TargetsAdded(refs: seq<Refs>, member: string, to: string, x: string)
    ensures Targets(AddTarget(refs, member, to), x) == if x == member then Targets(refs, member) + [to] else Targets(refs, x)
  {
    if refs != [] {
      if refs[0].member != member {
        TargetsAdded(refs[1..], member, to, x);
        assert ([refs[0]] + AddTarget(refs[1..], member, to))[1..] == AddTarget(refs[1..], member, to);
      } else {
        assert ([Refs(member, refs[0].targets + [to])] + refs[1..])[1..] == refs[1..];
      }
    }
  }

  lemma {:induction false} TargetsDropped(refs: seq<Refs>, member: string, to: string, x: string)
    ensures Targets(DropTarget(refs, member, to), x) == if x == member then Filter(Targets(refs, member), IsNot(to)) else Targets(refs, x)
  {
    if refs != [] {
      TargetsDropped(refs[1..], member, to, x);
      assert DropTarget(refs, member, to)[1..] == DropTarget(refs[1..], member, to);
    }
  }

  lemma {:induction false} TargetsForgotten(refs: seq<Refs>, id: string, x: string)
    ensures Targets(Forget(refs, id), x) == Filter(Targets(refs, x), IsNot(id))
  {
    if refs != [] {
      TargetsForgotten(refs[1..], id, x);
      assert Forget(refs, id)[1..] == Forget(refs[1..], id);
    }
  }

  lemma {:induction false} AddedMembers(refs: seq<Refs>, member: string, to: string, i: nat)
    requires i < |AddTarget(refs, member, to)|
    ensures AddTarget(refs, member, to)[i].member == member || i < |refs|
    ensures i < |refs| ==> AddTarget(refs, member, to)[i].member == refs[i].member
    ensures i < |refs| ==> AddTarget(refs, member, to)[i].targets == refs[i].targets
                           || (refs[i].member == member && AddTarget(refs, member, to)[i].targets == refs[i].targets + [to])
    ensures i >= |refs| ==> i == |refs| && AddTarget(refs, member, to)[i].targets == [to] && forall j :: 0 <= j < |refs| ==> refs[j].member != member
  {
    if refs != [] && refs[0].member != member && i > 0 {
      AddedMembers(refs[1..], member, to, i - 1);
    }
  }

  lemma AddedOk(refs: seq<Refs>, members: seq<string>, member: string, to: string)
    requires RefsOk(refs, members) && member in members && to !in Targets(refs, member)
    ensures RefsOk(AddTarget(refs, member, to), members)
  {
    var r := AddTarget(refs, member, to);
    forall i | 0 <= i < |r| ensures Distinct(r[i].targets) && r[i].member in members {
      AddedMembers(refs, member, to, i);
      if i < |refs| {
        TargetsFound(refs, members, i);
      }
    }
    forall i, j | 0 <= i < j < |r| ensures r[i].member != r[j].member {
      AddedMembers(refs, member, to, i);
      AddedMembers(refs, member, to, j);
    }
  }

  lemma {:induction false} FilterDistinct<T>(s: seq<T>, p: T -> bool)
    requires Distinct(s)
    ensures Distinct(Filter(s, p))
  {
    if s != [] {
      FilterDistinct(s[1..], p);
      if s[0] in Filter(s[1..], p) {
        FilterMember(s[1..], p, s[0]);
      }
    }
  }

  lemma {:induction false} DroppedAt(refs: seq<Refs>, member: string, to: string, i: nat)
    requires i < |refs|
    ensures DropTarget(refs, member, to)[i] == if refs[i].member == member then Refs(member, Filter(refs[i].targets, IsNot(to))) else refs[i]
  {
    if i > 0 {
      DroppedAt(refs[1..], member, to, i - 1);
    }
  }

  lemma DroppedOk(refs: seq<Refs>, members: seq<string>, member: string, to: string)
    requires RefsOk(refs, members)
    ensures RefsOk(DropTarget(refs, member, to), members)
  {
    var r := DropTarget(refs, member, to);
    forall i | 0 <= i < |r| ensures r[i].member == refs[i].member && Distinct(r[i].targets) {
      DroppedAt(refs, member, to, i);
      FilterDistinct(refs[i].targets, IsNot(to));
    }
  }

  lemma {:induction false} ForgottenAt(refs: seq<Refs>, id: string, i: nat)
    requires i < |refs|
    ensures Forget(refs, id)[i] == Refs(refs[i].member, Filter(refs[i].targets, IsNot(id)))
  {
    if i > 0 {
      ForgottenAt(refs[1..], id, i - 1);
    }
  }

  lemma ForgottenOk(refs: seq<Refs>, members: seq<string>, id: string)
    requires RefsOk(refs, members)
    ensures RefsOk(Forget(refs, id), members)
  {
    var r := Forget(refs, id);
    forall i | 0 <= i < |r| ensures r[i].member == refs[i].member && Distinct(r[i].targets) {
      ForgottenAt(refs, id, i);
      FilterDistinct(refs[i].targets, IsNot(id));
    }
  }

  // ---- what a write does to the graph -------------------------------------------------------------------------

  lemma {:induction false} FindAppended(nodes: seq<Node>, n: Node, x: string)
    ensures Find(nodes + [n], x) == if Find(nodes, x).Some? then Find(nodes, x) else if n.id == x then Some(n) else None
  {
    if nodes == [] {
      assert nodes + [n] == [n];
    } else {
      FindAppended(nodes[1..], n, x);
      assert (nodes + [n])[1..] == nodes[1..] + [n];
    }
  }

  lemma {:induction false} FindRemoved(nodes: seq<Node>, id: string, x: string)
    ensures Find(Removed(nodes, id), x)
         == if x == id then None else match Find(nodes, x) case None => None case Some(n) => Some(n.(refs := Forget(n.refs, id)))
    ensures Ids(Removed(nodes, id)) == Filter(Ids(nodes), IsNot(id))
  {
    if nodes != [] {
      FindRemoved(nodes[1..], id, x);
      assert Ids(nodes) == [nodes[0].id] + Ids(nodes[1..]);
      if nodes[0].id != id {
        var kept := nodes[0].(refs := Forget(nodes[0].refs, id));
        assert Removed(nodes, id) == [kept] + Removed(nodes[1..], id);
        assert Removed(nodes, id)[1..] == Removed(nodes[1..], id);
        assert Ids(Removed(nodes, id)) == [kept.id] + Ids(Removed(nodes[1..], id));
      } else {
        assert Removed(nodes, id) == Removed(nodes[1..], id);
      }
    }
  }

  lemma {:induction false} RemovedMember(nodes: seq<Node>, id: string, n: Node) returns (was: Node)
    requires n in Removed(nodes, id)
    ensures was in nodes && was.id != id && n == was.(refs := Forget(was.refs, id))
  {
    if nodes[0].id != id && n == Removed(nodes, id)[0] {
      was := nodes[0];
    } else {
      was := RemovedMember(nodes[1..], id, n);
    }
  }

  lemma CreatedWorks(schema: Schema, g: Graph, id: string, concept: string, attrs: map<string, Scalar>)
    requires WellFormed(schema, g) && !Exists(g, id)
    ensures WellFormed(schema, Created(g, id, concept, attrs))
    ensures forall x :: ViewOf(Created(g, id, concept, attrs), x) == if x == id then Some(View(concept, attrs)) else ViewOf(g, x)
    ensures forall e :: HasEdge(Created(g, id, concept, attrs), e) <==> HasEdge(g, e)
    ensures Ids(Created(g, id, concept, attrs).nodes) == Ids(g.nodes) + [id]
  {
    var n := Node(id, concept, attrs, []);
    var h := Created(g, id, concept, attrs);
    FindIs(g.nodes, id);
    forall x ensures Find(h.nodes, x) == if x == id then Some(n) else Find(g.nodes, x) {
      FindAppended(g.nodes, n, x);
    }
    IdsConcat(g.nodes, [n]);
    assert Ids([n]) == [id];
    assert forall e :: HasEdge(h, e) <==> HasEdge(g, e);
    assert forall m :: m in h.nodes ==> m in g.nodes || m == n;
    forall i, j | 0 <= i < |h.nodes| && 0 <= j < |h.nodes| && h.nodes[i].id == h.nodes[j].id ensures i == j {
      assert i < |g.nodes| ==> h.nodes[i] == g.nodes[i] && g.nodes[i] in g.nodes;
      assert j < |g.nodes| ==> h.nodes[j] == g.nodes[j] && g.nodes[j] in g.nodes;
    }
  }

  lemma ChangeWorks(schema: Schema, g: Graph, id: string, f: Node -> Node)
    requires WellFormed(schema, g) && forall n :: n in g.nodes ==> KeepsId(f, n) && f(n).concept == n.concept
    requires forall n :: n in g.nodes && n.id == id ==> NodeOk(schema, f(n))
    ensures var h := Graph(Change(g.nodes, id, f)); h.Valid() && Ids(h.nodes) == Ids(g.nodes) && forall n :: n in h.nodes ==> NodeOk(schema, n)
    ensures forall x :: Find(Change(g.nodes, id, f), x) == match Find(g.nodes, x) case None => None case Some(n) => Some(if x == id then f(n) else n)
  {
    hide NodeOk;
    var h := Graph(Change(g.nodes, id, f));
    forall x ensures Find(h.nodes, x) == match Find(g.nodes, x) case None => None case Some(n) => Some(if x == id then f(n) else n) {
      FindChanged(g.nodes, id, f, x);
    }
    FindChanged(g.nodes, id, f, id);
    SameIdsValid(g, h);
    forall n | n in h.nodes ensures NodeOk(schema, n) {
      var was := ChangedMember(g.nodes, id, f, n);
    }
  }

  lemma AttrSetWorks(schema: Schema, g: Graph, id: string, name: string, value: Option<Scalar>)
    requires WellFormed(schema, g)
    ensures WellFormed(schema, AttrSet(g, id, name, value))
    ensures forall x :: ViewOf(AttrSet(g, id, name, value), x)
                     == match ViewOf(g, x) case None => None case Some(v) => Some(if x == id then v.(attrs := Attrs(v.attrs, name, value)) else v)
    ensures forall e :: HasEdge(AttrSet(g, id, name, value), e) <==> HasEdge(g, e)
    ensures Ids(AttrSet(g, id, name, value).nodes) == Ids(g.nodes)
  {
    ChangeWorks(schema, g, id, WithAttr(name, value));
    assert forall e :: HasEdge(AttrSet(g, id, name, value), e) <==> HasEdge(g, e);
  }

  lemma EdgeAddedWorks(schema: Schema, g: Graph, e: Edge)
    requires WellFormed(schema, g) && Exists(g, e.from) && Exists(g, e.to) && !HasEdge(g, e)
    requires e.member in schema.EdgeMembers(ViewOf(g, e.from).value.concept)
    ensures WellFormed(schema, EdgeAdded(g, e))
    ensures forall x :: HasEdge(EdgeAdded(g, e), x) <==> HasEdge(g, x) || x == e
    ensures Ids(EdgeAdded(g, e).nodes) == Ids(g.nodes)
    ensures forall x :: ViewOf(EdgeAdded(g, e), x) == ViewOf(g, x)
  {
    var f := WithTarget(e.member, e.to);
    forall n | n in g.nodes && n.id == e.from ensures NodeOk(schema, f(n)) {
      FindMember(g, n);
      AddedOk(n.refs, schema.EdgeMembers(n.concept), e.member, e.to);
    }
    ChangeWorks(schema, g, e.from, f);
    var h := EdgeAdded(g, e);
    forall x ensures HasEdge(h, x) <==> HasEdge(g, x) || x == e {
      if Find(g.nodes, x.from).Some? {
        TargetsAdded(Find(g.nodes, x.from).value.refs, e.member, e.to, x.member);
      }
    }
  }

  lemma FilterIsNot(s: seq<string>, id: string, x: string)
    ensures x in Filter(s, IsNot(id)) <==> x in s && x != id
  {
    FilterMember(s, IsNot(id), x);
  }

  lemma EdgeDroppedWorks(schema: Schema, g: Graph, e: Edge)
    requires WellFormed(schema, g)
    ensures WellFormed(schema, EdgeDropped(g, e))
    ensures forall x :: HasEdge(EdgeDropped(g, e), x) <==> HasEdge(g, x) && x != e
    ensures Ids(EdgeDropped(g, e).nodes) == Ids(g.nodes)
    ensures forall x :: ViewOf(EdgeDropped(g, e), x) == ViewOf(g, x)
  {
    var f := WithoutTarget(e.member, e.to);
    forall n | n in g.nodes && n.id == e.from ensures NodeOk(schema, f(n)) {
      DroppedOk(n.refs, schema.EdgeMembers(n.concept), e.member, e.to);
    }
    ChangeWorks(schema, g, e.from, f);
    var h := EdgeDropped(g, e);
    forall x ensures HasEdge(h, x) <==> HasEdge(g, x) && x != e {
      if Find(g.nodes, x.from).Some? {
        var refs := Find(g.nodes, x.from).value.refs;
        TargetsDropped(refs, e.member, e.to, x.member);
        FilterIsNot(Targets(refs, e.member), e.to, x.to);
      }
    }
  }

  lemma NodeRemovedWorks(schema: Schema, g: Graph, id: string)
    requires WellFormed(schema, g)
    ensures WellFormed(schema, NodeRemoved(g, id))
    ensures forall x :: HasEdge(NodeRemoved(g, id), x) <==> HasEdge(g, x) && x.from != id && x.to != id
    ensures Ids(NodeRemoved(g, id).nodes) == Filter(Ids(g.nodes), IsNot(id))
    ensures forall x :: ViewOf(NodeRemoved(g, id), x) == if x == id then None else ViewOf(g, x)
  {
    var h := NodeRemoved(g, id);
    forall x ensures Find(h.nodes, x) == if x == id then None else match Find(g.nodes, x) case None => None case Some(n) => Some(n.(refs := Forget(n.refs, id))) {
      FindRemoved(g.nodes, id, x);
    }
    FindRemoved(g.nodes, id, id);
    forall x ensures HasEdge(h, x) <==> HasEdge(g, x) && x.from != id && x.to != id {
      if Find(g.nodes, x.from).Some? {
        var refs := Find(g.nodes, x.from).value.refs;
        TargetsForgotten(refs, id, x.member);
        FilterIsNot(Targets(refs, x.member), id, x.to);
      }
    }
    forall n | n in h.nodes ensures NodeOk(schema, n) {
      var was := RemovedMember(g.nodes, id, n);
      ForgottenOk(was.refs, schema.EdgeMembers(was.concept), id);
    }
    RemovedValid(g.nodes, id);
  }

  lemma {:induction false} RemovedValid(nodes: seq<Node>, id: string)
    requires Graph(nodes).Valid()
    ensures Graph(Removed(nodes, id)).Valid()
  {
    if nodes != [] {
      assert Graph(nodes[1..]).Valid();
      RemovedValid(nodes[1..], id);
      var h := Removed(nodes, id);
      if nodes[0].id != id {
        forall n | n in Removed(nodes[1..], id) ensures n.id != nodes[0].id {
          var was := RemovedMember(nodes[1..], id, n);
        }
        assert h[1..] == Removed(nodes[1..], id);
        forall i, j | 0 <= i < |h| && 0 <= j < |h| && h[i].id == h[j].id ensures i == j {
          assert i > 0 ==> h[i] == h[1..][i - 1];
          assert j > 0 ==> h[j] == h[1..][j - 1];
        }
      } else {
        assert h == Removed(nodes[1..], id);
      }
    }
  }
}
