/**
 Reading a write query's own uncommitted writes. The overlay records every accepted write over the unchanged base graph;
 its graph answers each read as the graph with the writes really applied would: the same instances and labels in the same
 order, the same fields, and the same neighbours as often (order aside). A mirror handed out earlier always shows the
 current state.
 */
module WriteOverlays {
  import opened Wrappers
  import opened Values
  import opened Query
  import opened Graphs
  import opened Seqs
  import opened GraphWrites
  import opened OverlayStates

  // ---- the overlay --------------------------------------------------------------------------------------------

  datatype Materialized = Materialized(version: nat, view: Option<View>)

  class WriteOverlay {
    const base: Graph
    var created: map<string, CreatedNode>
    var createdIds: seq<string>
    var changedAttrs: map<string, map<string, Option<Scalar>>>
    var deletedNodes: set<string>
    var addedEdges: seq<Edge>
    var deletedEdges: seq<Edge>
    var touched: set<string>
    var version: nat
    var materialized: map<string, Materialized>

    ghost function Held(): State
      reads this
    {
      State(created, createdIds, changedAttrs, deletedNodes, addedEdges, deletedEdges, touched)
    }

    /** A cached view of this version is the current one; no entry is from a later version. */
    ghost predicate CacheOk()
      reads this
    {
      forall id :: id in materialized ==>
        materialized[id].version <= version && (materialized[id].version == version ==> materialized[id].view == Synthesized(base, Held(), id))
    }

    constructor (graph: Graph)
      ensures base == graph && Held() == Start() && CacheOk()
    {
      base := graph;
      created, createdIds, changedAttrs, deletedNodes := map[], [], map[], {};
      addedEdges, deletedEdges, touched, version, materialized := [], [], {}, 0, map[];
    }

    method RecordCreate(id: string, concept: string, properties: map<string, Scalar>)
      requires CacheOk()
      modifies this
      ensures Held() == OverlayStates.RecordCreate(old(Held()), id, concept, properties) && CacheOk()
    {
      if id !in created {
        createdIds := createdIds + [id];
      }
      created := created[id := CreatedNode(concept, properties)];
      touched := touched + {id};
      version := version + 1;
    }

    method RecordSet(id: string, name: string, value: Scalar)
      requires CacheOk()
      modifies this
      ensures Held() == RecordAttr(old(Held()), id, name, Some(value)) && CacheOk()
    {
      ChangeAttr(id, name, Some(value));
    }

    method RecordRemove(id: string, name: string)
      requires CacheOk()
      modifies this
      ensures Held() == RecordAttr(old(Held()), id, name, None) && CacheOk()
    {
      ChangeAttr(id, name, None);
    }

    method ChangeAttr(id: string, name: string, value: Option<Scalar>)
      requires CacheOk()
      modifies this
      ensures Held() == RecordAttr(old(Held()), id, name, value) && CacheOk()
    {
      if id in created {
        var attrs := created[id].attrs;
        if value.None? {
          attrs := attrs - {name};
        } else {
          attrs := attrs[name := value.value];
        }
        created := created[id := created[id].(attrs := attrs)];
      } else {
        var changes: map<string, Option<Scalar>> := map[];
        if id in changedAttrs {
          changes := changedAttrs[id];
        }
        changedAttrs := changedAttrs[id := changes[name := value]];
      }
      touched := touched + {id};
      version := version + 1;
    }

    method RecordAddEdge(e: Edge)
      requires CacheOk()
      modifies this
      ensures Held() == OverlayStates.RecordAddEdge(old(Held()), e) && CacheOk()
    {
      if e in deletedEdges {
        deletedEdges := WithoutEdge(deletedEdges, e);
      } else {
        addedEdges := WithEdge(addedEdges, e);
      }
      touched := touched + {e.from};
      version := version + 1;
    }

    method RecordDeleteEdge(e: Edge)
      requires CacheOk()
      modifies this
      ensures Held() == OverlayStates.RecordDeleteEdge(old(Held()), e) && CacheOk()
    {
      if e in addedEdges {
        addedEdges := WithoutEdge(addedEdges, e);
      } else {
        deletedEdges := WithEdge(deletedEdges, e);
      }
      touched := touched + {e.from};
      version := version + 1;
    }

    method RecordDeleteNode(id: string)
      requires CacheOk()
      modifies this
      ensures Held() == OverlayStates.RecordDeleteNode(old(Held()), id) && CacheOk()
    {
      deletedNodes := deletedNodes + {id};
      touched := touched + {id};
      version := version + 1;
    }

    method Synthesize(id: string) returns (r: Option<View>)
      ensures r == Synthesized(base, Held(), id)
    {
      if id in created {
        return Some(View(created[id].concept, created[id].attrs));
      }
      var view := ViewOf(base, id);
      if view.None? {
        return None;
      }
      var changes: map<string, Option<Scalar>> := map[];
      if id in changedAttrs {
        changes := changedAttrs[id];
      }
      r := Some(view.value.(attrs := ApplyChanges(view.value.attrs, changes)));
    }

    /** The node as it stands now; a touched node's view is built once per version. */
    method Current(id: string) returns (r: Option<View>)
      requires CacheOk()
      modifies this`materialized
      ensures r == CurrentView(base, Held(), id) && CacheOk()
    {
      if id in deletedNodes {
        return None;
      }
      if id !in touched {
        return ViewOf(base, id);
      }
      if id in materialized && materialized[id].version == version {
        return materialized[id].view;
      }
      r := Synthesize(id);
      materialized := materialized[id := Materialized(version, r)];
    }
  }

  // ---- mirrors ------------------------------------------------------------------------------------------------

  /** A live view of one node, with what it showed when it was first seen. */
  datatype Mirror = Mirror(id: string, firstSeen: View)

  function MirrorIds(mirrors: seq<Mirror>): (r: seq<string>)
    ensures |r| == |mirrors|
  {
    seq(|mirrors|, i requires 0 <= i < |mirrors| => mirrors[i].id)
  }

  /** A mirror of an untouched node was taken from the base. */
  ghost predicate MirrorOk(base: Graph, s: State, m: Mirror) {
    m.id !in s.touched ==> ViewOf(base, m.id) == Some(m.firstSeen)
  }

  ghost predicate MirrorsOk(base: Graph, s: State, mirrors: seq<Mirror>) {
    forall i :: 0 <= i < |mirrors| ==> MirrorOk(base, s, mirrors[i])
  }

  // ---- counting -----------------------------------------------------------------------------------------------

  /** Removes the first node with this id. */
  function RemoveOne(nodes: seq<Node>, id: string): seq<Node> {
    if nodes == [] then [] else if nodes[0].id == id then nodes[1..] else [nodes[0]] + RemoveOne(nodes[1..], id)
  }

  lemma {:induction false} RemoveOneCount(nodes: seq<Node>, id: string, x: string)
    ensures multiset(Ids(RemoveOne(nodes, id)))[x] == if x == id && multiset(Ids(nodes))[x] > 0 then multiset(Ids(nodes))[x] - 1 else multiset(Ids(nodes))[x]
    ensures forall n :: n in RemoveOne(nodes, id) ==> n in nodes
  {
    if nodes != [] {
      FirstCounted(nodes[0], nodes[1..], x);
      assert nodes == [nodes[0]] + nodes[1..];
      if nodes[0].id != id {
        RemoveOneCount(nodes[1..], id, x);
        FirstCounted(nodes[0], RemoveOne(nodes[1..], id), x);
      }
    }
  }

  lemma FirstCounted(first: Node, rest: seq<Node>, x: string)
    ensures multiset(Ids([first] + rest))[x] == multiset(Ids(rest))[x] + if first.id == x then 1 else 0
  {
    assert Ids([first] + rest) == [first.id] + Ids(rest);
  }

  /** Where a recorded edge leads when followed forward or back. */
  function Near(e: Edge, forward: bool): string {
    if forward then e.from else e.to
  }

  function Far(e: Edge, forward: bool): string {
    if forward then e.to else e.from
  }

  predicate Follows(e: Edge, id: string, relType: Option<string>, forward: bool) {
    Near(e, forward) == id && Matches(e.member, relType)
  }

  /** The recorded edges between a node and another, seen from the one. */
  function Along(es: seq<Edge>, id: string, other: string, relType: Option<string>, forward: bool): set<string> {
    if forward then Recorded(es, id, other, relType) else Recorded(es, other, id, relType)
  }

  /** One more recorded edge counts once, between its own ends. */
  lemma RecordedNext(es: seq<Edge>, i: nat, from: string, to: string, relType: Option<string>)
    requires Distinct(es) && i < |es|
    ensures var here := es[i].from == from && es[i].to == to && Matches(es[i].member, relType);
      && Recorded(es[..i + 1], from, to, relType) == Recorded(es[..i], from, to, relType) + (if here then {es[i].member} else {})
      && (here ==> es[i].member !in Recorded(es[..i], from, to, relType))
    ensures Recorded(es[..i + 1], from, to, relType) <= Recorded(es, from, to, relType)
  {
    hide Recorded;
    var before, after, e := es[..i], es[..i + 1], es[i];
    assert after == before + [e];
    assert e !in before by {
      assert forall j :: 0 <= j < |before| ==> before[j] == es[j] && es[j] != e;
    }
    forall m ensures m in Recorded(after, from, to, relType)
                <==> m in Recorded(before, from, to, relType) || (m == e.member && e.from == from && e.to == to && Matches(m, relType))
             ensures m in Recorded(after, from, to, relType) ==> m in Recorded(es, from, to, relType)
    {
      RecordedIs(after, from, to, relType, m);
      RecordedIs(before, from, to, relType, m);
      RecordedIs(es, from, to, relType, m);
    }
    RecordedIs(before, from, to, relType, e.member);
  }

  lemma AlongNext(es: seq<Edge>, i: nat, id: string, other: string, relType: Option<string>, forward: bool)
    requires Distinct(es) && i < |es|
    ensures |Along(es[..i + 1], id, other, relType, forward)|
         == |Along(es[..i], id, other, relType, forward)| + (if Follows(es[i], id, relType, forward) && Far(es[i], forward) == other then 1 else 0)
    ensures Along(es[..i + 1], id, other, relType, forward) <= Along(es, id, other, relType, forward)
  {
    hide Recorded, Distinct, Matches;
    RecordedNext(es, i, if forward then id else other, if forward then other else id, relType);
  }

  /** How often the base leads from a node to another. */
  function BaseLinks(base: Graph, id: string, other: string, relType: Option<string>, forward: bool): set<string> {
    if forward then LinkSet(base, id, other, relType) else LinkSet(base, other, id, relType)
  }

  function BaseHop(schema: Schema, base: Graph, id: string, relType: Option<string>, forward: bool): seq<Node> {
    Graphs.Expand(schema, base, id, relType, if forward then Outgoing else Incoming)
  }

  lemma BaseHopCount(schema: Schema, base: Graph, id: string, relType: Option<string>, forward: bool, other: string)
    requires WellFormed(schema, base)
    ensures multiset(Ids(BaseHop(schema, base, id, relType, forward)))[other] == |BaseLinks(base, id, other, relType, forward)|
  {
    hide WellFormed, HasEdge, Links, OutgoingNodes, IncomingNodes;
    if forward {
      OutgoingDegree(schema, base, id, relType, other);
      if !Exists(base, other) {
        NoLinksOut(schema, base, id, other, relType);
      }
    } else {
      IncomingDegree(schema, base, id, relType, other);
    }
  }

  lemma NoLinksOut(schema: Schema, g: Graph, from: string, to: string, relType: Option<string>)
    requires WellFormed(schema, g) && !(Exists(g, from) && Exists(g, to))
    ensures LinkSet(g, from, to, relType) == {}
  {
    hide Links;
    forall m ensures m !in LinkSet(g, from, to, relType) {
      LinkSetIs(schema, g, from, to, relType, m);
      if HasEdge(g, Edge(from, m, to)) {
        EdgeEnds(schema, g, Edge(from, m, to));
      }
    }
  }

  lemma EdgeEnds(schema: Schema, g: Graph, e: Edge)
    requires WellFormed(schema, g) && HasEdge(g, e)
    ensures Exists(g, e.from) && Exists(g, e.to)
  {
  }

  /** How often a hop over the applied graph reaches another node, from what the overlay holds. */
  lemma AppliedHopCount(schema: Schema, base: Graph, s: State, applied: Graph, id: string, relType: Option<string>, forward: bool, other: string)
    requires Simulates(schema, base, s, applied)
    ensures multiset(Ids(BaseHop(schema, applied, id, relType, forward)))[other]
         == if id in s.deleted || other in s.deleted then 0
            else |BaseLinks(base, id, other, relType, forward)| - |Along(s.dropped, id, other, relType, forward)| + |Along(s.added, id, other, relType, forward)|
    ensures Along(s.dropped, id, other, relType, forward) <= BaseLinks(base, id, other, relType, forward)
  {
    hide WellFormed, HasEdge, Links, Filter;
    BaseHopCount(schema, applied, id, relType, forward, other);
    if forward {
      LinksAfter(schema, base, s, applied, id, other, relType);
    } else {
      LinksAfter(schema, base, s, applied, other, id, relType);
    }
  }

  lemma BaseHopMembers(schema: Schema, base: Graph, id: string, relType: Option<string>, forward: bool)
    ensures forall n :: n in BaseHop(schema, base, id, relType, forward) ==> n in base.nodes
  {
    forall n | n in BaseHop(schema, base, id, relType, forward) ensures n in base.nodes {
      ExpandMembers(schema, base, id, relType, if forward then Outgoing else Incoming, n);
    }
  }

  lemma {:induction false} KeptCount(ids: seq<string>, s: State, x: string)
    ensures multiset(Filter(ids, IsKept(s)))[x] == if x in s.deleted then 0 else multiset(ids)[x]
  {
    if ids != [] {
      KeptCount(ids[1..], s, x);
      assert ids == [ids[0]] + ids[1..];
    }
  }

  lemma {:induction false} FirstsAre(nodes: seq<Node>, seen: set<string>, x: string)
    ensures multiset(Ids(Graphs.Dedup(nodes, seen)))[x] == if x in Ids(nodes) && x !in seen then 1 else 0
  {
    if nodes != [] {
      assert Ids(nodes) == [nodes[0].id] + Ids(nodes[1..]);
      if nodes[0].id in seen {
        FirstsAre(nodes[1..], seen, x);
      } else {
        FirstsAre(nodes[1..], seen + {nodes[0].id}, x);
        assert Ids(Graphs.Dedup(nodes, seen)) == [nodes[0].id] + Ids(Graphs.Dedup(nodes[1..], seen + {nodes[0].id}));
      }
    }
  }

  lemma SameCounts(a: seq<string>, b: seq<string>)
    requires forall x :: multiset(a)[x] == multiset(b)[x]
    ensures multiset(a) == multiset(b)
  {
  }

  // ---- the overlay's graph ------------------------------------------------------------------------------------

  class OverlayGraph {
    const overlay: WriteOverlay
    const schema: Schema

    constructor (over: WriteOverlay, s: Schema)
      ensures overlay == over && schema == s
    {
      overlay := over;
      schema := s;
    }

    /** The overlay stands for the applied graph. */
    ghost predicate Shows(applied: Graph)
      reads overlay
    {
      overlay.CacheOk() && Simulates(schema, overlay.base, overlay.Held(), applied)
    }

    /** What a mirror shows now: an untouched node is exactly as first seen. */
    method Live(m: Mirror, ghost applied: Graph) returns (r: Option<View>)
      requires Shows(applied) && MirrorOk(overlay.base, overlay.Held(), m)
      modifies overlay`materialized
      ensures Shows(applied) && r == ViewOf(applied, m.id)
    {
      assert ViewOf(applied, m.id) == CurrentView(overlay.base, overlay.Held(), m.id);
      if m.id in overlay.touched {
        r := overlay.Current(m.id);
      } else {
        r := Some(m.firstSeen);
      }
    }

    method Reflect(id: string, ghost applied: Graph) returns (r: Option<Mirror>)
      requires Shows(applied)
      modifies overlay`materialized
      ensures Shows(applied)
      ensures r.Some? <==> Exists(applied, id)
      ensures r.Some? ==> r.value.id == id && MirrorOk(overlay.base, overlay.Held(), r.value) && ViewOf(applied, id) == Some(r.value.firstSeen)
    {
      assert ViewOf(applied, id) == CurrentView(overlay.base, overlay.Held(), id);
      var current := overlay.Current(id);
      r := if current.None? then None else Some(Mirror(id, current.value));
    }

    /** Drops deleted nodes; survivors become live mirrors. */
    method Visible(nodes: seq<Node>) returns (out: seq<Mirror>)
      requires overlay.base.Valid() && forall n :: n in nodes ==> n in overlay.base.nodes
      ensures MirrorIds(out) == Filter(Ids(nodes), IsKept(overlay.Held())) && MirrorsOk(overlay.base, overlay.Held(), out)
    {
      ghost var keep := IsKept(overlay.Held());
      out := [];
      for i := 0 to |nodes|
        invariant MirrorIds(out) == Filter(Ids(nodes)[..i], keep) && MirrorsOk(overlay.base, overlay.Held(), out)
      {
        assert Ids(nodes)[..i + 1] == Ids(nodes)[..i] + [nodes[i].id];
        FilterConcat(Ids(nodes)[..i], [nodes[i].id], keep);
        FilterSingle(nodes[i].id, keep);
        if nodes[i].id !in overlay.deletedNodes {
          FindMember(overlay.base, nodes[i]);
          out := out + [Mirror(nodes[i].id, View(nodes[i].concept, nodes[i].attrs))];
        }
      }
      assert Ids(nodes)[..|nodes|] == Ids(nodes);
    }

    method CreatedMirrors(ghost applied: Graph) returns (out: seq<Mirror>)
      requires Shows(applied)
      modifies overlay`materialized
      ensures Shows(applied)
      ensures MirrorIds(out) == Filter(overlay.createdIds, IsKept(overlay.Held())) && MirrorsOk(overlay.base, overlay.Held(), out)
      ensures forall i :: 0 <= i < |out| ==> ViewOf(applied, out[i].id) == Some(out[i].firstSeen)
    {
      hide Simulates, WellFormed, CurrentView, Synthesized, ViewOf;
      ghost var keep := IsKept(overlay.Held());
      var ids := overlay.createdIds;
      out := [];
      for i := 0 to |ids|
        invariant Shows(applied) && overlay.Held() == old(overlay.Held())
        invariant MirrorIds(out) == Filter(ids[..i], keep) && MirrorsOk(overlay.base, overlay.Held(), out)
        invariant forall j :: 0 <= j < |out| ==> ViewOf(applied, out[j].id) == Some(out[j].firstSeen)
      {
        assert ids[..i + 1] == ids[..i] + [ids[i]];
        FilterConcat(ids[..i], [ids[i]], keep);
        FilterSingle(ids[i], keep);
        CreatedShown(schema, overlay.base, overlay.Held(), applied, ids[i]);
        var m := Reflect(ids[i], applied);
        if m.Some? {
          out := out + [m.value];
        }
      }
      assert ids[..|ids|] == ids;
    }

    /** Every instance of the applied graph, in its order. */
    method AllInstances(ghost applied: Graph) returns (out: seq<Mirror>)
      requires Shows(applied)
      modifies overlay`materialized
      ensures Shows(applied) && MirrorIds(out) == Ids(applied.nodes) && MirrorsOk(overlay.base, overlay.Held(), out)
    {
      var survivors := Visible(overlay.base.nodes);
      var created := CreatedMirrors(applied);
      out := survivors + created;
      assert MirrorIds(out) == MirrorIds(survivors) + MirrorIds(created);
    }

    /** The mirrors whose concept has the label; a created mirror's concept is the one it was created with. */
    method Labelled(mirrors: seq<Mirror>, labelName: string, ghost applied: Graph) returns (out: seq<Mirror>)
      requires MirrorsOk(overlay.base, overlay.Held(), mirrors)
      requires forall i :: 0 <= i < |mirrors| ==> ViewOf(applied, mirrors[i].id) == Some(mirrors[i].firstSeen)
      ensures MirrorsOk(overlay.base, overlay.Held(), out)
      ensures MirrorIds(out) == Filter(MirrorIds(mirrors), HasConcept(schema, applied, labelName))
    {
      hide HasConcept, IsConcept, ViewOf, MirrorOk, Filter;
      ghost var test := HasConcept(schema, applied, labelName);
      out := [];
      FilterNothing(test);
      for i := 0 to |mirrors|
        invariant MirrorsOk(overlay.base, overlay.Held(), out)
        invariant MirrorIds(out) == Filter(MirrorIds(mirrors)[..i], test)
      {
        var m := mirrors[i];
        assert MirrorIds(mirrors)[..i + 1] == MirrorIds(mirrors)[..i] + [m.id];
        FilterConcat(MirrorIds(mirrors)[..i], [m.id], test);
        FilterSingle(m.id, test);
        ConceptTest(schema, applied, labelName, m);
        if IsConcept(schema, m.firstSeen.concept, labelName) {
          assert MirrorIds(out + [m]) == MirrorIds(out) + [m.id];
          out := out + [m];
        }
      }
      assert MirrorIds(mirrors)[..|mirrors|] == MirrorIds(mirrors);
    }

    /** The instances of a label in the applied graph, in its order. */
    method NodesByLabel(labelName: string, ghost applied: Graph) returns (out: seq<Mirror>)
      requires Shows(applied)
      modifies overlay`materialized
      ensures Shows(applied) && MirrorsOk(overlay.base, overlay.Held(), out)
      ensures MirrorIds(out) == Filter(Ids(applied.nodes), HasConcept(schema, applied, labelName))
    {
      hide Simulates, WellFormed, HasConcept, FilterNodes, CurrentView, Synthesized, HasEdge, ViewOf, MirrorIds, Ids;
      var scanned := FilterNodes(overlay.base.nodes, schema, labelName);
      assert overlay.base.Valid() by { SimulatesValid(schema, overlay.base, overlay.Held(), applied); }
      var survivors := Visible(scanned);
      var created := CreatedMirrors(applied);
      var labelled := Labelled(created, labelName, applied);
      out := survivors + labelled;
      MirrorIdsConcat(survivors, labelled);
      LabelScan(schema, overlay.base, overlay.Held(), applied, labelName);
    }

    /** What the base still has of a hop forward, once the dropped edges are taken out. */
    method OutgoingLeft(id: string, relType: Option<string>, ghost applied: Graph) returns (remaining: seq<Node>)
      requires Shows(applied) && id !in overlay.deletedNodes
      ensures forall n :: n in remaining ==> n in overlay.base.nodes
      ensures forall x :: multiset(Ids(remaining))[x]
                       == |BaseLinks(overlay.base, id, x, relType, true)| - |Along(overlay.deletedEdges, id, x, relType, true)|
    {
      hide Simulates, WellFormed, CurrentView, Synthesized, HasEdge, BaseLinks, Along, OutgoingNodes, IncomingNodes, ViewOf, Ids;
      remaining := if id in overlay.created then [] else Graphs.Expand(schema, overlay.base, id, relType, Outgoing);
      StartOfHop(schema, overlay.base, overlay.Held(), applied, id, relType, true);
      var dropped := overlay.deletedEdges;
      for i := 0 to |dropped|
        invariant forall n :: n in remaining ==> n in overlay.base.nodes
        invariant forall x :: multiset(Ids(remaining))[x] == |BaseLinks(overlay.base, id, x, relType, true)| - |Along(dropped[..i], id, x, relType, true)|
      {
        DropStep(schema, overlay.base, overlay.Held(), applied, id, relType, true, remaining, i);
        if dropped[i].from == id && Matches(dropped[i].member, relType) {
          remaining := RemoveOne(remaining, dropped[i].to);
        }
      }
      assert dropped[..|dropped|] == dropped;
    }

    /** Nodes one hop forward, one entry per edge. */
    method OutgoingMirrors(id: string, relType: Option<string>, ghost applied: Graph) returns (out: seq<Mirror>)
      requires Shows(applied) && id !in overlay.deletedNodes
      modifies overlay`materialized
      ensures Shows(applied) && MirrorsOk(overlay.base, overlay.Held(), out)
      ensures multiset(MirrorIds(out)) == multiset(Ids(BaseHop(schema, applied, id, relType, true)))
    {
      hide Simulates, WellFormed, CurrentView, Synthesized, HasEdge, BaseLinks, Along, HopSoFar, OutgoingNodes, IncomingNodes, ViewOf, Ids, BaseHop;
      assert overlay.base.Valid() by { SimulatesValid(schema, overlay.base, overlay.Held(), applied); }
      ghost var s := overlay.Held();
      var remaining := OutgoingLeft(id, relType, applied);
      out := Visible(remaining);
      KeptCounts(Ids(remaining), s);
      HopStarts(overlay.base, s, id, relType, true, Ids(remaining), MirrorIds(out));
      var added := overlay.addedEdges;
      for i := 0 to |added|
        invariant Shows(applied) && overlay.Held() == s && MirrorsOk(overlay.base, s, out)
        invariant HopSoFar(overlay.base, s, id, relType, true, MirrorIds(out), added[..i])
      {
        AddStep(schema, overlay.base, s, applied, id, relType, true, MirrorIds(out), i);
        if added[i].from == id && Matches(added[i].member, relType) {
          var target := Reflect(added[i].to, applied);
          if target.Some? {
            assert MirrorIds(out + [target.value]) == MirrorIds(out) + [target.value.id];
            out := out + [target.value];
          }
        }
      }
      assert added[..|added|] == added;
      HopIsWhole(schema, overlay.base, s, applied, id, relType, true, MirrorIds(out));
    }

    /** What the base still has of a hop back, once the dropped edges are taken out. */
    method IncomingLeft(id: string, relType: Option<string>, ghost applied: Graph) returns (remaining: seq<Node>)
      requires Shows(applied) && id !in overlay.deletedNodes
      ensures forall n :: n in remaining ==> n in overlay.base.nodes
      ensures forall x :: multiset(Ids(remaining))[x]
                       == |BaseLinks(overlay.base, id, x, relType, false)| - |Along(overlay.deletedEdges, id, x, relType, false)|
    {
      hide Simulates, WellFormed, CurrentView, Synthesized, HasEdge, BaseLinks, Along, OutgoingNodes, IncomingNodes, ViewOf, Ids;
      remaining := if id in overlay.created then [] else Graphs.Expand(schema, overlay.base, id, relType, Incoming);
      StartOfHop(schema, overlay.base, overlay.Held(), applied, id, relType, false);
      var dropped := overlay.deletedEdges;
      for i := 0 to |dropped|
        invariant forall n :: n in remaining ==> n in overlay.base.nodes
        invariant forall x :: multiset(Ids(remaining))[x] == |BaseLinks(overlay.base, id, x, relType, false)| - |Along(dropped[..i], id, x, relType, false)|
      {
        DropStep(schema, overlay.base, overlay.Held(), applied, id, relType, false, remaining, i);
        if dropped[i].to == id && Matches(dropped[i].member, relType) {
          remaining := RemoveOne(remaining, dropped[i].from);
        }
      }
      assert dropped[..|dropped|] == dropped;
    }

    /** Nodes one hop back, one entry per edge. */
    method IncomingMirrors(id: string, relType: Option<string>, ghost applied: Graph) returns (out: seq<Mirror>)
      requires Shows(applied) && id !in overlay.deletedNodes
      modifies overlay`materialized
      ensures Shows(applied) && MirrorsOk(overlay.base, overlay.Held(), out)
      ensures multiset(MirrorIds(out)) == multiset(Ids(BaseHop(schema, applied, id, relType, false)))
    {
      hide Simulates, WellFormed, CurrentView, Synthesized, HasEdge, BaseLinks, Along, HopSoFar, OutgoingNodes, IncomingNodes, ViewOf, Ids, BaseHop;
      assert overlay.base.Valid() by { SimulatesValid(schema, overlay.base, overlay.Held(), applied); }
      ghost var s := overlay.Held();
      var remaining := IncomingLeft(id, relType, applied);
      out := Visible(remaining);
      KeptCounts(Ids(remaining), s);
      HopStarts(overlay.base, s, id, relType, false, Ids(remaining), MirrorIds(out));
      var added := overlay.addedEdges;
      for i := 0 to |added|
        invariant Shows(applied) && overlay.Held() == s && MirrorsOk(overlay.base, s, out)
        invariant HopSoFar(overlay.base, s, id, relType, false, MirrorIds(out), added[..i])
      {
        AddStep(schema, overlay.base, s, applied, id, relType, false, MirrorIds(out), i);
        if added[i].to == id && Matches(added[i].member, relType) {
          var source := Reflect(added[i].from, applied);
          if source.Some? {
            assert MirrorIds(out + [source.value]) == MirrorIds(out) + [source.value.id];
            out := out + [source.value];
          }
        }
      }
      assert added[..|added|] == added;
      HopIsWhole(schema, overlay.base, s, applied, id, relType, false, MirrorIds(out));
    }

    /** The first mirror of every node. */
    method Dedup(mirrors: seq<Mirror>) returns (out: seq<Mirror>)
      requires MirrorsOk(overlay.base, overlay.Held(), mirrors)
      ensures MirrorsOk(overlay.base, overlay.Held(), out)
      ensures forall x :: multiset(MirrorIds(out))[x] == if x in MirrorIds(mirrors) then 1 else 0
    {
      var seen: set<string> := {};
      out := [];
      for i := 0 to |mirrors|
        invariant MirrorsOk(overlay.base, overlay.Held(), out)
        invariant forall x :: x in seen <==> x in MirrorIds(mirrors)[..i]
        invariant forall x :: multiset(MirrorIds(out))[x] == if x in seen then 1 else 0
      {
        var m := mirrors[i];
        assert MirrorIds(mirrors)[..i + 1] == MirrorIds(mirrors)[..i] + [m.id];
        if m.id !in seen {
          seen := seen + {m.id};
          assert MirrorIds(out + [m]) == MirrorIds(out) + [m.id];
          out := out + [m];
        }
      }
      assert MirrorIds(mirrors)[..|mirrors|] == MirrorIds(mirrors);
    }

    /** Neighbours in every direction, exactly as often as in the applied graph. */
    method ExpandMirrors(id: string, relType: Option<string>, direction: Direction, ghost applied: Graph) returns (out: seq<Mirror>)
      requires Shows(applied)
      modifies overlay`materialized
      ensures Shows(applied) && MirrorsOk(overlay.base, overlay.Held(), out)
      ensures multiset(MirrorIds(out)) == multiset(Ids(Graphs.Expand(schema, applied, id, relType, direction)))
    {
      hide Simulates, WellFormed, CurrentView, Synthesized, OutgoingNodes, IncomingNodes, Graphs.Dedup, MirrorIds, Ids;
      if id in overlay.deletedNodes {
        DeletedHasNoHops(schema, overlay.base, overlay.Held(), applied, id, relType, direction);
        out := [];
        NoIds();
        return;
      }
      match direction {
        case Outgoing => out := OutgoingMirrors(id, relType, applied);
        case Incoming => out := IncomingMirrors(id, relType, applied);
        case Undirected =>
          var forward := OutgoingMirrors(id, relType, applied);
          var back := IncomingMirrors(id, relType, applied);
          MirrorIdsConcat(forward, back);
          out := Dedup(forward + back);
          BothWays(schema, applied, id, relType, MirrorIds(forward), MirrorIds(back), MirrorIds(out));
      }
    }
  }

  // ---- steps of the loops -------------------------------------------------------------------------------------

  lemma NoIds()
    ensures MirrorIds([]) == [] && Ids([]) == []
  {
  }

  lemma MirrorIdsConcat(a: seq<Mirror>, b: seq<Mirror>)
    ensures MirrorIds(a + b) == MirrorIds(a) + MirrorIds(b)
  {
  }

  lemma FilterNothing(p: string -> bool)
    ensures Filter([], p) == []
  {
  }

  lemma FilterSingle(x: string, p: string -> bool)
    ensures Filter([x], p) == if p(x) then [x] else []
  {
    assert [x][1..] == [];
  }

  lemma CreatedShown(schema: Schema, base: Graph, s: State, applied: Graph, id: string)
    requires Simulates(schema, base, s, applied) && id in s.createdIds
    ensures Exists(applied, id) <==> id !in s.deleted
  {
    hide WellFormed, HasEdge, Filter;
    assert ViewOf(applied, id) == CurrentView(base, s, id);
  }

  predicate IsConcept(schema: Schema, concept: string, labelName: string) {
    labelName in schema.concepts && schema.Matches(schema.concepts[labelName], concept)
  }

  /** The node with this id has the label in the graph. */
  function HasConcept(schema: Schema, g: Graph, labelName: string): string -> bool {
    (id: string) => var v := ViewOf(g, id); v.Some? && IsConcept(schema, v.value.concept, labelName)
  }

  function HasLabel(schema: Schema, labelName: string): Node -> bool {
    (n: Node) => schema.IsInstanceOf(n, labelName)
  }

  function FilterNodes(nodes: seq<Node>, schema: Schema, labelName: string): (r: seq<Node>)
    ensures forall n :: n in r ==> n in nodes
  {
    if nodes == [] then []
    else
      var rest := FilterNodes(nodes[1..], schema, labelName);
      if schema.IsInstanceOf(nodes[0], labelName) then [nodes[0]] + rest else rest
  }

  lemma {:induction false} ScannedIds(schema: Schema, base: Graph, nodes: seq<Node>, labelName: string)
    requires base.Valid() && forall n :: n in nodes ==> n in base.nodes
    ensures Ids(FilterNodes(nodes, schema, labelName)) == Filter(Ids(nodes), HasConcept(schema, base, labelName))
  {
    if nodes != [] {
      ScannedIds(schema, base, nodes[1..], labelName);
      FindMember(base, nodes[0]);
      assert Ids(nodes) == [nodes[0].id] + Ids(nodes[1..]);
      var scanned := FilterNodes(nodes[1..], schema, labelName);
      if schema.IsInstanceOf(nodes[0], labelName) {
        assert Ids([nodes[0]] + scanned) == [nodes[0].id] + Ids(scanned);
      }
    }
  }

  /** A surviving base node keeps its concept. */
  lemma SameConcept(schema: Schema, base: Graph, s: State, applied: Graph, id: string, labelName: string)
    requires Simulates(schema, base, s, applied) && Exists(base, id) && id !in s.deleted
    ensures HasConcept(schema, applied, labelName)(id) == HasConcept(schema, base, labelName)(id)
  {
    hide WellFormed, HasEdge, Filter;
    assert ViewOf(applied, id) == CurrentView(base, s, id);
    assert id !in s.created;
  }

  lemma LabelScan(schema: Schema, base: Graph, s: State, applied: Graph, labelName: string)
    requires Simulates(schema, base, s, applied)
    ensures Filter(Ids(applied.nodes), HasConcept(schema, applied, labelName))
         == Filter(Ids(FilterNodes(base.nodes, schema, labelName)), IsKept(s)) + Filter(Filter(s.createdIds, IsKept(s)), HasConcept(schema, applied, labelName))
  {
    hide WellFormed, HasEdge, Filter, HasConcept, FilterNodes;
    assert base.Valid() by { WellFormedIsValid(schema, base); }
    ScannedIds(schema, base, base.nodes, labelName);
    var kept := Filter(Ids(base.nodes), IsKept(s));
    FilterConcat(kept, Filter(s.createdIds, IsKept(s)), HasConcept(schema, applied, labelName));
    FilterTwice(Ids(base.nodes), HasConcept(schema, base, labelName), IsKept(s));
    forall id | id in kept ensures HasConcept(schema, applied, labelName)(id) == HasConcept(schema, base, labelName)(id) {
      FilterMember(Ids(base.nodes), IsKept(s), id);
      IdExists(base, id);
      SameConcept(schema, base, s, applied, id, labelName);
    }
    FilterEqual(kept, HasConcept(schema, applied, labelName), HasConcept(schema, base, labelName));
  }

  lemma SimulatesValid(schema: Schema, base: Graph, s: State, applied: Graph)
    requires Simulates(schema, base, s, applied)
    ensures base.Valid()
  {
    hide HasEdge, Filter, CurrentView;
  }

  lemma ConceptTest(schema: Schema, g: Graph, labelName: string, m: Mirror)
    requires ViewOf(g, m.id) == Some(m.firstSeen)
    ensures HasConcept(schema, g, labelName)(m.id) == IsConcept(schema, m.firstSeen.concept, labelName)
  {
  }

  lemma WellFormedIsValid(schema: Schema, g: Graph)
    requires WellFormed(schema, g)
    ensures g.Valid()
  {
  }

  lemma IdExists(g: Graph, id: string)
    requires id in Ids(g.nodes)
    ensures Exists(g, id)
  {
    var i :| 0 <= i < |g.nodes| && Ids(g.nodes)[i] == id;
    FindIs(g.nodes, id);
    assert g.nodes[i] in g.nodes;
  }

  /** Before any recorded edge is looked at. */
  lemma StartOfHop(schema: Schema, base: Graph, s: State, applied: Graph, id: string, relType: Option<string>, forward: bool)
    requires Simulates(schema, base, s, applied)
    ensures var remaining := if id in s.created then [] else BaseHop(schema, base, id, relType, forward);
      && (forall n :: n in remaining ==> n in base.nodes)
      && forall x :: multiset(Ids(remaining))[x] == |BaseLinks(base, id, x, relType, forward)| - |Along([], id, x, relType, forward)|
  {
    hide WellFormed, HasEdge, Filter, Links, Graphs.Expand;
    BaseHopMembers(schema, base, id, relType, forward);
    var remaining := if id in s.created then [] else BaseHop(schema, base, id, relType, forward);
    forall x ensures multiset(Ids(remaining))[x] == |BaseLinks(base, id, x, relType, forward)| - |Along([], id, x, relType, forward)| {
      BaseHopCount(schema, base, id, relType, forward, x);
      assert Along([], id, x, relType, forward) == {};
      if id in s.created {
        NoLinksOut(schema, base, if forward then id else x, if forward then x else id, relType);
      }
    }
  }

  /** A dropped edge is one of the hops left, and removing its end accounts for it. */
  lemma DropStep(schema: Schema, base: Graph, s: State, applied: Graph, id: string, relType: Option<string>, forward: bool, remaining: seq<Node>, i: nat)
    requires Simulates(schema, base, s, applied) && i < |s.dropped|
    requires forall x :: multiset(Ids(remaining))[x] == |BaseLinks(base, id, x, relType, forward)| - |Along(s.dropped[..i], id, x, relType, forward)|
    ensures var next := if Follows(s.dropped[i], id, relType, forward) then RemoveOne(remaining, Far(s.dropped[i], forward)) else remaining;
      && (forall n :: n in next ==> n in remaining)
      && forall x :: multiset(Ids(next))[x] == |BaseLinks(base, id, x, relType, forward)| - |Along(s.dropped[..i + 1], id, x, relType, forward)|
  {
    hide WellFormed, HasEdge, Filter, BaseHop, BaseLinks, Along;
    var e := s.dropped[i];
    var next := if Follows(e, id, relType, forward) then RemoveOne(remaining, Far(e, forward)) else remaining;
    RemoveOneCount(remaining, Far(e, forward), id);
    forall x ensures multiset(Ids(next))[x] == |BaseLinks(base, id, x, relType, forward)| - |Along(s.dropped[..i + 1], id, x, relType, forward)| {
      AlongNext(s.dropped, i, id, x, relType, forward);
      AppliedHopCount(schema, base, s, applied, id, relType, forward, x);
      Fewer(Along(s.dropped[..i + 1], id, x, relType, forward), BaseLinks(base, id, x, relType, forward));
      RemoveOneCount(remaining, Far(e, forward), x);
    }
  }

  lemma Fewer<T>(a: set<T>, b: set<T>)
    requires a <= b
    ensures |a| <= |b|
  {
    assert b == a + (b - a);
  }

  lemma KeptCounts(ids: seq<string>, s: State)
    ensures forall x :: multiset(Filter(ids, IsKept(s)))[x] == if x in s.deleted then 0 else multiset(ids)[x]
  {
    forall x ensures multiset(Filter(ids, IsKept(s)))[x] == if x in s.deleted then 0 else multiset(ids)[x] {
      KeptCount(ids, s, x);
    }
  }

  /** The ids found so far: what the base has left, and the edges added so far. */
  ghost predicate HopSoFar(base: Graph, s: State, id: string, relType: Option<string>, forward: bool, ids: seq<string>, added: seq<Edge>) {
    forall x :: multiset(ids)[x] == if x in s.deleted then 0
      else |BaseLinks(base, id, x, relType, forward)| - |Along(s.dropped, id, x, relType, forward)| + |Along(added, id, x, relType, forward)|
  }

  lemma HopStarts(base: Graph, s: State, id: string, relType: Option<string>, forward: bool, remaining: seq<string>, ids: seq<string>)
    requires forall x :: multiset(remaining)[x] == |BaseLinks(base, id, x, relType, forward)| - |Along(s.dropped, id, x, relType, forward)|
    requires forall x :: multiset(ids)[x] == if x in s.deleted then 0 else multiset(remaining)[x]
    ensures HopSoFar(base, s, id, relType, forward, ids, [])
  {
    hide BaseLinks;
    forall x ensures Along([], id, x, relType, forward) == {} {
    }
  }

  lemma AddStep(schema: Schema, base: Graph, s: State, applied: Graph, id: string, relType: Option<string>, forward: bool, ids: seq<string>, i: nat)
    requires Simulates(schema, base, s, applied) && i < |s.added| && id !in s.deleted
    requires HopSoFar(base, s, id, relType, forward, ids, s.added[..i])
    ensures var far := Far(s.added[i], forward);
      HopSoFar(base, s, id, relType, forward, if Follows(s.added[i], id, relType, forward) && Exists(applied, far) then ids + [far] else ids, s.added[..i + 1])
  {
    hide WellFormed, HasEdge, Filter, BaseLinks, Along, Exists, ViewOf;
    var e := s.added[i];
    var far := Far(e, forward);
    assert Follows(e, id, relType, forward) ==> (Exists(applied, far) <==> far !in s.deleted) by {
      if Follows(e, id, relType, forward) {
        AddedEnds(schema, base, s, applied, e);
      }
    }
    var next := if Follows(e, id, relType, forward) && Exists(applied, far) then ids + [far] else ids;
    forall x ensures multiset(next)[x] == if x in s.deleted then 0
      else |BaseLinks(base, id, x, relType, forward)| - |Along(s.dropped, id, x, relType, forward)| + |Along(s.added[..i + 1], id, x, relType, forward)|
    {
      AlongNext(s.added, i, id, x, relType, forward);
    }
  }

  /** An added edge's ends exist unless they were deleted. */
  lemma AddedEnds(schema: Schema, base: Graph, s: State, applied: Graph, e: Edge)
    requires Simulates(schema, base, s, applied) && e in s.added
    ensures e.from in s.deleted ==> !Exists(applied, e.from)
    ensures e.to in s.deleted ==> !Exists(applied, e.to)
    ensures e.from !in s.deleted && e.to !in s.deleted ==> Exists(applied, e.from) && Exists(applied, e.to)
  {
    hide Filter;
    assert ViewOf(applied, e.from) == CurrentView(base, s, e.from) && ViewOf(applied, e.to) == CurrentView(base, s, e.to);
    assert HasEdge(applied, e) <==> Shown(base, s, e);
  }

  lemma HopIsWhole(schema: Schema, base: Graph, s: State, applied: Graph, id: string, relType: Option<string>, forward: bool, ids: seq<string>)
    requires Simulates(schema, base, s, applied) && id !in s.deleted
    requires HopSoFar(base, s, id, relType, forward, ids, s.added)
    ensures multiset(ids) == multiset(Ids(BaseHop(schema, applied, id, relType, forward)))
  {
    hide WellFormed, HasEdge, Filter, BaseLinks, Along, BaseHop;
    var hops := Ids(BaseHop(schema, applied, id, relType, forward));
    forall x ensures multiset(ids)[x] == multiset(hops)[x] {
      AppliedHopCount(schema, base, s, applied, id, relType, forward, x);
    }
    SameCounts(ids, hops);
  }

  lemma NothingCounted(ids: seq<string>)
    requires forall x :: multiset(ids)[x] == 0
    ensures ids == []
  {
    assert multiset(ids) == multiset{};
    assert |multiset(ids)| == |ids|;
  }

  lemma DeletedHasNoHops(schema: Schema, base: Graph, s: State, applied: Graph, id: string, relType: Option<string>, direction: Direction)
    requires Simulates(schema, base, s, applied) && id in s.deleted
    ensures Graphs.Expand(schema, applied, id, relType, direction) == []
  {
    hide WellFormed, HasEdge, Filter, OutgoingNodes, IncomingNodes;
    var forward, back := OutgoingNodes(schema, applied, id, relType), IncomingNodes(applied, id, relType);
    forall x ensures multiset(Ids(forward))[x] == 0 && multiset(Ids(back))[x] == 0 {
      AppliedHopCount(schema, base, s, applied, id, relType, true, x);
      AppliedHopCount(schema, base, s, applied, id, relType, false, x);
    }
    NothingCounted(Ids(forward));
    NothingCounted(Ids(back));
    assert forward == [] && back == [] && forward + back == [];
  }

  lemma BothWays(schema: Schema, applied: Graph, id: string, relType: Option<string>, forward: seq<string>, back: seq<string>, out: seq<string>)
    requires multiset(forward) == multiset(Ids(OutgoingNodes(schema, applied, id, relType)))
    requires multiset(back) == multiset(Ids(IncomingNodes(applied, id, relType)))
    requires forall x :: multiset(out)[x] == if x in forward + back then 1 else 0
    ensures multiset(out) == multiset(Ids(Graphs.Expand(schema, applied, id, relType, Undirected)))
  {
    hide OutgoingNodes, IncomingNodes;
    var nodes := OutgoingNodes(schema, applied, id, relType) + IncomingNodes(applied, id, relType);
    IdsConcat(OutgoingNodes(schema, applied, id, relType), IncomingNodes(applied, id, relType));
    forall x ensures multiset(out)[x] == multiset(Ids(Graphs.Dedup(nodes, {})))[x] {
      FirstsAre(nodes, {}, x);
      InMultiset(forward, Ids(OutgoingNodes(schema, applied, id, relType)), x);
      InMultiset(back, Ids(IncomingNodes(applied, id, relType)), x);
    }
    SameCounts(out, Ids(Graphs.Dedup(nodes, {})));
  }

  lemma InMultiset(a: seq<string>, b: seq<string>, x: string)
    requires multiset(a) == multiset(b)
    ensures x in a <==> x in b
  {
    assert x in a <==> x in multiset(a);
    assert x in b <==> x in multiset(b);
  }
}
