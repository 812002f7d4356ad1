/**
 Writing through the overlay. The model writer validates a write and applies it to the graph it will commit; the recording
 writer passes every write on and records it in the overlay only once it was accepted. So after any writes the overlay
 shows exactly the graph a commit would give, and a rejected write shows nowhere.
 */
module RecordingWriters {
  import opened Wrappers
  import opened Values
  import opened Query
  import opened Graphs
  import opened Seqs
  import opened GraphWrites
  import opened OverlayStates
  import opened WriteOverlays

  datatype WriteError = NotWritable | UnknownConcept | DuplicateId | UnknownMember | TargetMissing | TargetTypeMismatch | SingleValued | HasEdges

  predicate HasTargets(refs: seq<Refs>) {
    exists i :: 0 <= i < |refs| && refs[i].targets != []
  }

  /** Some reference starts or ends at the node. */
  predicate HasIncident(g: Graph, id: string) {
    exists i :: 0 <= i < |g.nodes| && ((g.nodes[i].id == id && HasTargets(g.nodes[i].refs)) || Links(g.nodes[i].refs, id, None) != {})
  }

  /** What the model says of members: which targets fit, and which hold one target at most. */
  datatype Rules = Rules(fits: (string, string, string) -> bool, single: (string, string) -> bool)

  /** The member takes the target, and a member with room for one has none or this one. */
  predicate MayLink(schema: Schema, rules: Rules, g: Graph, e: Edge) {
    && Exists(g, e.from) && Exists(g, e.to)
    && var from, to := ViewOf(g, e.from).value.concept, ViewOf(g, e.to).value.concept;
       && e.member in schema.EdgeMembers(from) && rules.fits(from, e.member, to)
       && (rules.single(from, e.member) ==> HasEdge(g, e) || TargetsIn(g, e.from, e.member) == [])
  }

  class ModelWriter {
    const schema: Schema
    const rules: Rules
    var graph: Graph
    var own: set<string>
    var deleted: set<string>

    /** Only edge members fit a target; own nodes exist. */
    ghost predicate Valid()
      reads this
    {
      && (forall c, m, t :: rules.fits(c, m, t) ==> m in schema.EdgeMembers(c))
      && WellFormed(schema, graph)
      && (forall id :: id in own ==> Exists(graph, id))
    }

    constructor (s: Schema, r: Rules, g: Graph, writable: set<string>)
      requires WellFormed(s, g) && (forall c, m, t :: r.fits(c, m, t) ==> m in s.EdgeMembers(c)) && forall id :: id in writable ==> Exists(g, id)
      ensures Valid() && schema == s && graph == g && deleted == {}
    {
      schema, rules, graph, own, deleted := s, r, g, writable, {};
    }

    method CreateNode(id: string, concept: string, properties: map<string, Scalar>) returns (r: Result<string, WriteError>)
      requires Valid()
      modifies this
      ensures Valid() && deleted == old(deleted)
      ensures r == (if concept !in schema.supertypes then Err(UnknownConcept) else if Exists(old(graph), id) then Err(DuplicateId) else Ok(id))
      ensures graph == if r.Ok? then Created(old(graph), id, concept, properties) else old(graph)
    {
      if concept !in schema.supertypes {
        return Err(UnknownConcept);
      }
      if Exists(graph, id) {
        return Err(DuplicateId);
      }
      CreatedWorks(schema, graph, id, concept, properties);
      KeptExist(graph, Created(graph, id, concept, properties), own);
      graph := Created(graph, id, concept, properties);
      own := own + {id};
      assert ViewOf(graph, id).Some?;
      r := Ok(id);
    }

    method SetProperty(id: string, name: string, value: Scalar) returns (r: Result<(), WriteError>)
      requires Valid()
      modifies this
      ensures Valid() && deleted == old(deleted) && own == old(own)
      ensures r == if id in own then Ok(()) else Err(NotWritable)
      ensures graph == if r.Ok? then AttrSet(old(graph), id, name, Some(value)) else old(graph)
    {
      if id !in own {
        return Err(NotWritable);
      }
      var attrs := ViewOf(graph, id).value.attrs;
      if name in attrs && attrs[name] == value {
        SettingNothing(schema, graph, id, name, Some(value));
        return Ok(());
      }
      AttrSetWorks(schema, graph, id, name, Some(value));
      KeptExist(graph, AttrSet(graph, id, name, Some(value)), own);
      graph := AttrSet(graph, id, name, Some(value));
      r := Ok(());
    }

    method RemoveProperty(id: string, name: string) returns (r: Result<(), WriteError>)
      requires Valid()
      modifies this
      ensures Valid() && deleted == old(deleted) && own == old(own)
      ensures r == if id in own then Ok(()) else Err(NotWritable)
      ensures graph == if r.Ok? then AttrSet(old(graph), id, name, None) else old(graph)
    {
      if id !in own {
        return Err(NotWritable);
      }
      if name !in ViewOf(graph, id).value.attrs {
        SettingNothing(schema, graph, id, name, None);
        return Ok(());
      }
      AttrSetWorks(schema, graph, id, name, None);
      KeptExist(graph, AttrSet(graph, id, name, None), own);
      graph := AttrSet(graph, id, name, None);
      r := Ok(());
    }

    /** False when the reference is already there. */
    method CreateRelationship(e: Edge) returns (r: Result<bool, WriteError>)
      requires Valid()
      modifies this
      ensures Valid() && deleted == old(deleted) && own == old(own)
      ensures r.Err? <==> e.from !in own || !Exists(old(graph), e.to) || !MayLink(schema, rules, old(graph), e)
      ensures r == Err(NotWritable) <==> e.from !in own
      ensures r == Err(TargetMissing) <==> e.from in own && !Exists(old(graph), e.to)
      ensures r.Ok? ==> e.from in own && Exists(graph, e.from) && Exists(graph, e.to) && r.value == !HasEdge(old(graph), e)
      ensures r == Ok(true) ==> e.member in schema.EdgeMembers(ViewOf(old(graph), e.from).value.concept) && Exists(old(graph), e.from) && Exists(old(graph), e.to)
      ensures graph == if r == Ok(true) then EdgeAdded(old(graph), e) else old(graph)
    {
      hide WellFormed;
      if e.from !in own {
        return Err(NotWritable);
      }
      if !Exists(graph, e.to) {
        return Err(TargetMissing);
      }
      var from, to := ViewOf(graph, e.from).value, ViewOf(graph, e.to).value;
      if e.member !in schema.EdgeMembers(from.concept) {
        return Err(UnknownMember);
      }
      if !rules.fits(from.concept, e.member, to.concept) {
        return Err(TargetTypeMismatch);
      }
      var existing := TargetsIn(graph, e.from, e.member);
      if e.to in existing {
        return Ok(false);
      }
      if existing != [] && rules.single(from.concept, e.member) {
        return Err(SingleValued);
      }
      EdgeAddedWorks(schema, graph, e);
      KeptExist(graph, EdgeAdded(graph, e), own);
      assert ViewOf(EdgeAdded(graph, e), e.to) == ViewOf(graph, e.to);
      graph := EdgeAdded(graph, e);
      r := Ok(true);
    }

    /** False when there is no such reference. */
    method DeleteRelationship(e: Edge) returns (r: Result<bool, WriteError>)
      requires Valid()
      modifies this
      ensures Valid() && deleted == old(deleted) && own == old(own)
      ensures r == if e.from in own then Ok(HasEdge(old(graph), e)) else Err(NotWritable)
      ensures graph == if r == Ok(true) then EdgeDropped(old(graph), e) else old(graph)
    {
      if e.from !in own {
        return Err(NotWritable);
      }
      if e.to !in TargetsIn(graph, e.from, e.member) {
        return Ok(false);
      }
      EdgeDroppedWorks(schema, graph, e);
      KeptExist(graph, EdgeDropped(graph, e), own);
      graph := EdgeDropped(graph, e);
      r := Ok(true);
    }

    /** A node this query already deleted is left alone. */
    method DeleteNode(id: string, detach: bool) returns (r: Result<(), WriteError>)
      requires Valid()
      modifies this
      ensures Valid()
      ensures r == if id in old(deleted) then Ok(()) else if id !in old(own) then Err(NotWritable)
                   else if !detach && HasIncident(old(graph), id) then Err(HasEdges) else Ok(())
      ensures graph == if r.Ok? && id !in old(deleted) then NodeRemoved(old(graph), id) else old(graph)
      ensures deleted == if r.Ok? then old(deleted) + {id} else old(deleted)
    {
      if id in deleted {
        return Ok(());
      }
      if id !in own {
        return Err(NotWritable);
      }
      if !detach && HasIncident(graph, id) {
        return Err(HasEdges);
      }
      NodeRemovedWorks(schema, graph, id);
      KeptExist(graph, NodeRemoved(graph, id), own - {id});
      graph := NodeRemoved(graph, id);
      own := own - {id};
      deleted := deleted + {id};
      r := Ok(());
    }
  }

  lemma KeptExist(g: Graph, h: Graph, ids: set<string>)
    requires forall id :: id in ids ==> Exists(g, id)
    requires forall id :: id in ids ==> ViewOf(g, id).Some? ==> ViewOf(h, id).Some?
    ensures forall id :: id in ids ==> Exists(h, id)
  {
    forall id | id in ids ensures Exists(h, id) {
      assert ViewOf(h, id).Some?;
    }
  }

  lemma {:induction false} ChangeNothing(nodes: seq<Node>, id: string, f: Node -> Node)
    requires forall n :: n in nodes && n.id == id ==> f(n) == n
    ensures Change(nodes, id, f) == nodes
  {
    if nodes != [] {
      ChangeNothing(nodes[1..], id, f);
    }
  }

  /** Setting the value that is there, or removing what is not, changes nothing. */
  lemma SettingNothing(schema: Schema, g: Graph, id: string, name: string, value: Option<Scalar>)
    requires WellFormed(schema, g) && Exists(g, id)
    requires var attrs := ViewOf(g, id).value.attrs; if value.None? then name !in attrs else name in attrs && attrs[name] == value.value
    ensures AttrSet(g, id, name, value) == g
  {
    forall n | n in g.nodes && n.id == id ensures WithAttr(name, value)(n) == n {
      FindMember(g, n);
      assert Attrs(n.attrs, name, value) == n.attrs;
    }
    ChangeNothing(g.nodes, id, WithAttr(name, value));
  }

  // ---- recording ----------------------------------------------------------------------------------------------

  class OverlayRecordingWriter {
    const inner: ModelWriter
    const overlay: WriteOverlay

    /** The overlay shows the graph the inner writer would commit. */
    ghost predicate Valid()
      reads this, inner, overlay
    {
      && inner.Valid() && overlay.CacheOk()
      && Simulates(inner.schema, overlay.base, overlay.Held(), inner.graph)
      && inner.deleted == overlay.deletedNodes
    }

    constructor (writer: ModelWriter, over: WriteOverlay)
      requires writer.Valid() && over.base == writer.graph && over.Held() == Start() && over.CacheOk() && writer.deleted == {}
      ensures Valid() && inner == writer && overlay == over
    {
      inner, overlay := writer, over;
      StartSimulates(writer.schema, writer.graph);
    }

    /** The generator gives an id this query has not deleted. */
    method CreateNode(id: string, concept: string, properties: map<string, Scalar>) returns (r: Result<string, WriteError>)
      requires Valid() && id !in overlay.deletedNodes
      modifies inner, overlay
      ensures Valid() && (r.Err? ==> inner.graph == old(inner.graph) && overlay.Held() == old(overlay.Held()))
      ensures r.Ok? ==> inner.graph == Created(old(inner.graph), id, concept, properties)
    {
      hide Simulates, WellFormed;
      ghost var held, graph := overlay.Held(), inner.graph;
      r := inner.CreateNode(id, concept, properties);
      if r.Ok? {
        CreateKeeps(inner.schema, overlay.base, held, graph, id, concept, properties);
        overlay.RecordCreate(id, concept, properties);
      }
    }

    method SetProperty(id: string, name: string, value: Scalar) returns (r: Result<(), WriteError>)
      requires Valid()
      modifies inner, overlay
      ensures Valid() && (r.Err? ==> inner.graph == old(inner.graph) && overlay.Held() == old(overlay.Held()))
      ensures r.Ok? ==> inner.graph == AttrSet(old(inner.graph), id, name, Some(value))
    {
      hide Simulates, WellFormed;
      ghost var held, graph := overlay.Held(), inner.graph;
      r := inner.SetProperty(id, name, value);
      if r.Ok? {
        AttrKeeps(inner.schema, overlay.base, held, graph, id, name, Some(value));
        SameRest(held, id, name, Some(value));
        overlay.RecordSet(id, name, value);
      }
    }

    method RemoveProperty(id: string, name: string) returns (r: Result<(), WriteError>)
      requires Valid()
      modifies inner, overlay
      ensures Valid() && (r.Err? ==> inner.graph == old(inner.graph) && overlay.Held() == old(overlay.Held()))
      ensures r.Ok? ==> inner.graph == AttrSet(old(inner.graph), id, name, None)
    {
      hide Simulates, WellFormed;
      ghost var held, graph := overlay.Held(), inner.graph;
      r := inner.RemoveProperty(id, name);
      if r.Ok? {
        AttrKeeps(inner.schema, overlay.base, held, graph, id, name, None);
        SameRest(held, id, name, None);
        overlay.RecordRemove(id, name);
      }
    }

    method CreateRelationship(e: Edge) returns (r: Result<bool, WriteError>)
      requires Valid()
      modifies inner, overlay
      ensures Valid() && (r != Ok(true) ==> inner.graph == old(inner.graph) && overlay.Held() == old(overlay.Held()))
      ensures r == Ok(true) ==> inner.graph == EdgeAdded(old(inner.graph), e)
    {
      hide Simulates, WellFormed;
      ghost var held, graph := overlay.Held(), inner.graph;
      r := inner.CreateRelationship(e);
      if r.Ok? && r.value {
        AddEdgeKeeps(inner.schema, overlay.base, held, graph, e);
        AddKeepsRest(held, e);
        overlay.RecordAddEdge(e);
      }
    }

    method DeleteRelationship(e: Edge) returns (r: Result<bool, WriteError>)
      requires Valid()
      modifies inner, overlay
      ensures Valid() && (r != Ok(true) ==> inner.graph == old(inner.graph) && overlay.Held() == old(overlay.Held()))
      ensures r == Ok(true) ==> inner.graph == EdgeDropped(old(inner.graph), e)
    {
      hide Simulates, WellFormed;
      ghost var held, graph := overlay.Held(), inner.graph;
      r := inner.DeleteRelationship(e);
      if r.Ok? && r.value {
        DropEdgeKeeps(inner.schema, overlay.base, held, graph, e);
        DropKeepsRest(held, e);
        overlay.RecordDeleteEdge(e);
      }
    }

    method DeleteNode(id: string, detach: bool) returns (r: Result<(), WriteError>)
      requires Valid()
      modifies inner, overlay
      ensures Valid() && (r.Err? ==> inner.graph == old(inner.graph) && overlay.Held() == old(overlay.Held()))
      ensures r.Ok? ==> inner.graph == if id in old(inner.deleted) then old(inner.graph) else NodeRemoved(old(inner.graph), id)
    {
      hide Simulates, WellFormed;
      ghost var held, graph := overlay.Held(), inner.graph;
      var again := id in inner.deleted;
      r := inner.DeleteNode(id, detach);
      if r.Ok? {
        if again {
          DeletedAgain(inner.schema, overlay.base, held, graph, id);
        } else {
          DeleteNodeKeeps(inner.schema, overlay.base, held, graph, id);
        }
        overlay.RecordDeleteNode(id);
      }
    }
  }

  lemma DeletedAgain(schema: Schema, base: Graph, s: State, applied: Graph, id: string)
    requires Simulates(schema, base, s, applied) && id in s.deleted
    ensures OverlayStates.RecordDeleteNode(s, id) == s
  {
    hide WellFormed, HasEdge, Filter, CurrentView;
    assert s.deleted + {id} == s.deleted && s.touched + {id} == s.touched;
  }
}
