/**
 A write query on a model draft is all or nothing.

 The draft's own nodes are objects changed in place, so a snapshot is a deep copy. Whatever fails, and however late, the
 draft's own delta and its home files are then those it began with; on success no error, told by its code, node, path and
 message, is reported of the model more often than at the start (`WriteEngine.ExecuteWrite`). From a model without errors a
 query that brings one is refused (`ErrorFreeCommitsIff`). The working model is derived on demand and never stale.
 */
module Drafts {
  import opened Wrappers
  import opened Seqs
  import opened Values

  // ---- documents ----------------------------------------------------------------------------------------------

  datatype NodeValue = NodeValue(id: string, concept: string, attrs: map<string, Scalar>)
  datatype Edge = Edge(from: string, via: string, to: string)
  datatype Document = Document(nodes: seq<NodeValue>, edges: seq<Edge>)

  predicate HasNode(nodes: seq<NodeValue>, id: string) {
    exists n :: n in nodes && n.id == id
  }

  function NodeIndex(nodes: seq<NodeValue>, id: string): (i: nat)
    ensures i <= |nodes| && (i < |nodes| ==> nodes[i].id == id)
    ensures i < |nodes| <==> HasNode(nodes, id)
    ensures forall j :: 0 <= j < i ==> nodes[j].id != id
  {
    if nodes == [] then 0 else if nodes[0].id == id then 0 else 1 + NodeIndex(nodes[1..], id)
  }

  function WithAttrs(doc: Document, id: string, attrs: map<string, Scalar>): Document {
    var i := NodeIndex(doc.nodes, id);
    if i == |doc.nodes| then doc else doc.(nodes := doc.nodes[i := doc.nodes[i].(attrs := attrs)])
  }

  function AttrsOf(doc: Document, id: string): map<string, Scalar> {
    var i := NodeIndex(doc.nodes, id);
    if i == |doc.nodes| then map[] else doc.nodes[i].attrs
  }

  function NotNode(id: string): NodeValue -> bool {
    (n: NodeValue) => n.id != id
  }

  function NotTouching(id: string): Edge -> bool {
    (e: Edge) => e.from != id && e.to != id
  }

  function NotEdge(e: Edge): Edge -> bool {
    (x: Edge) => x != e
  }

  // ---- the derived model --------------------------------------------------------------------------------------

  /** The working model: of two nodes with one id the later, of two equal edges one. */
  datatype Repository = Repository(nodes: map<string, NodeValue>, edges: set<Edge>)

  function NodesById(nodes: seq<NodeValue>): map<string, NodeValue> {
    if nodes == [] then map[] else NodesById(nodes[..|nodes| - 1])[nodes[|nodes| - 1].id := nodes[|nodes| - 1]]
  }

  function Derived(base: Document, own: Document): Repository {
    Repository(NodesById(base.nodes + own.nodes), set e | e in base.edges + own.edges)
  }

  lemma {:induction false} DerivedHas(nodes: seq<NodeValue>, id: string)
    ensures id in NodesById(nodes) <==> HasNode(nodes, id)
  {
    if nodes != [] {
      var before := nodes[..|nodes| - 1];
      DerivedHas(before, id);
      assert nodes == before + [nodes[|nodes| - 1]];
    }
  }

  // ---- diagnostics --------------------------------------------------------------------------------------------

  datatype Diagnostic = Diagnostic(code: string, node: Option<string>, path: Option<string>, message: string, isError: bool, line: nat)

  /** What two reports of one error have in common: everything but where it was found. */
  datatype ErrorKey = ErrorKey(code: string, node: Option<string>, path: Option<string>, message: string)

  function KeyOf(d: Diagnostic): ErrorKey {
    ErrorKey(d.code, d.node, d.path, d.message)
  }

  function IsError(): Diagnostic -> bool {
    (d: Diagnostic) => d.isError
  }

  function KeysOf(ds: seq<Diagnostic>): (r: seq<ErrorKey>)
    ensures |r| == |ds| && forall i :: 0 <= i < |r| ==> r[i] == KeyOf(ds[i])
  {
    seq(|ds|, i requires 0 <= i < |ds| => KeyOf(ds[i]))
  }

  function Counts(ds: seq<Diagnostic>): multiset<ErrorKey> {
    multiset(KeysOf(ds))
  }

  lemma CountsMore(ds: seq<Diagnostic>, d: Diagnostic)
    ensures Counts(ds + [d]) == Counts(ds) + multiset{KeyOf(d)}
  {
    assert KeysOf(ds + [d]) == KeysOf(ds) + [KeyOf(d)];
  }

  /** How many of the diagnostics are errors with this code, node, path and message. */
  function ErrorsLike(ds: seq<Diagnostic>, code: string, node: Option<string>, path: Option<string>, message: string): nat {
    if ds == [] then 0
    else
      (if ds[0].isError && ds[0].code == code && ds[0].node == node && ds[0].path == path && ds[0].message == message then 1 else 0)
      + ErrorsLike(ds[1..], code, node, path, message)
  }

  /** No error is reported more often than before, wherever it is found; what is no error does not matter. */
  ghost predicate NoNewErrors(before: seq<Diagnostic>, after: seq<Diagnostic>) {
    forall code, node, path, message :: ErrorsLike(after, code, node, path, message) <= ErrorsLike(before, code, node, path, message)
  }

  lemma {:induction false} CountsMean(ds: seq<Diagnostic>, code: string, node: Option<string>, path: Option<string>, message: string)
    ensures Counts(Filter(ds, IsError()))[ErrorKey(code, node, path, message)] == ErrorsLike(ds, code, node, path, message)
  {
    if ds == [] {
      assert Filter(ds, IsError()) == [] && KeysOf([]) == [];
    } else {
      CountsMean(ds[1..], code, node, path, message);
      var rest := Filter(ds[1..], IsError());
      assert KeysOf([ds[0]] + rest) == [KeyOf(ds[0])] + KeysOf(rest);
    }
  }

  /** The counted errors are within each other exactly when none is reported more often. */
  lemma WithinIff(before: seq<Diagnostic>, after: seq<Diagnostic>)
    ensures Counts(Filter(after, IsError())) <= Counts(Filter(before, IsError())) <==> NoNewErrors(before, after)
  {
    hide Counts, IsError, ErrorsLike;
    var b, a := Counts(Filter(before, IsError())), Counts(Filter(after, IsError()));
    forall code, node, path, message
      ensures a[ErrorKey(code, node, path, message)] == ErrorsLike(after, code, node, path, message)
      ensures b[ErrorKey(code, node, path, message)] == ErrorsLike(before, code, node, path, message)
    {
      CountsMean(before, code, node, path, message);
      CountsMean(after, code, node, path, message);
    }
    if NoNewErrors(before, after) {
      forall key ensures a[key] <= b[key] {
        assert key == ErrorKey(key.code, key.node, key.path, key.message);
      }
    }
  }

  predicate ErrorFree(ds: seq<Diagnostic>) {
    forall i :: 0 <= i < |ds| ==> !ds[i].isError
  }

  lemma {:induction false} NoneLike(ds: seq<Diagnostic>, code: string, node: Option<string>, path: Option<string>, message: string)
    requires ErrorFree(ds)
    ensures ErrorsLike(ds, code, node, path, message) == 0
  {
    if ds != [] {
      NoneLike(ds[1..], code, node, path, message);
    }
  }

  lemma {:induction false} SomeLike(ds: seq<Diagnostic>, i: nat)
    requires i < |ds| && ds[i].isError
    ensures ErrorsLike(ds, ds[i].code, ds[i].node, ds[i].path, ds[i].message) > 0
  {
    if i > 0 {
      SomeLike(ds[1..], i - 1);
    }
  }

  /** From a model without errors nothing but a model without errors is accepted. */
  lemma ErrorFreeStaysIff(before: seq<Diagnostic>, after: seq<Diagnostic>)
    requires ErrorFree(before)
    ensures NoNewErrors(before, after) <==> ErrorFree(after)
  {
    hide ErrorsLike;
    forall code, node, path, message ensures ErrorsLike(before, code, node, path, message) == 0 {
      NoneLike(before, code, node, path, message);
    }
    if ErrorFree(after) {
      forall code, node, path, message ensures ErrorsLike(after, code, node, path, message) == 0 {
        NoneLike(after, code, node, path, message);
      }
    } else {
      var i :| 0 <= i < |after| && after[i].isError;
      SomeLike(after, i);
    }
  }

  // ---- the draft ----------------------------------------------------------------------------------------------

  class DraftNode {
    const id: string
    const concept: string
    var attrs: map<string, Scalar>

    constructor (id: string, concept: string, attrs: map<string, Scalar>)
      ensures this.id == id && this.concept == concept && this.attrs == attrs
    {
      this.id, this.concept, this.attrs := id, concept, attrs;
    }

    function Value(): NodeValue
      reads this
    {
      NodeValue(id, concept, attrs)
    }
  }

  function ValuesOf(nodes: seq<DraftNode>): (r: seq<NodeValue>)
    reads nodes
    ensures |r| == |nodes| && forall i :: 0 <= i < |r| ==> r[i] == nodes[i].Value()
  {
    seq(|nodes|, i requires 0 <= i < |nodes| reads nodes => nodes[i].Value())
  }

  ghost predicate Apart(nodes: seq<DraftNode>) {
    forall i, j :: 0 <= i < j < |nodes| ==> nodes[i] != nodes[j]
  }

  /** A deep copy: nodes with the same contents that are new objects. */
  method Cloned(nodes: seq<DraftNode>) returns (r: seq<DraftNode>)
    ensures ValuesOf(r) == ValuesOf(nodes) && Apart(r) && forall n :: n in r ==> fresh(n)
  {
    r := [];
    for i := 0 to |nodes|
      invariant |r| == i && Apart(r) && forall n :: n in r ==> fresh(n)
      invariant forall j :: 0 <= j < i ==> r[j].Value() == nodes[j].Value()
    {
      var n := new DraftNode(nodes[i].id, nodes[i].concept, nodes[i].attrs);
      r := r + [n];
    }
    assert ValuesOf(r) == ValuesOf(nodes);
  }

  /** What a draft held when it was taken. */
  class DraftState {
    var nodes: seq<DraftNode>
    const edges: seq<Edge>
    const home: map<string, string>

    constructor (nodes: seq<DraftNode>, edges: seq<Edge>, home: map<string, string>)
      ensures this.nodes == nodes && this.edges == edges && this.home == home
    {
      this.nodes, this.edges, this.home := nodes, edges, home;
    }
  }

  class ModelDraft {
    const base: Document
    var nodes: seq<DraftNode>
    var edges: seq<Edge>
    var home: map<string, string>
    var cache: Option<Repository>

    ghost function Nodes(): set<DraftNode>
      reads `nodes
    {
      set n | n in nodes
    }

    function Own(): Document
      reads `nodes, `edges, nodes
    {
      Document(ValuesOf(nodes), edges)
    }

    /** The cached model is the one its contents give. */
    ghost predicate Valid()
      reads this, nodes
    {
      Apart(nodes) && (cache.Some? ==> cache.value == Derived(base, Own()))
    }

    constructor (base: Document)
      ensures this.base == base && Own() == Document([], []) && home == map[] && nodes == [] && Valid()
    {
      this.base, nodes, edges, home, cache := base, [], [], map[], None;
    }

    method Model() returns (m: Repository)
      requires Valid()
      modifies `cache
      ensures m == Derived(base, Own()) && Valid()
    {
      if cache.None? {
        cache := Some(Derived(base, Own()));
      }
      m := cache.value;
    }

    /** Some node of the working model has the id. */
    method Has(id: string) returns (r: bool)
      requires Valid()
      modifies `cache
      ensures Valid() && r == (HasNode(base.nodes, id) || HasNode(Own().nodes, id))
    {
      var m := Model();
      DerivedHas(base.nodes + Own().nodes, id);
      assert HasNode(base.nodes + Own().nodes, id) <==> HasNode(base.nodes, id) || HasNode(Own().nodes, id);
      r := id in m.nodes;
    }

    predicate Owns(id: string)
      reads `nodes, `edges, nodes
    {
      !HasNode(base.nodes, id) && HasNode(Own().nodes, id)
    }

    method Find(id: string) returns (i: nat)
      ensures i == NodeIndex(Own().nodes, id)
    {
      i := 0;
      while i < |nodes| && nodes[i].id != id
        invariant i <= |nodes| && forall j :: 0 <= j < i ==> nodes[j].id != id
      {
        i := i + 1;
      }
      FirstIndex(Own().nodes, id, i);
    }

    method Create(concept: string, id: string, file: Option<string>)
      requires Valid()
      modifies this
      ensures Valid() && Own() == old(Own()).(nodes := old(Own()).nodes + [NodeValue(id, concept, map[])])
      ensures home == if file.Some? then old(home)[id := file.value] else old(home)
      ensures |nodes| == |old(nodes)| + 1 && nodes[..|old(nodes)|] == old(nodes) && fresh(nodes[|old(nodes)|])
    {
      var n := new DraftNode(id, concept, map[]);
      nodes := nodes + [n];
      if file.Some? {
        home := home[id := file.value];
      }
      cache := None;
      assert Own().nodes == old(Own()).nodes + [NodeValue(id, concept, map[])];
    }

    /** Changes the attributes of an own node in place; false for a frozen or unknown id. */
    method SetAttrs(id: string, attrs: map<string, Scalar>) returns (ok: bool)
      requires Valid()
      modifies this, Nodes()
      ensures Valid() && nodes == old(nodes) && edges == old(edges) && home == old(home)
      ensures ok == old(Owns(id)) && Own() == if ok then WithAttrs(old(Own()), id, attrs) else old(Own())
    {
      hide Derived;
      if HasNode(base.nodes, id) {
        return false;
      }
      var i := Find(id);
      if i == |nodes| {
        return false;
      }
      nodes[i].attrs := attrs;
      cache := None;
      assert Own().nodes == WithAttrs(old(Own()), id, attrs).nodes;
      ok := true;
    }

    method AddRef(e: Edge)
      requires Valid()
      modifies this
      ensures Valid() && nodes == old(nodes) && home == old(home) && Own() == old(Own()).(edges := old(Own()).edges + [e])
    {
      edges := edges + [e];
      cache := None;
    }

    method RemoveRef(e: Edge)
      requires Valid()
      modifies this
      ensures Valid() && nodes == old(nodes) && home == old(home) && Own() == old(Own()).(edges := Filter(old(edges), NotEdge(e)))
    {
      edges := Filter(edges, NotEdge(e));
      cache := None;
    }

    /** Removes an own node with every edge that touches it; its home entry stays. */
    method Remove(id: string)
      requires Valid()
      modifies this
      ensures Valid() && home == old(home) && (forall n :: n in nodes ==> n in old(nodes))
      ensures Own() == Document(Filter(old(Own()).nodes, NotNode(id)), Filter(old(edges), NotTouching(id)))
    {
      var kept: seq<DraftNode> := [];
      for i := 0 to |nodes|
        invariant nodes == old(nodes) && edges == old(edges) && home == old(home)
        invariant Apart(kept) && forall n :: n in kept ==> n in nodes[..i]
        invariant ValuesOf(kept) == Filter(ValuesOf(nodes)[..i], NotNode(id))
      {
        var values := ValuesOf(nodes);
        assert values[..i + 1] == values[..i] + [values[i]];
        FilterConcat(values[..i], [values[i]], NotNode(id));
        assert [values[i]][1..] == [];
        if nodes[i].id != id {
          assert nodes[i] !in kept;
          ghost var before := ValuesOf(kept);
          kept := kept + [nodes[i]];
          assert ValuesOf(kept) == before + [values[i]];
        }
      }
      assert ValuesOf(nodes)[..|nodes|] == ValuesOf(nodes);
      nodes := kept;
      edges := Filter(edges, NotTouching(id));
      cache := None;
    }

    method Snapshot() returns (s: DraftState)
      requires Valid()
      ensures fresh(s) && ValuesOf(s.nodes) == Own().nodes && s.edges == edges && s.home == home
      ensures forall n :: n in s.nodes ==> fresh(n)
    {
      var copies := Cloned(nodes);
      s := new DraftState(copies, edges, home);
    }

    /** Back to the snapshot, which is copied again and so stays as it is. */
    method Restore(s: DraftState)
      requires Apart(nodes)
      modifies this
      ensures Valid() && Own() == Document(ValuesOf(s.nodes), s.edges) && home == s.home
      ensures forall n :: n in nodes ==> fresh(n)
    {
      var copies := Cloned(s.nodes);
      nodes, edges, home, cache := copies, s.edges, s.home, None;
    }
  }

  lemma FirstIndex(nodes: seq<NodeValue>, id: string, i: nat)
    requires i <= |nodes| && (forall j :: 0 <= j < i ==> nodes[j].id != id) && (i < |nodes| ==> nodes[i].id == id)
    ensures i == NodeIndex(nodes, id)
  {
    assert i < |nodes| ==> nodes[i] in nodes;
  }

  // ---- the operations of a write query ------------------------------------------------------------------------

  datatype WriteOp =
    | CreateNode(id: string, concept: string, properties: map<string, Scalar>)
    | SetProperty(id: string, name: string, value: Scalar)
    | RemoveProperty(id: string, name: string)
    | CreateRelationship(edge: Edge)
    | DeleteRelationship(edge: Edge)
    | DeleteNode(id: string, detach: bool)

  /** What a model allows: which references it accepts, and what its validation reports. */
  datatype Rules = Rules(accepts: (Repository, Edge) -> bool, validate: Repository -> seq<Diagnostic>)

  datatype Progress = Progress(doc: Document, deleted: set<string>)

  predicate OwnedBy(base: Document, doc: Document, id: string) {
    !HasNode(base.nodes, id) && HasNode(doc.nodes, id)
  }

  predicate Known(base: Document, doc: Document, id: string) {
    HasNode(base.nodes, id) || HasNode(doc.nodes, id)
  }

  predicate Touched(edges: seq<Edge>, id: string) {
    exists e :: e in edges && (e.from == id || e.to == id)
  }

  /** One accepted operation; None when it is refused. */
  function Perform(base: Document, rules: Rules, p: Progress, op: WriteOp): Option<Progress> {
    match op
    case CreateNode(id, concept, properties) =>
      if !Known(base, p.doc, concept) || Known(base, p.doc, id) then None
      else Some(p.(doc := p.doc.(nodes := p.doc.nodes + [NodeValue(id, concept, properties)])))
    case SetProperty(id, name, value) =>
      if !OwnedBy(base, p.doc, id) then None else Some(p.(doc := WithAttrs(p.doc, id, AttrsOf(p.doc, id)[name := value])))
    case RemoveProperty(id, name) =>
      if !OwnedBy(base, p.doc, id) then None else Some(p.(doc := WithAttrs(p.doc, id, AttrsOf(p.doc, id) - {name})))
    case CreateRelationship(e) =>
      if !OwnedBy(base, p.doc, e.from) || !Known(base, p.doc, e.to) || !rules.accepts(Derived(base, p.doc), e) then None
      else if e in p.doc.edges then Some(p)
      else Some(p.(doc := p.doc.(edges := p.doc.edges + [e])))
    case DeleteRelationship(e) =>
      if !OwnedBy(base, p.doc, e.from) then None else Some(p.(doc := p.doc.(edges := Filter(p.doc.edges, NotEdge(e)))))
    case DeleteNode(id, detach) =>
      if id in p.deleted then Some(p)
      else if !OwnedBy(base, p.doc, id) || (!detach && Touched(p.doc.edges, id)) then None
      else Some(Progress(Document(Filter(p.doc.nodes, NotNode(id)), Filter(p.doc.edges, NotTouching(id))), p.deleted + {id}))
  }

  /** The first n operations. */
  function PerformAll(base: Document, rules: Rules, p: Progress, ops: seq<WriteOp>, n: nat): Option<Progress>
    requires n <= |ops|
  {
    if n == 0 then Some(p)
    else
      match PerformAll(base, rules, p, ops, n - 1)
      case None => None
      case Some(before) => Perform(base, rules, before, ops[n - 1])
  }

  /** What validation reports of the model. */
  function Reported(base: Document, rules: Rules, doc: Document): seq<Diagnostic> {
    rules.validate(Derived(base, doc))
  }

  function Errors(base: Document, rules: Rules, doc: Document): seq<Diagnostic> {
    Filter(Reported(base, rules, doc), IsError())
  }

  /** Using up one count, or going one beyond. */
  lemma OneMoreKey(counts: multiset<ErrorKey>, seen: multiset<ErrorKey>, key: ErrorKey)
    ensures if (counts - seen)[key] > 0
            then seen + multiset{key} - counts == seen - counts && counts - (seen + multiset{key}) == (counts - seen)[key := (counts - seen)[key] - 1]
            else seen + multiset{key} - counts == seen - counts + multiset{key} && counts - (seen + multiset{key}) == counts - seen
  {
    var more := seen + multiset{key};
    forall k: ErrorKey
      ensures k != key ==> (more - counts)[k] == (seen - counts)[k] && (counts - more)[k] == (counts - seen)[k]
    {
    }
  }

  /** The diagnostics beyond some counts, in order: each count is used up by the first diagnostics that have it. */
  method Beyond(errors: seq<Diagnostic>, counts: multiset<ErrorKey>) returns (found: seq<Diagnostic>)
    ensures Counts(found) == Counts(errors) - counts
    ensures forall d :: d in found ==> d in errors
  {
    var remaining := counts;
    found := [];
    assert Counts([]) == multiset{};
    hide KeyOf, KeysOf, Counts;
    for i := 0 to |errors|
      invariant Counts(found) == Counts(errors[..i]) - counts && remaining == counts - Counts(errors[..i])
      invariant forall d :: d in found ==> d in errors
    {
      assert errors[..i + 1] == errors[..i] + [errors[i]];
      CountsMore(errors[..i], errors[i]);
      CountsMore(found, errors[i]);
      var key := KeyOf(errors[i]);
      OneMoreKey(counts, Counts(errors[..i]), key);
      if remaining[key] > 0 {
        remaining := remaining[key := remaining[key] - 1];
      } else {
        found := found + [errors[i]];
      }
    }
    assert errors[..|errors|] == errors;
  }

  // ---- the writer ---------------------------------------------------------------------------------------------

  class ModelDraftWriter {
    const draft: ModelDraft
    const rules: Rules
    var snapshot: DraftState?
    var baseline: multiset<ErrorKey>
    var deleted: set<string>

    constructor (draft: ModelDraft, rules: Rules)
      ensures this.draft == draft && this.rules == rules && snapshot == null
    {
      this.draft, this.rules, snapshot, baseline, deleted := draft, rules, null, multiset{}, {};
    }

    /** A transaction is open, whose snapshot holds this and shares no node with the draft. */
    ghost predicate Holds(doc: Document, home: map<string, string>)
      reads this, draft, draft.nodes, snapshot, if snapshot == null then {} else set n | n in snapshot.nodes
    {
      && draft.Valid() && snapshot != null
      && Document(ValuesOf(snapshot.nodes), snapshot.edges) == doc && snapshot.home == home
      && (forall n :: n in snapshot.nodes ==> n !in draft.nodes)
    }

    method Begin()
      requires draft.Valid()
      modifies this, draft`cache
      ensures Holds(draft.Own(), draft.home) && draft.Own() == old(draft.Own())
      ensures baseline == Counts(Errors(draft.base, rules, draft.Own())) && deleted == {}
      ensures fresh(snapshot) && forall n :: n in snapshot.nodes ==> fresh(n)
    {
      hide Derived, Counts, Filter, ValuesOf;
      var s := draft.Snapshot();
      var m := draft.Model();
      snapshot := s;
      baseline := Counts(Filter(rules.validate(m), IsError()));
      deleted := {};
    }

    /** The errors beyond the baseline, in order, counted with repetition. */
    method NewErrors() returns (found: seq<Diagnostic>)
      requires draft.Valid()
      modifies draft`cache
      ensures draft.Valid() && draft.Own() == old(draft.Own())
      ensures Counts(found) == Counts(Errors(draft.base, rules, draft.Own())) - baseline
    {
      hide Derived, Filter, ValuesOf, Counts;
      var m := draft.Model();
      found := Beyond(Filter(rules.validate(m), IsError()), baseline);
    }

    /** The model after the writes, unless it has an error it did not have before. */
    method Commit() returns (committed: Option<Repository>)
      requires draft.Valid()
      modifies draft`cache
      ensures draft.Valid() && draft.Own() == old(draft.Own())
      ensures committed.Some? <==> Counts(Errors(draft.base, rules, draft.Own())) <= baseline
      ensures committed.Some? ==> committed.value == Derived(draft.base, draft.Own())
    {
      var found := NewErrors();
      NoneLeft(Counts(Errors(draft.base, rules, draft.Own())), baseline, found);
      if |found| > 0 {
        return None;
      }
      var m := draft.Model();
      committed := Some(m);
    }

    /** Also after a commit. */
    method Rollback(ghost doc: Document, ghost home: map<string, string>)
      requires Holds(doc, home)
      modifies draft
      ensures draft.Valid() && draft.Own() == doc && draft.home == home
    {
      draft.Restore(snapshot);
    }

    /** One write of the pipeline; false when the writer refuses it, and a refused write may be half done. */
    method Write(op: WriteOp, ghost doc: Document, ghost home: map<string, string>) returns (ok: bool)
      requires Holds(doc, home)
      modifies this`deleted, draft, draft.Nodes()
      ensures Holds(doc, home) && draft.home == old(draft.home)
      ensures fresh(draft.Nodes() - old(draft.Nodes()))
      ensures match Perform(draft.base, rules, Progress(old(draft.Own()), old(deleted)), op)
              case None => !ok
              case Some(after) => ok && Progress(draft.Own(), deleted) == after
    {
      hide HasNode, WithAttrs, AttrsOf, Filter, Derived, ValuesOf, Touched;
      match op {
      case CreateNode(id, concept, properties) =>
        ok := CreateWith(id, concept, properties);
      case SetProperty(id, name, value) =>
        ok := Assign(id, name, Some(value));
      case RemoveProperty(id, name) =>
        ok := Assign(id, name, None);
      case CreateRelationship(e) =>
        ok := Relate(e);
      case DeleteRelationship(e) =>
        ok := Unrelate(e);
      case DeleteNode(id, detach) =>
        if id in deleted {
          return true;
        }
        ok := Delete(id, detach);
        if ok {
          deleted := deleted + {id};
        }
      }
      assert ValuesOf(snapshot.nodes) == old(ValuesOf(snapshot.nodes));
    }

    method Assign(id: string, name: string, value: Option<Scalar>) returns (ok: bool)
      requires draft.Valid()
      modifies draft, draft.Nodes()
      ensures draft.Valid() && draft.home == old(draft.home) && draft.nodes == old(draft.nodes)
      ensures ok == OwnedBy(draft.base, old(draft.Own()), id)
      ensures ok ==> var attrs := AttrsOf(old(draft.Own()), id);
                     draft.Own() == WithAttrs(old(draft.Own()), id, if value.Some? then attrs[name := value.value] else attrs - {name})
      ensures !ok ==> draft.Own() == old(draft.Own())
    {
      hide WithAttrs;
      var i := draft.Find(id);
      var attrs := if i < |draft.nodes| then draft.nodes[i].attrs else map[];
      ok := draft.SetAttrs(id, if value.Some? then attrs[name := value.value] else attrs - {name});
    }

    method Relate(e: Edge) returns (ok: bool)
      requires draft.Valid()
      modifies draft
      ensures draft.Valid() && draft.home == old(draft.home) && draft.nodes == old(draft.nodes)
      ensures ok == (OwnedBy(draft.base, old(draft.Own()), e.from) && Known(draft.base, old(draft.Own()), e.to)
                     && rules.accepts(Derived(draft.base, old(draft.Own())), e))
      ensures draft.Own() == if ok && e !in old(draft.edges) then old(draft.Own()).(edges := old(draft.edges) + [e]) else old(draft.Own())
    {
      hide HasNode, Derived, ValuesOf;
      if !draft.Owns(e.from) {
        return false;
      }
      var known := draft.Has(e.to);
      if !known {
        return false;
      }
      var m := draft.Model();
      ok := rules.accepts(m, e);
      if ok && e !in draft.edges {
        draft.AddRef(e);
      }
    }

    method Unrelate(e: Edge) returns (ok: bool)
      requires draft.Valid()
      modifies draft
      ensures draft.Valid() && draft.home == old(draft.home) && draft.nodes == old(draft.nodes)
      ensures ok == OwnedBy(draft.base, old(draft.Own()), e.from)
      ensures draft.Own() == if ok then old(draft.Own()).(edges := Filter(old(draft.edges), NotEdge(e))) else old(draft.Own())
    {
      hide HasNode, Derived, ValuesOf;
      ok := draft.Owns(e.from);
      if e !in draft.edges {
        FilterAll(draft.edges, NotEdge(e));
      } else if ok {
        draft.RemoveRef(e);
      }
    }

    method Delete(id: string, detach: bool) returns (ok: bool)
      requires draft.Valid()
      modifies draft
      ensures draft.Valid() && draft.home == old(draft.home) && forall n :: n in draft.nodes ==> n in old(draft.nodes)
      ensures ok == (OwnedBy(draft.base, old(draft.Own()), id) && (detach || !Touched(old(draft.edges), id)))
      ensures draft.Own() == if ok then Document(Filter(old(draft.Own()).nodes, NotNode(id)), Filter(old(draft.edges), NotTouching(id))) else old(draft.Own())
    {
      hide HasNode, Derived, ValuesOf, Filter;
      ok := draft.Owns(id) && (detach || !Touched(draft.edges, id));
      if ok {
        draft.Remove(id);
      }
    }

    /** A node, then its properties one at a time. */
    method CreateWith(id: string, concept: string, properties: map<string, Scalar>) returns (ok: bool)
      requires draft.Valid()
      modifies draft, draft.Nodes()
      ensures draft.Valid() && draft.home == old(draft.home)
      ensures fresh(draft.Nodes() - old(draft.Nodes()))
      ensures ok == (Known(draft.base, old(draft.Own()), concept) && !Known(draft.base, old(draft.Own()), id))
      ensures draft.Own() == if ok then old(draft.Own()).(nodes := old(draft.Own()).nodes + [NodeValue(id, concept, properties)]) else old(draft.Own())
    {
      hide HasNode, Derived, ValuesOf, WithAttrs;
      var known := draft.Has(concept);
      var taken := draft.Has(id);
      if !known || taken {
        return false;
      }
      draft.Create(concept, id, None);
      NewNodeAttrs(draft.base, old(draft.Own()), id, concept, properties);
      SetAll(id, properties);
      ok := true;
    }

    method SetAll(id: string, properties: map<string, Scalar>)
      requires draft.Valid() && draft.Owns(id) && AttrsOf(draft.Own(), id) == map[]
      modifies draft, draft.Nodes()
      ensures draft.Valid() && draft.home == old(draft.home) && draft.nodes == old(draft.nodes)
      ensures draft.Own() == WithAttrs(old(draft.Own()), id, properties)
    {
      hide HasNode, Derived, ValuesOf, WithAttrs, AttrsOf;
      ghost var start := draft.Own();
      AttrsAgain(draft.base, start, id, map[]);
      var left := properties.Keys;
      var done: map<string, Scalar> := map[];
      while left != {}
        invariant left <= properties.Keys && done == map k | k in properties && k !in left :: properties[k]
        invariant draft.Valid() && draft.home == old(draft.home) && draft.nodes == old(draft.nodes)
        invariant draft.Own() == WithAttrs(start, id, done)
        decreases |left|
      {
        var name :| name in left;
        left := left - {name};
        AttrsAgain(draft.base, start, id, done);
        AttrsTwice(start, id, done, done[name := properties[name]]);
        var _ := Assign(id, name, Some(properties[name]));
        done := done[name := properties[name]];
      }
      assert done == properties;
    }
  }

  /** Setting an own node's attributes, and reading them. */
  lemma AttrsAgain(base: Document, doc: Document, id: string, attrs: map<string, Scalar>)
    ensures HasNode(doc.nodes, id) ==> AttrsOf(WithAttrs(doc, id, attrs), id) == attrs
    ensures OwnedBy(base, WithAttrs(doc, id, attrs), id) == OwnedBy(base, doc, id)
    ensures AttrsOf(doc, id) == attrs ==> WithAttrs(doc, id, attrs) == doc
  {
    var i := NodeIndex(doc.nodes, id);
    if i < |doc.nodes| {
      FirstIndex(WithAttrs(doc, id, attrs).nodes, id, i);
    }
  }

  lemma AttrsTwice(doc: Document, id: string, a: map<string, Scalar>, b: map<string, Scalar>)
    ensures WithAttrs(WithAttrs(doc, id, a), id, b) == WithAttrs(doc, id, b)
  {
    var i := NodeIndex(doc.nodes, id);
    if i < |doc.nodes| {
      FirstIndex(WithAttrs(doc, id, a).nodes, id, i);
      assert WithAttrs(WithAttrs(doc, id, a), id, b).nodes == WithAttrs(doc, id, b).nodes;
    }
  }

  /** A node just appended under a new id is the one its id finds. */
  lemma NewNodeAttrs(base: Document, doc: Document, id: string, concept: string, properties: map<string, Scalar>)
    requires !Known(base, doc, id)
    ensures var more := doc.(nodes := doc.nodes + [NodeValue(id, concept, map[])]);
            OwnedBy(base, more, id) && AttrsOf(more, id) == map[]
            && WithAttrs(more, id, properties) == doc.(nodes := doc.nodes + [NodeValue(id, concept, properties)])
  {
    LastNode(doc.nodes, NodeValue(id, concept, map[]), id);
  }

  lemma LastNode(before: seq<NodeValue>, last: NodeValue, id: string)
    requires !HasNode(before, id) && last.id == id
    ensures NodeIndex(before + [last], id) == |before|
  {
    assert (before + [last])[|before|] == last;
    assert forall j :: 0 <= j < |before| ==> before[j] in before && (before + [last])[j] == before[j];
    FirstIndex(before + [last], id, |before|);
  }

  lemma NoneLeft(all: multiset<ErrorKey>, baseline: multiset<ErrorKey>, found: seq<Diagnostic>)
    requires Counts(found) == all - baseline
    ensures |found| == 0 <==> all <= baseline
  {
    assert |Counts(found)| == |found|;
    if all <= baseline {
      assert all - baseline == multiset{};
    }
    if |found| == 0 {
      assert Counts(found) == multiset{};
      forall k ensures all[k] <= baseline[k] {
        assert (all - baseline)[k] == 0;
      }
    }
  }

  // ---- the engine ---------------------------------------------------------------------------------------------

  /** What else can throw: the plan or an expression after some writes, and the projection after the commit. */
  datatype Faults = Faults(pipeline: bool, projection: bool)

  class WriteEngine {
    const writer: ModelDraftWriter

    constructor (writer: ModelDraftWriter)
      ensures this.writer == writer
    {
      this.writer := writer;
    }

    /**
     Runs a write query that makes these writes. False when anything threw; the draft is then as it was. Otherwise every
     write is in, and the model has no error it did not have before.
     */
    method ExecuteWrite(ops: seq<WriteOp>, faults: Faults) returns (ok: bool)
      requires writer.draft.Valid()
      modifies writer, writer.draft, writer.draft.Nodes()
      ensures writer.draft.Valid() && writer.draft.home == old(writer.draft.home)
      ensures !ok ==> writer.draft.Own() == old(writer.draft.Own())
      ensures ok ==> var all := PerformAll(writer.draft.base, writer.rules, Progress(old(writer.draft.Own()), {}), ops, |ops|);
                     all.Some? && writer.draft.Own() == all.value.doc
      ensures ok ==> NoNewErrors(Reported(writer.draft.base, writer.rules, old(writer.draft.Own())),
                                 Reported(writer.draft.base, writer.rules, writer.draft.Own()))
      ensures ok <==> !faults.pipeline && !faults.projection && Commits(writer.draft.base, writer.rules, old(writer.draft.Own()), ops)
    {
      hide NoNewErrors, Derived, ValuesOf, PerformAll, Counts;
      ghost var start, home := writer.draft.Own(), writer.draft.home;
      writer.Begin();
      ok := Drain(ops, start, home);
      if !ok || faults.pipeline {
        writer.Rollback(start, home);
        return false;
      }
      WithinIff(Reported(writer.draft.base, writer.rules, start), Reported(writer.draft.base, writer.rules, writer.draft.Own()));
      var committed := writer.Commit();
      if committed.None? || faults.projection {
        writer.Rollback(start, home);
        return false;
      }
    }

    /** Runs the pipeline to its end, or to the first write that is refused. */
    method Drain(ops: seq<WriteOp>, ghost start: Document, ghost home: map<string, string>) returns (ok: bool)
      requires writer.Holds(start, home) && writer.draft.Own() == start && writer.draft.home == home && writer.deleted == {}
      modifies writer`deleted, writer.draft, writer.draft.Nodes()
      ensures writer.Holds(start, home)
      ensures match PerformAll(writer.draft.base, writer.rules, Progress(start, {}), ops, |ops|)
              case None => !ok
              case Some(after) => ok && writer.draft.Own() == after.doc && writer.draft.home == home
      ensures fresh(writer.draft.Nodes() - old(writer.draft.Nodes()))
    {
      hide Perform, ValuesOf, Apart, Derived, PerformAll;
      assert PerformAll(writer.draft.base, writer.rules, Progress(start, {}), ops, 0) == Some(Progress(start, {})) by {
        NoWrites(writer.draft.base, writer.rules, Progress(start, {}), ops);
      }
      for i := 0 to |ops|
        invariant writer.Holds(start, home) && writer.draft.home == home
        invariant fresh(writer.draft.Nodes() - old(writer.draft.Nodes()))
        invariant PerformAll(writer.draft.base, writer.rules, Progress(start, {}), ops, i) == Some(Progress(writer.draft.Own(), writer.deleted))
      {
        ok := Next(ops, i, start, home);
        if !ok {
          NoneAfter(writer.draft.base, writer.rules, Progress(start, {}), ops, i + 1, |ops|);
          return;
        }
      }
      ok := true;
    }

    method Next(ops: seq<WriteOp>, i: nat, ghost start: Document, ghost home: map<string, string>) returns (ok: bool)
      requires i < |ops| && writer.Holds(start, home)
      requires PerformAll(writer.draft.base, writer.rules, Progress(start, {}), ops, i) == Some(Progress(writer.draft.Own(), writer.deleted))
      modifies writer`deleted, writer.draft, writer.draft.Nodes()
      ensures writer.Holds(start, home) && writer.draft.home == old(writer.draft.home)
      ensures fresh(writer.draft.Nodes() - old(writer.draft.Nodes()))
      ensures PerformAll(writer.draft.base, writer.rules, Progress(start, {}), ops, i + 1)
           == if ok then Some(Progress(writer.draft.Own(), writer.deleted)) else None
    {
      hide Perform, ValuesOf, Apart, Derived;
      ok := writer.Write(ops[i], start, home);
    }
  }

  lemma NoWrites(base: Document, rules: Rules, p: Progress, ops: seq<WriteOp>)
    ensures PerformAll(base, rules, p, ops, 0) == Some(p)
  {
  }

  /** Every write is accepted and none brings an error that was not there before. */
  ghost predicate Commits(base: Document, rules: Rules, start: Document, ops: seq<WriteOp>) {
    var all := PerformAll(base, rules, Progress(start, {}), ops, |ops|);
    all.Some? && NoNewErrors(Reported(base, rules, start), Reported(base, rules, all.value.doc))
  }

  /** A query on a model without errors commits exactly if its writes are accepted and give a model without errors. */
  lemma ErrorFreeCommitsIff(base: Document, rules: Rules, start: Document, ops: seq<WriteOp>)
    requires ErrorFree(Reported(base, rules, start))
    ensures Commits(base, rules, start, ops)
       <==> PerformAll(base, rules, Progress(start, {}), ops, |ops|).Some?
            && ErrorFree(Reported(base, rules, PerformAll(base, rules, Progress(start, {}), ops, |ops|).value.doc))
  {
    hide PerformAll, Derived, NoNewErrors, ErrorFree;
    var all := PerformAll(base, rules, Progress(start, {}), ops, |ops|);
    if all.Some? {
      ErrorFreeStaysIff(Reported(base, rules, start), Reported(base, rules, all.value.doc));
    }
  }

  lemma {:induction false} NoneAfter(base: Document, rules: Rules, p: Progress, ops: seq<WriteOp>, i: nat, n: nat)
    requires i <= n <= |ops| && PerformAll(base, rules, p, ops, i).None?
    ensures PerformAll(base, rules, p, ops, n).None?
  {
    hide Perform;
    if i < n {
      NoneAfter(base, rules, p, ops, i, n - 1);
    }
  }

  // ---- what the writes keep -----------------------------------------------------------------------------------

  predicate DistinctIds(nodes: seq<NodeValue>) {
    forall i, j :: 0 <= i < j < |nodes| ==> nodes[i].id != nodes[j].id
  }

  /** Own nodes have distinct ids none of which is frozen, and no own edge starts or ends nowhere. */
  ghost predicate Sound(base: Document, doc: Document) {
    && DistinctIds(doc.nodes)
    && (forall n :: n in doc.nodes ==> !HasNode(base.nodes, n.id))
    && (forall e :: e in doc.edges ==> HasNode(doc.nodes, e.from) && Known(base, doc, e.to))
  }

  lemma NodesLeft(nodes: seq<NodeValue>, id: string, x: string)
    ensures HasNode(Filter(nodes, NotNode(id)), x) <==> HasNode(nodes, x) && x != id
  {
    forall n ensures n in Filter(nodes, NotNode(id)) <==> n in nodes && n.id != id {
      FilterMember(nodes, NotNode(id), n);
    }
  }

  lemma {:induction false} FilteredIdsDiffer(nodes: seq<NodeValue>, id: string)
    requires DistinctIds(nodes)
    ensures DistinctIds(Filter(nodes, NotNode(id)))
  {
    if nodes != [] {
      FilteredIdsDiffer(nodes[1..], id);
      var rest := Filter(nodes[1..], NotNode(id));
      forall n | n in rest ensures n.id != nodes[0].id {
        FilterMember(nodes[1..], NotNode(id), n);
        var k :| 0 <= k < |nodes[1..]| && nodes[1..][k] == n;
        assert nodes[k + 1] == n;
      }
      var r := Filter(nodes, NotNode(id));
      assert r == if nodes[0].id != id then [nodes[0]] + rest else rest;
      forall i, j | 0 <= i < j < |r| ensures r[i].id != r[j].id {
        assert nodes[0].id != id ==> r[j] == rest[j - 1] && rest[j - 1] in rest && (i > 0 ==> r[i] == rest[i - 1]);
      }
    }
  }

  lemma DeleteKeepsSound(base: Document, doc: Document, id: string)
    requires Sound(base, doc)
    ensures Sound(base, Document(Filter(doc.nodes, NotNode(id)), Filter(doc.edges, NotTouching(id))))
  {
    hide HasNode;
    FilteredIdsDiffer(doc.nodes, id);
    forall n ensures n in Filter(doc.nodes, NotNode(id)) <==> n in doc.nodes && n.id != id {
      FilterMember(doc.nodes, NotNode(id), n);
    }
    forall e | e in Filter(doc.edges, NotTouching(id)) ensures e in doc.edges && e.from != id && e.to != id {
      FilterMember(doc.edges, NotTouching(id), e);
    }
    forall x ensures HasNode(Filter(doc.nodes, NotNode(id)), x) <==> HasNode(doc.nodes, x) && x != id {
      NodesLeft(doc.nodes, id, x);
    }
  }

  lemma AttrsKeepSound(base: Document, doc: Document, id: string, attrs: map<string, Scalar>)
    requires Sound(base, doc)
    ensures Sound(base, WithAttrs(doc, id, attrs))
  {
    var more := WithAttrs(doc, id, attrs);
    assert |more.nodes| == |doc.nodes| && forall i :: 0 <= i < |doc.nodes| ==> more.nodes[i].id == doc.nodes[i].id;
    forall x ensures HasNode(more.nodes, x) <==> HasNode(doc.nodes, x) {
      if HasNode(doc.nodes, x) {
        var i: nat :| i < |doc.nodes| && doc.nodes[i].id == x;
        assert more.nodes[i] in more.nodes;
      }
      if HasNode(more.nodes, x) {
        var i: nat :| i < |more.nodes| && more.nodes[i].id == x;
        assert doc.nodes[i] in doc.nodes;
      }
    }
    forall n | n in more.nodes ensures !HasNode(base.nodes, n.id) {
      var i: nat :| i < |more.nodes| && more.nodes[i] == n;
      assert doc.nodes[i] in doc.nodes;
    }
  }

  lemma CreateKeepsSound(base: Document, doc: Document, n: NodeValue)
    requires Sound(base, doc) && !Known(base, doc, n.id)
    ensures Sound(base, doc.(nodes := doc.nodes + [n]))
  {
    var more := doc.nodes + [n];
    forall x ensures HasNode(more, x) <==> HasNode(doc.nodes, x) || x == n.id {
      assert more[|doc.nodes|] == n;
    }
    assert forall i :: 0 <= i < |doc.nodes| ==> doc.nodes[i] in doc.nodes;
  }

  /** Every accepted write keeps the draft free of duplicate ids and dangling edges. */
  lemma WritesKeepSound(base: Document, rules: Rules, p: Progress, op: WriteOp)
    requires Sound(base, p.doc) && Perform(base, rules, p, op).Some?
    ensures Sound(base, Perform(base, rules, p, op).value.doc)
  {
    hide HasNode, Derived, Touched;
    match op {
      case CreateNode(id, concept, properties) => CreateKeepsSound(base, p.doc, NodeValue(id, concept, properties));
      case SetProperty(id, name, value) => AttrsKeepSound(base, p.doc, id, AttrsOf(p.doc, id)[name := value]);
      case RemoveProperty(id, name) => AttrsKeepSound(base, p.doc, id, AttrsOf(p.doc, id) - {name});
      case CreateRelationship(e) =>
      case DeleteRelationship(e) =>
        forall x | x in Filter(p.doc.edges, NotEdge(e)) ensures x in p.doc.edges {
          FilterMember(p.doc.edges, NotEdge(e), x);
        }
      case DeleteNode(id, _) => DeleteKeepsSound(base, p.doc, id);
    }
  }

  /** So does every write query, whatever it writes and wherever it fails. */
  lemma {:induction false} QueriesKeepSound(base: Document, rules: Rules, p: Progress, ops: seq<WriteOp>, n: nat)
    requires Sound(base, p.doc) && n <= |ops| && PerformAll(base, rules, p, ops, n).Some?
    ensures Sound(base, PerformAll(base, rules, p, ops, n).value.doc)
  {
    hide Perform, Sound;
    if n > 0 {
      QueriesKeepSound(base, rules, p, ops, n - 1);
      WritesKeepSound(base, rules, PerformAll(base, rules, p, ops, n - 1).value, ops[n - 1]);
    }
  }
}
