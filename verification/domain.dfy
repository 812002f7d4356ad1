/**
 Loading packages with their dependencies, and unloading them again.

 A load registers a manifest before its dependencies load, so cycles end. After every run of successful loads and of
 unloads, a manifest's import count is the number of loaded importers with multiplicity, every dependency of a loaded
 manifest is loaded, and every node of the heap has a loaded manifest that defines its type. With acyclic dependencies
 the manifests are listed dependencies first.
 */
module Domains {
  import opened Wrappers
  import opened Seqs

  datatype Id = Id(model: string, version: string)
  datatype Ref = Ref(model: string, version: Option<string>)
  datatype TypeName = TypeName(full: string, simple: string)
  datatype HeapNode = HeapNode(id: string, concept: string, term: Option<string>)
  datatype Package = Package(dependencies: seq<Ref>, types: seq<TypeName>, terms: set<string>, seed: seq<HeapNode>)

  /** What the source of packages knows: the versions of a model, oldest first, and the packages it resolves. */
  datatype Packages = Packages(versions: map<string, seq<string>>, resolved: map<Id, Package>)

  // ---- references and names -----------------------------------------------------------------------------------

  /** The version asked for, or the latest; None when there is none to pin. */
  function Pin(p: Packages, ref: Ref): Option<Id> {
    if ref.version.Some? then Some(Id(ref.model, ref.version.value))
    else if ref.model in p.versions && |p.versions[ref.model]| > 0 then Some(Id(ref.model, p.versions[ref.model][|p.versions[ref.model]| - 1]))
    else None
  }

  /** The dependencies of a package that are pinned among the first n. */
  function Pinned(p: Packages, refs: seq<Ref>, n: nat): seq<Id>
    requires n <= |refs|
  {
    if n == 0 then []
    else Pinned(p, refs, n - 1) + (match Pin(p, refs[n - 1])
                                   case Some(id) => [id]
                                   case None => [])
  }

  function DepsOf(p: Packages, id: Id): seq<Id> {
    if id in p.resolved then Pinned(p, p.resolved[id].dependencies, |p.resolved[id].dependencies|) else []
  }

  predicate HasFull(types: seq<TypeName>, name: string) {
    exists t :: t in types && t.full == name
  }

  function SimplyNamed(types: seq<TypeName>, name: string): seq<TypeName> {
    Filter(types, (t: TypeName) => t.simple == name)
  }

  /** A manifest answers to a full name, or to a simple name one of its types has. */
  predicate Defines(types: seq<TypeName>, name: string) {
    HasFull(types, name) || |SimplyNamed(types, name)| == 1
  }

  function TypesIn(p: Packages, id: Id): seq<TypeName> {
    if id in p.resolved then p.resolved[id].types else []
  }

  /** The first manifest with a type of the full name. */
  function FirstFull(p: Packages, order: seq<Id>, name: string): Option<Id> {
    if order == [] then None else if HasFull(TypesIn(p, order[0]), name) then Some(order[0]) else FirstFull(p, order[1..], name)
  }

  function Times(id: Id, n: nat): (r: seq<Id>)
    ensures |r| == n && forall i :: 0 <= i < n ==> r[i] == id
  {
    seq(n, i => id)
  }

  /** Each type with the simple name, by its manifest. */
  function SimpleOwners(p: Packages, order: seq<Id>, name: string): seq<Id> {
    if order == [] then [] else Times(order[0], |SimplyNamed(TypesIn(p, order[0]), name)|) + SimpleOwners(p, order[1..], name)
  }

  /** The manifest that owns a type name: the first with that full name, or the only one with a type of that simple name. */
  function OwnerOf(p: Packages, order: seq<Id>, name: string): Option<Id> {
    match FirstFull(p, order, name)
    case Some(id) => Some(id)
    case None => var owners := SimpleOwners(p, order, name); if |owners| == 1 then Some(owners[0]) else None
  }

  predicate BindsTo(node: HeapNode, package: Package) {
    Defines(package.types, node.concept) || (node.term.Some? && node.term.value in package.terms)
  }

  // ---- counts -------------------------------------------------------------------------------------------------

  function Uses(deps: seq<Id>, id: Id): nat {
    multiset(deps)[id]
  }

  /** How often the manifests listed import one. */
  function Imports(p: Packages, order: seq<Id>, id: Id): nat {
    if order == [] then 0 else Imports(p, order[..|order| - 1], id) + Uses(DepsOf(p, order[|order| - 1]), id)
  }

  /** A load under way: its manifest, and the dependencies it has counted so far. */
  datatype Frame = Frame(id: Id, counted: seq<Id>)

  function Underway(loading: seq<Frame>, id: Id): nat {
    if loading == [] then 0 else Underway(loading[..|loading| - 1], id) + Uses(loading[|loading| - 1].counted, id)
  }

  predicate Distinct(order: seq<Id>) {
    forall i, j :: 0 <= i < j < |order| ==> order[i] != order[j]
  }

  /** Every dependency is listed before its importer. */
  predicate DepsFirst(p: Packages, order: seq<Id>) {
    forall i :: 0 <= i < |order| ==> forall d :: d in DepsOf(p, order[i]) ==> d in order[..i]
  }

  /** A rank under which every dependency is below its importer: the dependencies are acyclic. */
  ghost predicate Descends(p: Packages, rank: Id -> nat) {
    forall id, d :: d in DepsOf(p, id) ==> rank(d) < rank(id)
  }

  ghost predicate Reaches(p: Packages, from: Id, to: Id, steps: nat)
    decreases steps
  {
    if steps == 0 then from == to else exists d :: d in DepsOf(p, from) && Reaches(p, d, to, steps - 1)
  }

  ghost predicate Reached(p: Packages, from: Id, to: Id) {
    exists n: nat :: Reaches(p, from, to, n)
  }

  /** What a load added to the manifests listed is reached from its package. */
  ghost predicate NewReached(p: Packages, from: Id, before: seq<Id>, after: seq<Id>) {
    before <= after && forall x :: x in after[|before|..] ==> Reached(p, from, x)
  }

  ghost predicate Above(rank: Id -> nat, loading: seq<Frame>, id: Id) {
    forall f :: f in loading ==> rank(id) < rank(f.id)
  }

  lemma ReachedByDependency(p: Packages, from: Id, d: Id, before: seq<Id>, mid: seq<Id>, after: seq<Id>)
    requires d in DepsOf(p, from) && NewReached(p, from, before, mid) && NewReached(p, d, mid, after)
    ensures NewReached(p, from, before, after)
  {
    hide DepsOf;
    forall x | x in after[|before|..] ensures Reached(p, from, x) {
      var i :| |before| <= i < |after| && after[i] == x;
      if i < |mid| {
        assert mid[i] == x && x in mid[|before|..];
      } else {
        assert x in after[|mid|..];
        var n: nat :| Reaches(p, d, x, n);
        assert Reaches(p, from, x, n + 1);
      }
    }
  }

  lemma ReachesItself(p: Packages, id: Id, before: seq<Id>, after: seq<Id>)
    ensures NewReached(p, id, before, before)
    ensures NewReached(p, id, before, after) ==> NewReached(p, id, before, after + [id])
  {
    assert Reaches(p, id, id, 0);
    if NewReached(p, id, before, after) {
      assert (after + [id])[|before|..] == after[|before|..] + [id];
    }
  }

  lemma FewerLeft(all: set<Id>, a: set<Id>, b: set<Id>)
    requires a <= b
    ensures |all - b| <= |all - a|
    ensures forall id :: id in all && id in b && id !in a ==> |all - b| < |all - a|
  {
    var x, y := all - a, all - b;
    assert y <= x;
    Smaller(y, x);
  }

  lemma {:induction false} Smaller(y: set<Id>, x: set<Id>)
    requires y <= x
    ensures |y| <= |x| && (y != x ==> |y| < |x|)
  {
    if y != {} {
      var e :| e in y;
      Smaller(y - {e}, x - {e});
    }
  }

  lemma {:induction false} ImportsOfPart(p: Packages, order: seq<Id>, i: nat, id: Id)
    requires i < |order|
    ensures Imports(p, order, id) == Imports(p, order[..i] + order[i + 1..], id) + Uses(DepsOf(p, order[i]), id)
    decreases |order|
  {
    hide DepsOf, Uses;
    var n := |order| - 1;
    var part := order[..i] + order[i + 1..];
    if i < n {
      ImportsOfPart(p, order[..n], i, id);
      assert part[..|part| - 1] == order[..n][..i] + order[..n][i + 1..];
      assert part[|part| - 1] == order[n];
    } else {
      assert part == order[..n];
    }
  }

  lemma {:induction false} NoImportsNoImporter(p: Packages, order: seq<Id>, id: Id)
    ensures Imports(p, order, id) == 0 <==> forall x :: x in order ==> id !in DepsOf(p, x)
  {
    if order != [] {
      var before, last := order[..|order| - 1], order[|order| - 1];
      NoImportsNoImporter(p, before, id);
      assert order == before + [last];
    }
  }

  lemma PinnedAll(p: Packages, refs: seq<Ref>, n: nat, id: Id)
    requires n < |refs| && Pin(p, refs[n]) == Some(id)
    ensures Pinned(p, refs, n + 1) == Pinned(p, refs, n) + [id]
  {
  }

  lemma {:induction false} PinnedMember(p: Packages, refs: seq<Ref>, n: nat, m: nat, id: Id)
    requires n < m <= |refs| && Pin(p, refs[n]) == Some(id)
    ensures id in Pinned(p, refs, m)
  {
    if n < m - 1 {
      PinnedMember(p, refs, n, m - 1, id);
    }
  }

  lemma OneMoreUse(deps: seq<Id>, more: Id, id: Id)
    ensures Uses(deps + [more], id) == Uses(deps, id) + if id == more then 1 else 0
  {
    assert multiset(deps + [more]) == multiset(deps) + multiset{more};
  }

  // ---- the registry -------------------------------------------------------------------------------------------

  /** `byIdentity` are the registered manifests, those whose load is under way among them; `order` the loaded ones. */
  datatype State = State(byIdentity: set<Id>, order: seq<Id>, counts: map<Id, nat>, depsOf: map<Id, seq<Id>>,
                         heap: map<string, HeapNode>, origin: map<string, Id>)

  function CountOf(counts: map<Id, nat>, id: Id): nat {
    if id in counts then counts[id] else 0
  }

  predicate Loading(loading: seq<Frame>, id: Id) {
    exists f :: f in loading && f.id == id
  }

  /** Loaded and loading manifests are apart; what is recorded of a loaded one is what its package says. */
  ghost predicate RegistryOk(p: Packages, s: State, loading: seq<Frame>) {
    && Distinct(s.order) && s.byIdentity <= p.resolved.Keys
    && (forall id :: id in s.byIdentity <==> id in s.order || Loading(loading, id))
    && (forall id :: id in s.order ==> !Loading(loading, id))
    && (forall id :: id in s.depsOf <==> id in s.order)
    && (forall id :: id in s.order ==> s.depsOf[id] == DepsOf(p, id))
  }

  /** Every dependency of a loaded manifest is loaded, or its load is under way. */
  ghost predicate Closed(p: Packages, s: State, loading: seq<Frame>) {
    && (forall id, d :: id in s.order && d in DepsOf(p, id) ==> d in s.byIdentity)
    && (forall f, d :: f in loading && d in f.counted ==> d in s.byIdentity)
  }

  ghost predicate CountsOk(p: Packages, s: State, loading: seq<Frame>) {
    forall id :: CountOf(s.counts, id) == Imports(p, s.order, id) + Underway(loading, id)
  }

  predicate Defined(p: Packages, order: seq<Id>, name: string) {
    exists id :: id in order && id in p.resolved && Defines(p.resolved[id].types, name)
  }

  /** A loaded manifest defines the type of every heap node. */
  predicate HeapTyped(p: Packages, s: State) {
    forall n :: n in s.heap ==> s.heap[n].id == n && Defined(p, s.order, s.heap[n].concept)
  }

  ghost predicate Valid(p: Packages, s: State, loading: seq<Frame>) {
    RegistryOk(p, s, loading) && Closed(p, s, loading) && CountsOk(p, s, loading) && HeapTyped(p, s)
  }

  /** A registered manifest below every load under way is loaded. */
  lemma LoadedWhenAbove(p: Packages, s: State, loading: seq<Frame>, rank: Id -> nat, id: Id)
    requires RegistryOk(p, s, loading)
    ensures s.byIdentity <= p.resolved.Keys
    ensures id in s.byIdentity && Above(rank, loading, id) ==> id in s.order
    ensures id !in s.byIdentity ==> !Loading(loading, id)
  {
  }

  // ---- steps of a load ----------------------------------------------------------------------------------------

  function Registered(s: State, id: Id): State {
    s.(byIdentity := s.byIdentity + {id})
  }

  function Counted(s: State, id: Id): State {
    s.(counts := s.counts[id := CountOf(s.counts, id) + 1])
  }

  function Finalized(p: Packages, s: State, id: Id): State {
    s.(order := s.order + [id], depsOf := s.depsOf[id := DepsOf(p, id)])
  }

  predicate Owned(p: Packages, order: seq<Id>, name: string) {
    OwnerOf(p, order, name).Some?
  }

  /** Binds seed nodes in turn, up to the first whose type nothing owns. */
  function Bound(p: Packages, s: State, nodes: seq<HeapNode>, to: Id): State
    decreases |nodes|
  {
    if nodes == [] || !Owned(p, s.order, nodes[0].concept) then s
    else Bound(p, s.(heap := s.heap[nodes[0].id := nodes[0]], origin := s.origin[nodes[0].id := to]), nodes[1..], to)
  }

  predicate AllOwned(p: Packages, order: seq<Id>, nodes: seq<HeapNode>) {
    forall n :: n in nodes ==> Owned(p, order, n.concept)
  }

  lemma LoadingMore(loading: seq<Frame>, f: Frame, id: Id)
    ensures Loading(loading + [f], id) <==> Loading(loading, id) || id == f.id
  {
    assert (loading + [f])[|loading|] == f;
    if Loading(loading, id) {
      var g :| g in loading && g.id == id;
      assert g in loading + [f];
    }
  }

  lemma UnderwayMore(loading: seq<Frame>, f: Frame, id: Id)
    ensures Underway(loading + [f], id) == Underway(loading, id) + Uses(f.counted, id)
  {
    assert (loading + [f])[..|loading|] == loading;
  }

  lemma RegisterKeeps(p: Packages, s: State, loading: seq<Frame>, id: Id)
    requires Valid(p, s, loading) && id !in s.byIdentity && id in p.resolved
    ensures Valid(p, Registered(s, id), loading + [Frame(id, [])])
  {
    hide HeapTyped, Imports, DepsOf, Defined;
    var t, more := Registered(s, id), loading + [Frame(id, [])];
    forall x ensures (Loading(more, x) <==> Loading(loading, x) || x == id) && Underway(more, x) == Underway(loading, x) {
      LoadingMore(loading, Frame(id, []), x);
      UnderwayMore(loading, Frame(id, []), x);
    }
    assert Closed(p, t, more) by {
      assert forall f :: f in more ==> f in loading || f == Frame(id, []);
    }
    assert HeapTyped(p, t) by {
      SameHeap(p, s, t);
    }
  }

  lemma SameHeap(p: Packages, s: State, t: State)
    requires HeapTyped(p, s) && t.heap == s.heap && forall id :: id in s.order ==> id in t.order
    ensures HeapTyped(p, t)
  {
    forall n | n in t.heap ensures Defined(p, t.order, t.heap[n].concept) {
      assert Defined(p, s.order, s.heap[n].concept);
    }
  }

  lemma CountKeeps(p: Packages, s: State, loading: seq<Frame>, id: Id, counted: seq<Id>, dep: Id)
    requires Valid(p, s, loading + [Frame(id, counted)]) && dep in s.byIdentity
    ensures Valid(p, Counted(s, dep), loading + [Frame(id, counted + [dep])])
  {
    hide HeapTyped, Imports, DepsOf, Defined, Uses;
    var was, more := loading + [Frame(id, counted)], loading + [Frame(id, counted + [dep])];
    var t := Counted(s, dep);
    forall x ensures (Loading(more, x) <==> Loading(was, x)) && Underway(more, x) == Underway(was, x) + if x == dep then 1 else 0 {
      LoadingMore(loading, Frame(id, counted), x);
      LoadingMore(loading, Frame(id, counted + [dep]), x);
      UnderwayMore(loading, Frame(id, counted), x);
      UnderwayMore(loading, Frame(id, counted + [dep]), x);
      OneMoreUse(counted, dep, x);
    }
    assert CountsOk(p, t, more);
    assert Closed(p, t, more) by {
      assert Frame(id, counted) in was;
      assert forall f :: f in more ==> f in was || f == Frame(id, counted + [dep]);
    }
    assert HeapTyped(p, t) by {
      SameHeap(p, s, t);
    }
  }

  lemma FramePopped(loading: seq<Frame>, f: Frame)
    ensures forall x :: Loading(loading + [f], x) <==> Loading(loading, x) || x == f.id
    ensures forall x :: Underway(loading + [f], x) == Underway(loading, x) + Uses(f.counted, x)
  {
    hide Uses;
    forall x ensures (Loading(loading + [f], x) <==> Loading(loading, x) || x == f.id) && Underway(loading + [f], x) == Underway(loading, x) + Uses(f.counted, x) {
      LoadingMore(loading, f, x);
      UnderwayMore(loading, f, x);
    }
  }

  lemma FinalizeRegistry(p: Packages, s: State, loading: seq<Frame>, id: Id)
    requires RegistryOk(p, s, loading + [Frame(id, DepsOf(p, id))]) && !Loading(loading, id)
    ensures RegistryOk(p, Finalized(p, s, id), loading)
  {
    hide DepsOf, Loading;
    FramePopped(loading, Frame(id, DepsOf(p, id)));
  }

  lemma FinalizeCounts(p: Packages, s: State, loading: seq<Frame>, id: Id)
    requires CountsOk(p, s, loading + [Frame(id, DepsOf(p, id))])
    ensures CountsOk(p, Finalized(p, s, id), loading)
  {
    hide DepsOf, Loading, Uses, Underway;
    FramePopped(loading, Frame(id, DepsOf(p, id)));
    assert Finalized(p, s, id).order[..|s.order|] == s.order;
  }

  lemma FinalizeClosed(p: Packages, s: State, loading: seq<Frame>, id: Id)
    requires Closed(p, s, loading + [Frame(id, DepsOf(p, id))])
    ensures Closed(p, Finalized(p, s, id), loading)
  {
    hide DepsOf;
    var was := loading + [Frame(id, DepsOf(p, id))];
    assert was[|loading|] == Frame(id, DepsOf(p, id)) && Frame(id, DepsOf(p, id)) in was;
    assert forall f :: f in loading ==> f in was;
  }

  lemma FinalizeKeeps(p: Packages, s: State, loading: seq<Frame>, id: Id)
    requires Valid(p, s, loading + [Frame(id, DepsOf(p, id))]) && !Loading(loading, id)
    ensures Valid(p, Finalized(p, s, id), loading)
  {
    hide RegistryOk, Closed, CountsOk, HeapTyped, DepsOf;
    FinalizeRegistry(p, s, loading, id);
    FinalizeCounts(p, s, loading, id);
    FinalizeClosed(p, s, loading, id);
    SameHeap(p, s, Finalized(p, s, id));
  }

  lemma {:induction false} FirstFullIs(p: Packages, order: seq<Id>, name: string)
    ensures match FirstFull(p, order, name)
            case Some(id) => id in order && HasFull(TypesIn(p, id), name)
            case None => forall id :: id in order ==> !HasFull(TypesIn(p, id), name)
  {
    if order != [] {
      FirstFullIs(p, order[1..], name);
      assert forall id :: id in order ==> id == order[0] || id in order[1..];
      assert forall id :: id in order[1..] ==> id in order;
    }
  }

  lemma {:induction false} SimpleOwnersAre(p: Packages, order: seq<Id>, name: string, id: Id)
    ensures id in SimpleOwners(p, order, name) ==> id in order
    ensures id in order ==> |SimplyNamed(TypesIn(p, id), name)| <= |SimpleOwners(p, order, name)|
    ensures id in order && |SimplyNamed(TypesIn(p, id), name)| > 0 <==> id in SimpleOwners(p, order, name)
  {
    if order != [] {
      SimpleOwnersAre(p, order[1..], name, id);
      var n := |SimplyNamed(TypesIn(p, order[0]), name)|;
      if n > 0 {
        assert Times(order[0], n)[0] == order[0];
      }
    }
  }

  lemma {:induction false} OwnersConcat(p: Packages, a: seq<Id>, b: seq<Id>, name: string)
    ensures FirstFull(p, a + b, name) == if FirstFull(p, a, name).Some? then FirstFull(p, a, name) else FirstFull(p, b, name)
    ensures SimpleOwners(p, a + b, name) == SimpleOwners(p, a, name) + SimpleOwners(p, b, name)
  {
    if a == [] {
      assert a + b == b;
    } else {
      assert (a + b)[0] == a[0] && (a + b)[1..] == a[1..] + b;
      OwnersConcat(p, a[1..], b, name);
    }
  }

  function Listed(id: Option<Id>): seq<Id> {
    if id.None? then [] else [id.value]
  }

  lemma NoOwners(p: Packages, name: string)
    ensures SimpleOwners(p, [], name) == []
  {
  }

  lemma OneOwner(p: Packages, id: Id, name: string)
    ensures FirstFull(p, [id], name) == if HasFull(TypesIn(p, id), name) then Some(id) else None
    ensures SimpleOwners(p, [id], name) == Times(id, |SimplyNamed(TypesIn(p, id), name)|)
  {
    assert [id][1..] == [];
  }

  lemma OwnersUpTo(p: Packages, order: seq<Id>, i: nat, name: string)
    requires i < |order|
    ensures FirstFull(p, order[..i + 1], name)
         == if FirstFull(p, order[..i], name).Some? then FirstFull(p, order[..i], name)
            else if HasFull(TypesIn(p, order[i]), name) then Some(order[i]) else None
    ensures SimpleOwners(p, order[..i + 1], name) == SimpleOwners(p, order[..i], name) + Times(order[i], |SimplyNamed(TypesIn(p, order[i]), name)|)
  {
    assert order[..i + 1] == order[..i] + [order[i]];
    OwnersConcat(p, order[..i], [order[i]], name);
    OneOwner(p, order[i], name);
  }

  lemma SimplyMore(types: seq<TypeName>, j: nat, name: string)
    requires j < |types|
    ensures |SimplyNamed(types[..j + 1], name)| == |SimplyNamed(types[..j], name)| + if types[j].simple == name then 1 else 0
  {
    var f := (t: TypeName) => t.simple == name;
    assert types[..j + 1] == types[..j] + [types[j]] && [types[j]][1..] == [];
    FilterConcat(types[..j], [types[j]], f);
  }

  lemma SimplyUpTo(types: seq<TypeName>, j: nat, name: string)
    requires j <= |types|
    ensures |SimplyNamed(types[..j], name)| <= |SimplyNamed(types, name)|
  {
    assert types == types[..j] + types[j..];
    FilterConcat(types[..j], types[j..], (t: TypeName) => t.simple == name);
  }

  lemma OwnedIsDefined(p: Packages, order: seq<Id>, name: string)
    requires Owned(p, order, name)
    ensures Defined(p, order, name)
  {
    FirstFullIs(p, order, name);
    var id := OwnerOf(p, order, name).value;
    SimpleOwnersAre(p, order, name, id);
    assert id in order && id in p.resolved && Defines(p.resolved[id].types, name);
  }

  lemma {:induction false} BindKeeps(p: Packages, s: State, nodes: seq<HeapNode>, to: Id, loading: seq<Frame>)
    requires Valid(p, s, loading)
    ensures Valid(p, Bound(p, s, nodes, to), loading)
    ensures Bound(p, s, nodes, to) == s.(heap := Bound(p, s, nodes, to).heap, origin := Bound(p, s, nodes, to).origin)
    decreases |nodes|
  {
    hide Imports, DepsOf, Owned, Defined, Underway;
    if nodes != [] && Owned(p, s.order, nodes[0].concept) {
      OwnedIsDefined(p, s.order, nodes[0].concept);
      BindKeeps(p, s.(heap := s.heap[nodes[0].id := nodes[0]], origin := s.origin[nodes[0].id := to]), nodes[1..], to, loading);
    }
  }

  // ---- unloading ----------------------------------------------------------------------------------------------

  /** A node of another origin is bound to the manifest. */
  predicate ForeignNode(p: Packages, s: State, id: Id) {
    exists n :: n in s.heap && id in p.resolved && BindsTo(s.heap[n], p.resolved[id]) && !(n in s.origin && s.origin[n] == id)
  }

  predicate Unloadable(p: Packages, s: State, id: Id) {
    CountOf(s.counts, id) == 0 && !ForeignNode(p, s, id)
  }

  function IndexOf(order: seq<Id>, id: Id): nat
    requires id in order
    ensures IndexOf(order, id) < |order| && order[IndexOf(order, id)] == id
  {
    if order[0] == id then 0 else 1 + IndexOf(order[1..], id)
  }

  function WithoutId(order: seq<Id>, id: Id): seq<Id>
    requires id in order
  {
    order[..IndexOf(order, id)] + order[IndexOf(order, id) + 1..]
  }

  predicate OwnNode(s: State, n: string, id: Id) {
    n in s.heap && n in s.origin && s.origin[n] == id
  }

  function Evicted(s: State, id: Id): State {
    s.(heap := map n | n in s.heap && !OwnNode(s, n, id) :: s.heap[n], origin := map n | n in s.origin && !OwnNode(s, n, id) :: s.origin[n])
  }

  /** Eviction with the nodes in `left` still to come. */
  function EvictedBut(s: State, id: Id, left: set<string>): State {
    s.(heap := map n | n in s.heap && (n in left || !OwnNode(s, n, id)) :: s.heap[n],
       origin := map n | n in s.origin && (n in left || !OwnNode(s, n, id)) :: s.origin[n])
  }

  lemma EvictOne(s: State, id: Id, left: set<string>, n: string)
    requires n in left && n in s.heap
    ensures var before := EvictedBut(s, id, left);
            n in before.heap && (n in before.origin && before.origin[n] == id <==> OwnNode(s, n, id))
            && EvictedBut(s, id, left - {n}) == if OwnNode(s, n, id) then before.(heap := before.heap - {n}, origin := before.origin - {n}) else before
  {
    var before, after := EvictedBut(s, id, left), EvictedBut(s, id, left - {n});
    if OwnNode(s, n, id) {
      assert after.heap == before.heap - {n} && after.origin == before.origin - {n};
    } else {
      assert after.heap == before.heap && after.origin == before.origin;
    }
  }

  lemma EvictEnds(s: State, id: Id)
    ensures EvictedBut(s, id, s.heap.Keys) == s && EvictedBut(s, id, {}) == Evicted(s, id)
  {
    assert EvictedBut(s, id, s.heap.Keys).heap == s.heap && EvictedBut(s, id, s.heap.Keys).origin == s.origin;
  }

  /** One import fewer for each entry; the clamp at zero is the source's. */
  function Released(counts: map<Id, nat>, deps: seq<Id>): map<Id, nat>
    decreases |deps|
  {
    if deps == [] then counts
    else Released(counts[deps[0] := if CountOf(counts, deps[0]) > 0 then CountOf(counts, deps[0]) - 1 else 0], deps[1..])
  }

  function Unloaded(p: Packages, s: State, id: Id): State
    requires id in s.order && id in s.depsOf
  {
    Evicted(s, id).(byIdentity := s.byIdentity - {id}, order := WithoutId(s.order, id), counts := Released(s.counts, s.depsOf[id]), depsOf := s.depsOf - {id})
  }

  /** With as many imports counted as there are entries the clamp never matters: each entry takes one away. */
  lemma {:induction false} ClampNeverMatters(counts: map<Id, nat>, deps: seq<Id>, id: Id)
    requires forall d :: d in deps ==> Uses(deps, d) <= CountOf(counts, d)
    ensures Uses(deps, id) <= CountOf(counts, id) ==> CountOf(Released(counts, deps), id) == CountOf(counts, id) - Uses(deps, id)
    decreases |deps|
  {
    if deps != [] {
      var rest := deps[1..];
      assert deps == [deps[0]] + rest;
      assert multiset(deps) == multiset{deps[0]} + multiset(rest);
      var after := counts[deps[0] := if CountOf(counts, deps[0]) > 0 then CountOf(counts, deps[0]) - 1 else 0];
      assert deps[0] in deps;
      forall d | d in rest ensures Uses(rest, d) <= CountOf(after, d) {
        assert d in deps;
      }
      ClampNeverMatters(after, rest, id);
    }
  }

  lemma WithoutMembers(order: seq<Id>, id: Id, x: Id)
    requires id in order && Distinct(order)
    ensures x in WithoutId(order, id) <==> x in order && x != id
    ensures Distinct(WithoutId(order, id))
  {
    var i := IndexOf(order, id);
    if x in order && x != id {
      var j :| 0 <= j < |order| && order[j] == x;
      assert j < i ==> order[..i][j] == x;
      assert j > i ==> order[i + 1..][j - i - 1] == x;
    }
  }

  lemma UnloadRegistry(p: Packages, s: State, id: Id)
    requires Valid(p, s, []) && id in s.order && Unloadable(p, s, id)
    ensures RegistryOk(p, Unloaded(p, s, id), []) && Closed(p, Unloaded(p, s, id), [])
  {
    hide HeapTyped, DepsOf, Imports, ForeignNode, Evicted, Released, WithoutId;
    assert Imports(p, s.order, id) == 0;
    NoImportsNoImporter(p, s.order, id);
    var t := Unloaded(p, s, id);
    forall x ensures x in t.order <==> x in s.order && x != id {
      WithoutMembers(s.order, id, x);
    }
    WithoutMembers(s.order, id, id);
  }

  lemma UnloadCounts(p: Packages, s: State, id: Id)
    requires Valid(p, s, []) && id in s.order
    ensures CountsOk(p, Unloaded(p, s, id), [])
    ensures forall x :: CountOf(Unloaded(p, s, id).counts, x) == CountOf(s.counts, x) - Uses(DepsOf(p, id), x)
  {
    hide HeapTyped, DepsOf, Evicted;
    var i := IndexOf(s.order, id);
    forall x
      ensures Uses(DepsOf(p, id), x) <= CountOf(s.counts, x)
      ensures CountOf(s.counts, x) == Imports(p, WithoutId(s.order, id), x) + Uses(DepsOf(p, id), x)
    {
      ImportsOfPart(p, s.order, i, x);
    }
    forall x ensures CountOf(Unloaded(p, s, id).counts, x) == CountOf(s.counts, x) - Uses(DepsOf(p, id), x) {
      ClampNeverMatters(s.counts, DepsOf(p, id), x);
    }
  }

  lemma UnloadHeap(p: Packages, s: State, id: Id)
    requires Valid(p, s, []) && id in s.order && Unloadable(p, s, id)
    ensures HeapTyped(p, Unloaded(p, s, id))
    ensures forall n :: n in s.heap ==> (n !in Unloaded(p, s, id).heap <==> n in s.origin && s.origin[n] == id)
    ensures forall n :: n in Unloaded(p, s, id).heap ==> !BindsTo(Unloaded(p, s, id).heap[n], p.resolved[id])
  {
    hide Imports, Released, Closed, CountsOk;
    var t := Unloaded(p, s, id);
    forall n | n in t.heap ensures Defined(p, t.order, t.heap[n].concept) && !BindsTo(t.heap[n], p.resolved[id]) {
      var m :| m in s.order && m in p.resolved && Defines(p.resolved[m].types, s.heap[n].concept);
      WithoutMembers(s.order, id, m);
    }
  }

  /**
   Unloading keeps the registry valid: the manifest and the nodes of its own seed are gone, each import of its
   dependencies is uncounted once, and nothing left in the heap is bound to it.
   */
  lemma UnloadKeeps(p: Packages, s: State, id: Id)
    requires Valid(p, s, []) && id in s.order && Unloadable(p, s, id)
    ensures Valid(p, Unloaded(p, s, id), [])
    ensures forall x :: x in Unloaded(p, s, id).order <==> x in s.order && x != id
    ensures DepsFirst(p, s.order) ==> DepsFirst(p, Unloaded(p, s, id).order)
  {
    UnloadRegistry(p, s, id);
    UnloadCounts(p, s, id);
    UnloadHeap(p, s, id);
    hide RegistryOk, Closed, CountsOk, HeapTyped, Evicted, Released;
    forall x ensures x in Unloaded(p, s, id).order <==> x in s.order && x != id {
      assert Distinct(s.order) by {
        DistinctOrder(p, s);
      }
      WithoutMembers(s.order, id, x);
    }
    if DepsFirst(p, s.order) {
      DistinctOrder(p, s);
      NotImported(p, s, id);
      DepsFirstWithout(p, s.order, id);
    }
  }

  lemma DistinctOrder(p: Packages, s: State)
    requires Valid(p, s, [])
    ensures Distinct(s.order)
  {
  }

  lemma NotImported(p: Packages, s: State, id: Id)
    requires Valid(p, s, []) && Unloadable(p, s, id)
    ensures forall x :: x in s.order ==> id !in DepsOf(p, x)
  {
    hide ForeignNode, DepsOf, HeapTyped;
    assert Imports(p, s.order, id) == 0;
    NoImportsNoImporter(p, s.order, id);
  }

  lemma DepsFirstWithout(p: Packages, order: seq<Id>, id: Id)
    requires id in order && Distinct(order) && DepsFirst(p, order) && forall x :: x in order ==> id !in DepsOf(p, x)
    ensures DepsFirst(p, WithoutId(order, id))
  {
    hide DepsOf;
    var i := IndexOf(order, id);
    var part := WithoutId(order, id);
    forall k, d | 0 <= k < |part| && d in DepsOf(p, part[k]) ensures d in part[..k] {
      var at := if k < i then k else k + 1;
      assert part[k] == order[at] && order[at] in order;
      var j :| 0 <= j < |order[..at]| && order[..at][j] == d;
      assert order[j] == d && j != i;
      var to := if j < i then j else j - 1;
      assert part[..k][to] == d;
    }
  }

  lemma DepsFirstMore(p: Packages, order: seq<Id>, id: Id)
    requires DepsFirst(p, order) && forall d :: d in DepsOf(p, id) ==> d in order
    ensures DepsFirst(p, order + [id])
  {
    hide DepsOf;
    var more := order + [id];
    forall i, d | 0 <= i < |more| && d in DepsOf(p, more[i]) ensures d in more[..i] {
      assert i < |order| ==> more[i] == order[i] && more[..i] == order[..i];
      assert i == |order| ==> more[..i] == order;
    }
  }

  /** Where the load of a manifest's dependencies has got to, having started with `start` listed. */
  ghost predicate Underneath(p: Packages, s: State, loading: seq<Frame>, id: Id, counted: seq<Id>, rank: Id -> nat, start: seq<Id>) {
    && Valid(p, s, loading + [Frame(id, counted)]) && NewReached(p, id, start, s.order)
    && (Descends(p, rank) && Above(rank, loading, id) ==> (forall d :: d in counted ==> d in s.order) && (DepsFirst(p, start) ==> DepsFirst(p, s.order)))
  }

  lemma DependencyLoaded(p: Packages, was: State, s: State, loading: seq<Frame>, id: Id, counted: seq<Id>, dep: Id, rank: Id -> nat, start: seq<Id>)
    requires Underneath(p, was, loading, id, counted, rank, start) && dep in DepsOf(p, id)
    requires Valid(p, s, loading + [Frame(id, counted)]) && dep in s.byIdentity && NewReached(p, dep, was.order, s.order)
    requires Descends(p, rank) && Above(rank, loading + [Frame(id, counted)], dep) ==> dep in s.order && (DepsFirst(p, was.order) ==> DepsFirst(p, s.order))
    ensures Underneath(p, Counted(s, dep), loading, id, counted + [dep], rank, start)
  {
    hide Valid, DepsOf, DepsFirst, NewReached, Descends, Above;
    CountKeeps(p, s, loading, id, counted, dep);
    ReachedByDependency(p, id, dep, start, was.order, s.order);
    AboveDependency(p, rank, loading, id, counted, dep);
    StillListed(p, dep, was.order, s.order);
  }

  lemma UnderneathStarts(p: Packages, s: State, loading: seq<Frame>, id: Id, rank: Id -> nat)
    requires Valid(p, s, loading + [Frame(id, [])])
    ensures Underneath(p, s, loading, id, [], rank, s.order) && s.byIdentity <= p.resolved.Keys
  {
    hide Closed, CountsOk, HeapTyped;
    ReachesItself(p, id, s.order, s.order);
  }

  lemma DepsArePinned(p: Packages, id: Id)
    requires id in p.resolved
    ensures DepsOf(p, id) == Pinned(p, p.resolved[id].dependencies, |p.resolved[id].dependencies|)
    ensures Pinned(p, p.resolved[id].dependencies, 0) == []
  {
  }

  lemma UnderneathIsValid(p: Packages, s: State, loading: seq<Frame>, id: Id, counted: seq<Id>, rank: Id -> nat, start: seq<Id>)
    requires Underneath(p, s, loading, id, counted, rank, start)
    ensures Valid(p, s, loading + [Frame(id, counted)]) && NewReached(p, id, start, s.order)
    ensures Descends(p, rank) && Above(rank, loading, id) ==> (forall d :: d in counted ==> d in s.order) && (DepsFirst(p, start) ==> DepsFirst(p, s.order))
  {
    hide Valid, NewReached, DepsFirst, Descends, Above;
  }

  // ---- the domain ---------------------------------------------------------------------------------------------

  /** The last of the manifests listed that are of a model, if there is one. */
  ghost predicate IsLatest(order: seq<Id>, model: string, id: Option<Id>) {
    match id
    case None => forall x :: x in order ==> x.model != model
    case Some(latest) => exists i :: 0 <= i < |order| && order[i] == latest && latest.model == model && forall j :: i < j < |order| ==> order[j].model != model
  }

  class Domain {
    const packages: Packages
    var byIdentity: set<Id>
    var order: seq<Id>
    var importRefcount: map<Id, nat>
    var depsOf: map<Id, seq<Id>>
    var heap: map<string, HeapNode>
    var seedOrigin: map<string, Id>

    function Now(): State
      reads this
    {
      State(byIdentity, order, importRefcount, depsOf, heap, seedOrigin)
    }

    constructor (source: Packages)
      ensures packages == source && Now() == State({}, [], map[], map[], map[], map[]) && Valid(packages, Now(), [])
    {
      packages := source;
      byIdentity, order, importRefcount, depsOf, heap, seedOrigin := {}, [], map[], map[], map[], map[];
    }

    /**
     Loads a package and, first, its dependencies. `loading` are the loads under way, innermost last. None when something
     throws; a manifest that was resolved then stays registered, and loading it again returns it as it is.
     */
    method Load(ref: Ref, ghost loading: seq<Frame>, ghost rank: Id -> nat) returns (r: Option<Id>)
      requires Valid(packages, Now(), loading)
      modifies this
      ensures old(byIdentity) <= byIdentity <= packages.resolved.Keys
      ensures r.Some? ==> Valid(packages, Now(), loading) && Pin(packages, ref) == r && r.value in byIdentity
      ensures r.Some? ==> NewReached(packages, r.value, old(order), order)
      ensures Pin(packages, ref).Some? && Pin(packages, ref).value in old(byIdentity) ==> r == Pin(packages, ref) && Now() == old(Now())
      ensures r.None? && Pin(packages, ref).Some? && Pin(packages, ref).value in packages.resolved ==> Pin(packages, ref).value in byIdentity
      ensures r.Some? && Descends(packages, rank) && Above(rank, loading, r.value) ==>
                r.value in order && (DepsFirst(packages, old(order)) ==> DepsFirst(packages, order))
      decreases |packages.resolved.Keys - byIdentity|, 1
    {
      hide RegistryOk, Closed, CountsOk, HeapTyped, DepsFirst, DepsOf, Descends, Above, NewReached;
      var pinned := Pin(packages, ref);
      LoadedWhenAbove(packages, Now(), loading, rank, if pinned.Some? then pinned.value else Id("", ""));
      if pinned.None? {
        return None;
      }
      var id := pinned.value;
      ReachesItself(packages, id, order, order);
      if id in byIdentity {
        return Some(id);
      }
      if id !in packages.resolved {
        return None;
      }
      RegisterKeeps(packages, Now(), loading, id);
      FewerLeft(packages.resolved.Keys, byIdentity, byIdentity + {id});
      byIdentity := byIdentity + {id};
      var depIds := LoadDependencies(id, loading, rank);
      if depIds.None? {
        return None;
      }
      FinalizeKeeps(packages, Now(), loading, id);
      ReachesItself(packages, id, old(order), order);
      if Descends(packages, rank) && Above(rank, loading, id) && DepsFirst(packages, order) {
        DepsFirstMore(packages, order, id);
      }
      depsOf := depsOf[id := depIds.value];
      order := order + [id];
      var ok := BindSeed(packages.resolved[id].seed, id, loading);
      r := if ok then Some(id) else None;
    }

    method LoadDependencies(id: Id, ghost loading: seq<Frame>, ghost rank: Id -> nat) returns (r: Option<seq<Id>>)
      requires id in packages.resolved && Valid(packages, Now(), loading + [Frame(id, [])])
      modifies this
      ensures old(byIdentity) <= byIdentity <= packages.resolved.Keys
      ensures r.Some? ==> r.value == DepsOf(packages, id) && Valid(packages, Now(), loading + [Frame(id, DepsOf(packages, id))])
      ensures r.Some? ==> NewReached(packages, id, old(order), order)
      ensures r.Some? && Descends(packages, rank) && Above(rank, loading, id) ==>
                (forall d :: d in DepsOf(packages, id) ==> d in order) && (DepsFirst(packages, old(order)) ==> DepsFirst(packages, order))
      decreases |packages.resolved.Keys - byIdentity|, 2
    {
      hide Valid, DepsFirst, NewReached, Pin, Pinned, DepsOf, Descends, Above, Underneath;
      UnderneathStarts(packages, Now(), loading, id, rank);
      DepsArePinned(packages, id);
      var refs := packages.resolved[id].dependencies;
      var depIds: seq<Id> := [];
      for i := 0 to |refs|
        invariant old(byIdentity) <= byIdentity <= packages.resolved.Keys && depIds == Pinned(packages, refs, i)
        invariant Underneath(packages, Now(), loading, id, depIds, rank, old(order))
      {
        ghost var was := Now();
        UnderneathIsValid(packages, was, loading, id, depIds, rank, old(order));
        FewerLeft(packages.resolved.Keys, old(byIdentity), byIdentity);
        var dep := Load(refs[i], loading + [Frame(id, depIds)], rank);
        if dep.None? {
          return None;
        }
        PinnedMember(packages, refs, i, |refs|, dep.value);
        PinnedAll(packages, refs, i, dep.value);
        DependencyLoaded(packages, was, Now(), loading, id, depIds, dep.value, rank, old(order));
        importRefcount := importRefcount[dep.value := CountOf(importRefcount, dep.value) + 1];
        depIds := depIds + [dep.value];
      }
      UnderneathIsValid(packages, Now(), loading, id, depIds, rank, old(order));
      r := Some(depIds);
    }

    /** Adds seed nodes to the heap; false when the type of one is owned by no loaded manifest, and those before it stay. */
    method BindSeed(nodes: seq<HeapNode>, to: Id, ghost loading: seq<Frame>) returns (ok: bool)
      requires Valid(packages, Now(), loading)
      modifies `heap, `seedOrigin
      ensures Now() == Bound(packages, old(Now()), nodes, to) && Valid(packages, Now(), loading)
      ensures ok <==> AllOwned(packages, order, nodes)
    {
      hide OwnerOf, Valid;
      BindKeeps(packages, Now(), nodes, to, loading);
      for i := 0 to |nodes|
        invariant Bound(packages, Now(), nodes[i..], to) == Bound(packages, old(Now()), nodes, to)
        invariant order == old(order) && AllOwned(packages, order, nodes[..i])
      {
        assert nodes[i..][0] == nodes[i] && nodes[i..][1..] == nodes[i + 1..];
        assert nodes[..i + 1] == nodes[..i] + [nodes[i]];
        var owner := FindOwner(nodes[i].concept);
        if owner.None? {
          return false;
        }
        heap, seedOrigin := heap[nodes[i].id := nodes[i]], seedOrigin[nodes[i].id := to];
      }
      assert nodes[..|nodes|] == nodes;
      ok := true;
    }

    /** Looks a type name up in every loaded manifest: full names first, then the simple name, unless two types share it. */
    method FindOwner(name: string) returns (r: Option<Id>)
      ensures r == OwnerOf(packages, order, name)
    {
      hide SimpleOwners;
      for i := 0 to |order|
        invariant FirstFull(packages, order[..i], name).None?
      {
        OwnersUpTo(packages, order, i, name);
        if HasFull(TypesIn(packages, order[i]), name) {
          OwnersConcat(packages, order[..i + 1], order[i + 1..], name);
          assert order[..i + 1] + order[i + 1..] == order;
          return Some(order[i]);
        }
      }
      assert order[..|order|] == order;
      r := FindSimple(name);
    }

    method FindSimple(name: string) returns (r: Option<Id>)
      ensures var owners := SimpleOwners(packages, order, name); r == if |owners| == 1 then Some(owners[0]) else None
    {
      hide SimpleOwners, SimplyNamed;
      r := None;
      assert SimpleOwners(packages, order[..0], name) == [] by {
        NoOwners(packages, name);
      }
      for i := 0 to |order|
        invariant SimpleOwners(packages, order[..i], name) == Listed(r)
      {
        OwnersUpTo(packages, order, i, name);
        var found, twice := AnotherIn(TypesIn(packages, order[i]), order[i], r, name);
        if twice {
          OwnersConcat(packages, order[..i + 1], order[i + 1..], name);
          assert order[..i + 1] + order[i + 1..] == order;
          return None;
        }
        r := found;
      }
      assert order[..|order|] == order;
    }

    /** Goes on with the types of one manifest; twice, when a second type has the name. */
    method AnotherIn(types: seq<TypeName>, id: Id, before: Option<Id>, name: string) returns (r: Option<Id>, twice: bool)
      ensures var all := Listed(before) + Times(id, |SimplyNamed(types, name)|);
              if |all| > 1 then twice else !twice && all == Listed(r)
    {
      r, twice := before, false;
      for j := 0 to |types|
        invariant Listed(before) + Times(id, |SimplyNamed(types[..j], name)|) == Listed(r)
      {
        SimplyMore(types, j, name);
        if types[j].simple == name {
          if r.Some? {
            SimplyUpTo(types, j + 1, name);
            return r, true;
          }
          r := Some(id);
        }
      }
      assert types[..|types|] == types;
    }

    /** The manifest of a reference without a version is the latest loaded of its model. */
    method GetManifest(ref: Ref) returns (r: Option<Id>)
      ensures ref.version.Some? ==> r == if Id(ref.model, ref.version.value) in byIdentity then Some(Id(ref.model, ref.version.value)) else None
      ensures ref.version.None? ==> IsLatest(order, ref.model, r)
    {
      if ref.version.Some? {
        var id := Id(ref.model, ref.version.value);
        return if id in byIdentity then Some(id) else None;
      }
      r := None;
      for i := 0 to |order|
        invariant r.None? <==> forall j :: 0 <= j < i ==> order[j].model != ref.model
        invariant r.Some? ==> exists k :: 0 <= k < i && order[k] == r.value && order[k].model == ref.model && forall j :: k < j < i ==> order[j].model != ref.model
      {
        if order[i].model == ref.model {
          r := Some(order[i]);
        }
      }
    }

    /** Unloads a manifest nothing imports and no foreign node is bound to; false, and no change, otherwise. */
    method TryUnload(ref: Ref) returns (unloaded: bool, ghost id: Option<Id>)
      requires Valid(packages, Now(), [])
      modifies this
      ensures Valid(packages, Now(), [])
      ensures unloaded <==> id.Some? && Unloadable(packages, old(Now()), id.value)
      ensures ref.version.Some? ==> id == if Id(ref.model, ref.version.value) in old(byIdentity) then Some(Id(ref.model, ref.version.value)) else None
      ensures ref.version.None? ==> IsLatest(old(order), ref.model, id)
      ensures id.Some? ==> id.value in old(order) && id.value in old(depsOf)
      ensures if unloaded then Now() == Unloaded(packages, old(Now()), id.value) else Now() == old(Now())
    {
      hide ForeignNode, RegistryOk, Closed, CountsOk, HeapTyped;
      var found := GetManifest(ref);
      id := found;
      if found.None? {
        return false, id;
      }
      LoadedOnly(packages, Now(), found.value);
      if CountOf(importRefcount, found.value) > 0 {
        return false, id;
      }
      var foreign := AnyForeign(found.value);
      if foreign {
        return false, id;
      }
      UnloadKeeps(packages, Now(), found.value);
      Evict(found.value);
      Release(depsOf[found.value]);
      depsOf := depsOf - {found.value};
      byIdentity := byIdentity - {found.value};
      order := WithoutId(order, found.value);
      return true, id;
    }

    method AnyForeign(id: Id) returns (foreign: bool)
      ensures foreign == ForeignNode(packages, Now(), id)
    {
      foreign := false;
      var left := heap.Keys;
      while left != {}
        invariant left <= heap.Keys
        invariant foreign <==> exists n :: n in heap && n !in left && id in packages.resolved && BindsTo(heap[n], packages.resolved[id]) && !(n in seedOrigin && seedOrigin[n] == id)
        decreases |left|
      {
        var n :| n in left;
        left := left - {n};
        if id in packages.resolved && BindsTo(heap[n], packages.resolved[id]) && !(n in seedOrigin && seedOrigin[n] == id) {
          foreign := true;
        }
      }
    }

    method Evict(id: Id)
      modifies `heap, `seedOrigin
      ensures Now() == Evicted(old(Now()), id)
    {
      hide EvictedBut, Evicted, OwnNode;
      ghost var was := Now();
      EvictEnds(was, id);
      var left := heap.Keys;
      while left != {}
        invariant left <= was.heap.Keys && Now() == EvictedBut(was, id, left)
        decreases |left|
      {
        var n :| n in left;
        EvictOne(was, id, left, n);
        left := left - {n};
        if n in seedOrigin && seedOrigin[n] == id {
          heap, seedOrigin := heap - {n}, seedOrigin - {n};
        }
      }
    }

    method Release(deps: seq<Id>)
      modifies `importRefcount
      ensures importRefcount == Released(old(importRefcount), deps)
    {
      for i := 0 to |deps|
        invariant Released(importRefcount, deps[i..]) == Released(old(importRefcount), deps)
      {
        assert deps[i..][0] == deps[i] && deps[i..][1..] == deps[i + 1..];
        var count := CountOf(importRefcount, deps[i]);
        importRefcount := importRefcount[deps[i] := if count > 0 then count - 1 else 0];
      }
    }
  }

  lemma LoadedOnly(p: Packages, s: State, id: Id)
    requires Valid(p, s, [])
    ensures id in s.byIdentity <==> id in s.order
    ensures id in s.order ==> id in s.depsOf
  {
  }

  lemma AboveDependency(p: Packages, rank: Id -> nat, loading: seq<Frame>, id: Id, counted: seq<Id>, d: Id)
    requires d in DepsOf(p, id)
    ensures Descends(p, rank) && Above(rank, loading, id) ==> Above(rank, loading + [Frame(id, counted)], d)
  {
    hide DepsOf;
    if Descends(p, rank) && Above(rank, loading, id) {
      forall f | f in loading + [Frame(id, counted)] ensures rank(d) < rank(f.id) {
        assert f in loading || f == Frame(id, counted);
      }
    }
  }

  lemma StillListed(p: Packages, d: Id, before: seq<Id>, after: seq<Id>)
    requires NewReached(p, d, before, after)
    ensures forall x :: x in before ==> x in after
  {
    assert forall i :: 0 <= i < |before| ==> after[i] == before[i];
  }

  // ---- what a valid registry means ----------------------------------------------------------------------------

  /** Between loads a count is the number of loaded importers, so a manifest is unimported exactly when no loaded one needs it. */
  lemma UnimportedIff(p: Packages, s: State, id: Id)
    requires Valid(p, s, [])
    ensures CountOf(s.counts, id) == Imports(p, s.order, id)
    ensures CountOf(s.counts, id) == 0 <==> forall x :: x in s.order ==> id !in DepsOf(p, x)
    ensures forall x, d :: x in s.order && d in DepsOf(p, x) ==> d in s.order
  {
    hide DepsOf, HeapTyped;
    NoImportsNoImporter(p, s.order, id);
  }

  /** Everything reached from a loaded manifest is loaded. */
  lemma {:induction false} ReachedIsLoaded(p: Packages, s: State, from: Id, to: Id, n: nat)
    requires Valid(p, s, []) && from in s.order && Reaches(p, from, to, n)
    ensures to in s.order
    decreases n
  {
    hide DepsOf, HeapTyped, CountsOk;
    if n > 0 {
      var d :| d in DepsOf(p, from) && Reaches(p, d, to, n - 1);
      UnimportedIff(p, s, d);
      ReachedIsLoaded(p, s, d, to, n - 1);
    }
  }

  /** The last step of a chain of dependencies. */
  lemma {:induction false} LastStep(p: Packages, from: Id, to: Id, n: nat) returns (d: Id)
    requires n > 0 && Reaches(p, from, to, n)
    ensures Reaches(p, from, d, n - 1) && to in DepsOf(p, d)
    decreases n
  {
    hide DepsOf;
    var first :| first in DepsOf(p, from) && Reaches(p, first, to, n - 1);
    if n == 1 {
      d := from;
    } else {
      d := LastStep(p, first, to, n - 1);
    }
  }

  /** A loaded package that needs itself, through others or not, is never unloadable. */
  lemma OnCycleIsKept(p: Packages, s: State, id: Id, n: nat)
    requires Valid(p, s, []) && id in s.order && n > 0 && Reaches(p, id, id, n)
    ensures !Unloadable(p, s, id)
  {
    hide DepsOf, ForeignNode, Valid;
    var d := LastStep(p, id, id, n);
    ReachedIsLoaded(p, s, id, d, n - 1);
    UnimportedIff(p, s, id);
  }

  /** A successful load, which only adds manifests, or an unload. */
  ghost predicate Step(p: Packages, s: State, t: State) {
    && Valid(p, t, [])
    && ((forall x :: x in s.order ==> x in t.order) || exists id :: id in s.order && id in s.depsOf && Unloadable(p, s, id) && t == Unloaded(p, s, id))
  }

  /** Once loaded, a package on a cycle of any length stays loaded over every run of loads and unloads. */
  lemma {:induction false} CyclesStayLoaded(p: Packages, states: seq<State>, id: Id, n: nat, k: nat)
    requires k < |states| && Valid(p, states[0], []) && forall i :: 0 <= i < |states| - 1 ==> Step(p, states[i], states[i + 1])
    requires n > 0 && Reaches(p, id, id, n) && id in states[0].order
    ensures Valid(p, states[k], []) && id in states[k].order && !Unloadable(p, states[k], id)
    decreases k
  {
    hide DepsOf, ForeignNode, Valid, Reaches, Unloadable, Unloaded;
    if k > 0 {
      CyclesStayLoaded(p, states, id, n, k - 1);
      var s, t := states[k - 1], states[k];
      assert Step(p, s, t);
      if !(forall x :: x in s.order ==> x in t.order) {
        var gone :| gone in s.order && gone in s.depsOf && Unloadable(p, s, gone) && t == Unloaded(p, s, gone);
        UnloadKeeps(p, s, gone);
      }
    }
    OnCycleIsKept(p, states[k], id, n);
  }

  // ---- what a later load or unload does to the owner of a type -------------------------------------------------

  /**
   Loading a further manifest leaves a type name with the owner it has if and only if some loaded manifest has it as a full
   name, or the new one has it neither as a full nor as a simple name.
   */
  lemma OwnerStaysIff(p: Packages, order: seq<Id>, id: Id, name: string)
    requires Owned(p, order, name) && id !in order
    ensures OwnerOf(p, order + [id], name) == OwnerOf(p, order, name)
       <==> FirstFull(p, order, name).Some? || (!HasFull(TypesIn(p, id), name) && SimplyNamed(TypesIn(p, id), name) == [])
  {
    hide HasFull, SimplyNamed, FirstFull, SimpleOwners;
    OwnersConcat(p, order, [id], name);
    OneOwner(p, id, name);
    FirstFullIs(p, order, name);
    SimpleOwnersAre(p, order, name, OwnerOf(p, order, name).value);
  }

  /** It loses its owner, and its nodes can no longer be reflected, exactly when the new one shares a simple name alone. */
  lemma OwnerIsLostIff(p: Packages, order: seq<Id>, id: Id, name: string)
    requires Owned(p, order, name)
    ensures !Owned(p, order + [id], name)
       <==> FirstFull(p, order, name).None? && !HasFull(TypesIn(p, id), name) && SimplyNamed(TypesIn(p, id), name) != []
  {
    hide HasFull, SimplyNamed, FirstFull, SimpleOwners;
    OwnersConcat(p, order, [id], name);
    OneOwner(p, id, name);
  }

  /** Unloading leaves every node of the heap with the manifest that owns its type. */
  lemma OwnersSurviveUnload(p: Packages, s: State, id: Id, n: string)
    requires Valid(p, s, []) && id in s.order && Unloadable(p, s, id) && n in Unloaded(p, s, id).heap && Owned(p, s.order, s.heap[n].concept)
    ensures OwnerOf(p, Unloaded(p, s, id).order, Unloaded(p, s, id).heap[n].concept) == OwnerOf(p, s.order, s.heap[n].concept)
  {
    UnloadHeap(p, s, id);
    hide Valid, Unloadable, OwnerOf, Defines;
    assert id in p.resolved by {
      Resolved(p, s, id);
    }
    assert Unloaded(p, s, id).heap[n] == s.heap[n];
    OwnerWithout(p, s.order, id, s.heap[n].concept);
  }

  lemma Resolved(p: Packages, s: State, id: Id)
    requires Valid(p, s, []) && id in s.order
    ensures id in p.resolved
  {
    hide Closed, CountsOk, HeapTyped;
  }

  lemma OwnerWithout(p: Packages, order: seq<Id>, id: Id, name: string)
    requires id in order && Owned(p, order, name) && !Defines(TypesIn(p, id), name)
    ensures OwnerOf(p, WithoutId(order, id), name) == OwnerOf(p, order, name)
  {
    hide HasFull, SimplyNamed, FirstFull, SimpleOwners;
    var i := IndexOf(order, id);
    assert order == order[..i] + ([id] + order[i + 1..]);
    OwnersConcat(p, order[..i], [id] + order[i + 1..], name);
    OwnersConcat(p, [id], order[i + 1..], name);
    OwnersConcat(p, order[..i], order[i + 1..], name);
    OneOwner(p, id, name);
  }

  lemma OneSimple(t: TypeName, name: string)
    requires t.simple == name
    ensures SimplyNamed([t], name) == [t]
  {
    FilterAll([t], (t: TypeName) => t.simple == name);
  }

  /** Two packages with a type of the same simple name: loading the second takes the owner of the first one's nodes. */
  lemma LaterLoadTakesTheOwner(p: Packages, first: Id, second: Id)
    requires first in p.resolved && p.resolved[first].types == [TypeName("a.T", "T")]
    requires second in p.resolved && p.resolved[second].types == [TypeName("b.T", "T")]
    ensures OwnerOf(p, [first], "T") == Some(first) && !Owned(p, [first] + [second], "T")
  {
    OneOwner(p, first, "T");
    var t := TypeName("a.T", "T");
    OneSimple(t, "T");
    OneSimple(TypeName("b.T", "T"), "T");
    assert !HasFull(TypesIn(p, first), "T") && !HasFull(TypesIn(p, second), "T") by {
      assert |"a.T"| != |"T"| && |"b.T"| != |"T"|;
    }
    OwnerIsLostIff(p, [first], second, "T");
  }
}
