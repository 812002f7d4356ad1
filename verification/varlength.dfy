/**
 Variable-length expansion: the backtracking enumeration of the walks from a node that never repeat a step.

 Main results: what is emitted is exactly the walks with pairwise distinct step keys, a length within the bounds and a
 last node passing the label (`EmitsExactlyTheTrails`); the enumeration ends on every graph, because every step uses up
 one of finitely many keys (the measure of `Walks` does not mention the maximum); and the in-place enumeration restores
 its path and its used keys (`Walker.Walk`).
 */
module VarLength {
  import opened Wrappers
  import opened Text
  import opened Values
  import opened Query
  import opened Graphs

  datatype StepKey = StepKey(one: string, relType: string, other: string)

  datatype Trail = Trail(nodes: seq<Node>, rels: seq<Rel>)

  /** What one variable-length relationship asks for. */
  datatype Hop = Hop(relType: Option<string>, direction: Direction, min: nat, max: nat, toLabel: Option<string>)

  /** The node a walk has reached. */
  function Current(t: Trail): Node
    requires t.nodes != []
  {
    t.nodes[|t.nodes| - 1]
  }

  /** How a traversed edge is reported: in its real direction, an undirected one in traversal order. */
  function Oriented(direction: Direction, relType: Option<string>, currentId: string, nextId: string): Rel {
    var t := if relType.Some? then relType.value else "";
    if direction.Incoming? then Rel(nextId, t, currentId) else Rel(currentId, t, nextId)
  }

  /** Both directions of an undirected step are the same step. */
  function KeyOf(hop: Hop, currentId: string, nextId: string): StepKey {
    var t := if hop.relType.Some? then hop.relType.value else "";
    if hop.direction.Undirected? && CompareStrings(currentId, nextId) > 0 then StepKey(nextId, t, currentId)
    else StepKey(currentId, t, nextId)
  }

  function Steps(schema: Schema, g: Graph, hop: Hop, id: string): seq<Node> {
    Expand(schema, g, id, hop.relType, hop.direction)
  }

  predicate LabelOk(schema: Schema, hop: Hop, mirror: Option<Node>) {
    hop.toLabel.None? || (mirror.Some? && schema.IsInstanceOf(mirror.value, hop.toLabel.value))
  }

  // ---- the trails ---------------------------------------------------------------------------------------------

  /** The last node as the graph reflects it: the start is looked up, every later node came from a hop. */
  function LastMirror(g: Graph, t: Trail): Option<Node>
    requires t.nodes != []
  {
    if |t.nodes| == 1 then Find(g.nodes, t.nodes[0].id) else Some(Current(t))
  }

  function KeyAt(hop: Hop, t: Trail, i: nat): StepKey
    requires i + 1 < |t.nodes|
  {
    KeyOf(hop, t.nodes[i].id, t.nodes[i + 1].id)
  }

  predicate Step(schema: Schema, g: Graph, hop: Hop, t: Trail, i: nat)
    requires i < |t.rels| && |t.nodes| == |t.rels| + 1
  {
    && t.nodes[i + 1] in Steps(schema, g, hop, t.nodes[i].id)
    && t.rels[i] == Oriented(hop.direction, hop.relType, t.nodes[i].id, t.nodes[i + 1].id)
  }

  /** A walk that repeats no step. */
  ghost predicate IsTrail(schema: Schema, g: Graph, hop: Hop, from: Node, t: Trail) {
    && |t.nodes| == |t.rels| + 1
    && t.nodes[0] == from
    && (forall i: nat :: i < |t.rels| ==> Step(schema, g, hop, t, i))
    && (forall i: nat, j: nat :: i < j < |t.rels| ==> KeyAt(hop, t, i) != KeyAt(hop, t, j))
  }

  predicate Wanted(schema: Schema, g: Graph, hop: Hop, t: Trail)
    requires t.nodes != []
  {
    && hop.min <= |t.rels| <= hop.max
    && LabelOk(schema, hop, LastMirror(g, t))
  }

  /** The keys a trail has used. */
  function Used(hop: Hop, t: Trail): set<StepKey>
    requires |t.nodes| == |t.rels| + 1
  {
    set i: nat | i < |t.rels| :: KeyAt(hop, t, i)
  }

  // ---- the enumeration ----------------------------------------------------------------------------------------

  function Ids(g: Graph): set<string> {
    set n | n in g.nodes :: n.id
  }

  /** Every key a step can have, from a walk that starts at `start`. */
  ghost function Universe(g: Graph, hop: Hop, start: string): set<StepKey> {
    var t := if hop.relType.Some? then hop.relType.value else "";
    set a, b | a in Ids(g) + {start} && b in Ids(g) + {start} :: StepKey(a, t, b)
  }

  lemma KeyInUniverse(g: Graph, hop: Hop, start: string, a: string, b: string)
    requires a in Ids(g) + {start} && b in Ids(g) + {start}
    ensures KeyOf(hop, a, b) in Universe(g, hop, start)
  {
  }

  lemma FewerKeysLeft(universe: set<StepKey>, used: set<StepKey>, key: StepKey)
    requires key in universe && key !in used
    ensures |universe - (used + {key})| < |universe - used|
  {
    assert universe - (used + {key}) == (universe - used) - {key};
  }

  lemma StepsInGraph(schema: Schema, g: Graph, hop: Hop, id: string)
    ensures forall n :: n in Steps(schema, g, hop, id) ==> n in g.nodes
  {
    hide Expand;
    forall n | n in Steps(schema, g, hop, id) ensures n in g.nodes {
      ExpandMembers(schema, g, id, hop.relType, hop.direction, n);
    }
  }

  function Extend(hop: Hop, t: Trail, next: Node): Trail
    requires t.nodes != []
  {
    var current := Current(t);
    Trail(t.nodes + [next], t.rels + [Oriented(hop.direction, hop.relType, current.id, next.id)])
  }

  /** What the trail itself emits. */
  function Here(schema: Schema, g: Graph, hop: Hop, t: Trail): seq<Trail>
    requires t.nodes != []
  {
    if |t.rels| >= hop.min && LabelOk(schema, hop, LastMirror(g, t)) then [t] else []
  }

  /** Everything emitted below the trail `t`, whose used keys are `used`. */
  function Walks(schema: Schema, g: Graph, hop: Hop, start: string, t: Trail, used: set<StepKey>): seq<Trail>
    requires t.nodes != [] && Current(t).id in Ids(g) + {start}
    decreases |Universe(g, hop, start) - used|, 1, 0
  {
    var current := Current(t);
    if |t.rels| >= hop.max then Here(schema, g, hop, t)
    else
      StepsInGraph(schema, g, hop, current.id);
      Here(schema, g, hop, t) + WalksOver(schema, g, hop, start, t, used, Steps(schema, g, hop, current.id))
  }

  /** Everything emitted for the remaining targets of the last node, in order. */
  function WalksOver(schema: Schema, g: Graph, hop: Hop, start: string, t: Trail, used: set<StepKey>,
                     targets: seq<Node>): seq<Trail>
    requires t.nodes != [] && Current(t).id in Ids(g) + {start}
    requires forall n :: n in targets ==> n in g.nodes
    decreases |Universe(g, hop, start) - used|, 0, |targets|
  {
    if targets == [] then []
    else
      var key := KeyOf(hop, Current(t).id, targets[0].id);
      var rest := WalksOver(schema, g, hop, start, t, used, targets[1..]);
      if key in used then rest
      else
        KeyInUniverse(g, hop, start, Current(t).id, targets[0].id);
        FewerKeysLeft(Universe(g, hop, start), used, key);
        Walks(schema, g, hop, start, Extend(hop, t, targets[0]), used + {key}) + rest
  }

  /** All trails of one row, from its source node. */
  function Enumerate(schema: Schema, g: Graph, hop: Hop, from: Node): seq<Trail> {
    Walks(schema, g, hop, from.id, Trail([from], []), {})
  }

  // ---- what is emitted ----------------------------------------------------------------------------------------

  ghost predicate Below(t: Trail, e: Trail) {
    t.nodes <= e.nodes && t.rels <= e.rels
  }

  lemma ExtendIsTrail(schema: Schema, g: Graph, hop: Hop, from: Node, t: Trail, next: Node)
    requires IsTrail(schema, g, hop, from, t)
    requires next in Steps(schema, g, hop, Current(t).id)
    requires KeyOf(hop, Current(t).id, next.id) !in Used(hop, t)
    ensures IsTrail(schema, g, hop, from, Extend(hop, t, next))
    ensures Used(hop, Extend(hop, t, next)) == Used(hop, t) + {KeyOf(hop, Current(t).id, next.id)}
  {
    hide KeyOf, Steps;
    var e := Extend(hop, t, next);
    var n := |t.rels|;
    forall i: nat | i < n ensures KeyAt(hop, e, i) == KeyAt(hop, t, i) {
      assert e.nodes[i] == t.nodes[i] && e.nodes[i + 1] == t.nodes[i + 1];
    }
    assert KeyAt(hop, e, n) == KeyOf(hop, t.nodes[n].id, next.id);
    forall i: nat | i <= n ensures Step(schema, g, hop, e, i) {
      if i < n {
        assert Step(schema, g, hop, t, i);
      }
    }
    forall i: nat, j: nat | i < j < |e.rels| ensures KeyAt(hop, e, i) != KeyAt(hop, e, j) {
      if j == n {
        assert KeyAt(hop, t, i) in Used(hop, t);
      }
    }
    forall k ensures k in Used(hop, e) <==> k in Used(hop, t) + {KeyAt(hop, e, n)} {
      if k in Used(hop, t) {
        var i: nat :| i < n && k == KeyAt(hop, t, i);
        assert k == KeyAt(hop, e, i);
      }
      if k in Used(hop, e) {
        var i: nat :| i < n + 1 && k == KeyAt(hop, e, i);
        if i < n {
          assert k == KeyAt(hop, t, i);
        }
      }
    }
  }

  ghost predicate Ready(schema: Schema, g: Graph, hop: Hop, from: Node, t: Trail, used: set<StepKey>) {
    && |t.nodes| == |t.rels| + 1
    && IsTrail(schema, g, hop, from, t)
    && used == Used(hop, t)
    && Current(t).id in Ids(g) + {from.id}
  }

  lemma ExtendIsReady(schema: Schema, g: Graph, hop: Hop, from: Node, t: Trail, used: set<StepKey>, next: Node)
    requires Ready(schema, g, hop, from, t, used)
    requires next in Steps(schema, g, hop, Current(t).id) && next in g.nodes
    requires KeyOf(hop, Current(t).id, next.id) !in used
    ensures Ready(schema, g, hop, from, Extend(hop, t, next), used + {KeyOf(hop, Current(t).id, next.id)})
  {
    hide KeyOf, Steps;
    ExtendIsTrail(schema, g, hop, from, t, next);
  }

  /** Everything emitted below a trail is a wanted trail that extends it. */
  lemma {:induction false} EmittedAreTrails(schema: Schema, g: Graph, hop: Hop, from: Node, t: Trail, used: set<StepKey>, e: Trail)
    requires Ready(schema, g, hop, from, t, used) && |t.rels| <= hop.max
    requires e in Walks(schema, g, hop, from.id, t, used)
    ensures IsTrail(schema, g, hop, from, e) && Wanted(schema, g, hop, e) && Below(t, e)
    decreases |Universe(g, hop, from.id) - used|, 1, 0
  {
    hide KeyOf, Steps, LabelOk, LastMirror, IsTrail, WalksOver, Universe, Ids, Used;
    var targets := Steps(schema, g, hop, Current(t).id);
    StepsInGraph(schema, g, hop, Current(t).id);
    if |t.rels| < hop.max && e in WalksOver(schema, g, hop, from.id, t, used, targets) {
      EmittedOverAreTrails(schema, g, hop, from, t, used, targets, e);
    }
  }

  lemma {:induction false} EmittedOverAreTrails(schema: Schema, g: Graph, hop: Hop, from: Node, t: Trail, used: set<StepKey>,
                                                targets: seq<Node>, e: Trail)
    requires Ready(schema, g, hop, from, t, used) && |t.rels| < hop.max
    requires forall n :: n in targets ==> n in g.nodes && n in Steps(schema, g, hop, Current(t).id)
    requires e in WalksOver(schema, g, hop, from.id, t, used, targets)
    ensures IsTrail(schema, g, hop, from, e) && Wanted(schema, g, hop, e) && Below(t, e)
    decreases |Universe(g, hop, from.id) - used|, 0, |targets|
  {
    hide KeyOf, Steps, LabelOk, LastMirror, IsTrail, Walks, Universe, Used;
    var key := KeyOf(hop, Current(t).id, targets[0].id);
    if e in WalksOver(schema, g, hop, from.id, t, used, targets[1..]) {
      EmittedOverAreTrails(schema, g, hop, from, t, used, targets[1..], e);
    } else {
      KeyInUniverse(g, hop, from.id, Current(t).id, targets[0].id);
      FewerKeysLeft(Universe(g, hop, from.id), used, key);
      ExtendIsReady(schema, g, hop, from, t, used, targets[0]);
      EmittedAreTrails(schema, g, hop, from, Extend(hop, t, targets[0]), used + {key}, e);
    }
  }

  /** Every wanted trail that extends `t` is emitted below it. */
  lemma {:induction false} TrailsAreEmitted(schema: Schema, g: Graph, hop: Hop, from: Node, t: Trail, used: set<StepKey>, e: Trail)
    requires Ready(schema, g, hop, from, t, used)
    requires IsTrail(schema, g, hop, from, e) && Wanted(schema, g, hop, e) && Below(t, e)
    ensures e in Walks(schema, g, hop, from.id, t, used)
    decreases |Universe(g, hop, from.id) - used|, 1, 0
  {
    hide KeyOf, Steps, LabelOk, LastMirror, Oriented, WalksOver, Universe, Ids, Used;
    var n := |t.rels|;
    if |e.rels| == n {
      assert e == t;
    } else {
      assert t.nodes[n] == e.nodes[n];
      assert Step(schema, g, hop, e, n);
      StepsInGraph(schema, g, hop, t.nodes[n].id);
      NextKeyIsNew(schema, g, hop, from, t, e);
      TrailsOverAreEmitted(schema, g, hop, from, t, used, Steps(schema, g, hop, t.nodes[n].id), e);
    }
  }

  lemma NextKeyIsNew(schema: Schema, g: Graph, hop: Hop, from: Node, t: Trail, e: Trail)
    requires IsTrail(schema, g, hop, from, t) && IsTrail(schema, g, hop, from, e) && Below(t, e) && |t.rels| < |e.rels|
    ensures KeyAt(hop, e, |t.rels|) !in Used(hop, t)
  {
    hide KeyOf, Steps;
    var n := |t.rels|;
    forall i: nat | i < n ensures KeyAt(hop, t, i) != KeyAt(hop, e, n) {
      assert e.nodes[i] == t.nodes[i] && e.nodes[i + 1] == t.nodes[i + 1];
      assert KeyAt(hop, e, i) != KeyAt(hop, e, n);
    }
  }

  lemma {:induction false} TrailsOverAreEmitted(schema: Schema, g: Graph, hop: Hop, from: Node, t: Trail, used: set<StepKey>,
                                                targets: seq<Node>, e: Trail)
    requires Ready(schema, g, hop, from, t, used)
    requires forall n :: n in targets ==> n in g.nodes && n in Steps(schema, g, hop, Current(t).id)
    requires IsTrail(schema, g, hop, from, e) && Wanted(schema, g, hop, e) && Below(t, e) && |t.rels| < |e.rels|
    requires e.nodes[|t.nodes|] in targets && KeyAt(hop, e, |t.rels|) !in used
    ensures e in WalksOver(schema, g, hop, from.id, t, used, targets)
    decreases |Universe(g, hop, from.id) - used|, 0, |targets|
  {
    hide KeyOf, Steps, LabelOk, LastMirror, Walks, Wanted, Universe, Used;
    var n := |t.rels|;
    assert e.nodes[n] == t.nodes[n];
    if targets[0] == e.nodes[n + 1] {
      var key := KeyAt(hop, e, n);
      KeyInUniverse(g, hop, from.id, t.nodes[n].id, targets[0].id);
      FewerKeysLeft(Universe(g, hop, from.id), used, key);
      ExtendIsReady(schema, g, hop, from, t, used, targets[0]);
      assert Step(schema, g, hop, e, n);
      assert Below(Extend(hop, t, targets[0]), e);
      TrailsAreEmitted(schema, g, hop, from, Extend(hop, t, targets[0]), used + {key}, e);
    } else {
      assert targets == [targets[0]] + targets[1..];
      TrailsOverAreEmitted(schema, g, hop, from, t, used, targets[1..], e);
    }
  }

  /** What one row emits is exactly its wanted trails. */
  lemma EmitsExactlyTheTrails(schema: Schema, g: Graph, hop: Hop, from: Node, e: Trail)
    ensures e in Enumerate(schema, g, hop, from) <==> IsTrail(schema, g, hop, from, e) && Wanted(schema, g, hop, e)
  {
    hide Walks, LabelOk;
    var t := Trail([from], []);
    assert IsTrail(schema, g, hop, from, t);
    assert Used(hop, t) == {};
    if e in Enumerate(schema, g, hop, from) {
      EmittedAreTrails(schema, g, hop, from, t, {}, e);
    }
    if IsTrail(schema, g, hop, from, e) && Wanted(schema, g, hop, e) {
      TrailsAreEmitted(schema, g, hop, from, t, {}, e);
    }
  }

  /** The next target contributes everything below it, or nothing when its step is used up. */
  lemma WalksOverNext(schema: Schema, g: Graph, hop: Hop, start: string, t: Trail, used: set<StepKey>,
                      targets: seq<Node>, rest: seq<Node>)
    requires t.nodes != [] && Current(t).id in Ids(g) + {start}
    requires targets != [] && rest == targets[1..] && forall n :: n in targets ==> n in g.nodes
    ensures targets[0].id in Ids(g) + {start}
    ensures var key := KeyOf(hop, Current(t).id, targets[0].id);
            WalksOver(schema, g, hop, start, t, used, targets)
            == (if key in used then [] else Walks(schema, g, hop, start, Extend(hop, t, targets[0]), used + {key}))
             + WalksOver(schema, g, hop, start, t, used, rest)
  {
    hide KeyOf, Walks, Universe, Extend;
  }

  lemma WalksOverNone(schema: Schema, g: Graph, hop: Hop, start: string, t: Trail, used: set<StepKey>)
    requires t.nodes != [] && Current(t).id in Ids(g) + {start}
    ensures WalksOver(schema, g, hop, start, t, used, []) == []
  {
  }

  // ---- the in-place enumeration -------------------------------------------------------------------------------

  /** The walk of one row: a path and a set of used keys that are extended and shrunk in place. */
  class Walker {
    const schema: Schema
    const g: Graph
    const hop: Hop
    const start: string
    var nodes: seq<Node>
    var rels: seq<Rel>
    var used: set<StepKey>
    var emitted: seq<Trail>

    constructor (schema: Schema, g: Graph, hop: Hop, from: Node)
      ensures this.schema == schema && this.g == g && this.hop == hop && start == from.id
      ensures nodes == [from] && rels == [] && used == {} && emitted == []
    {
      this.schema, this.g, this.hop, start := schema, g, hop, from.id;
      nodes, rels, used, emitted := [from], [], {}, [];
    }

    method Walk(current: Node, mirror: Option<Node>)
      requires nodes != [] && nodes[|nodes| - 1] == current && current.id in Ids(g) + {start}
      requires mirror == LastMirror(g, Trail(nodes, rels))
      modifies this
      ensures nodes == old(nodes) && rels == old(rels) && used == old(used)
      ensures emitted == old(emitted) + Walks(schema, g, hop, start, Trail(old(nodes), old(rels)), old(used))
      decreases |Universe(g, hop, start) - used|, 2
    {
      hide KeyOf, LabelOk, Expand, Universe, WalksOver, Ids;
      ghost var t := Trail(nodes, rels);
      var depth := |rels|;
      if depth >= hop.min && LabelOk(schema, hop, mirror) {
        emitted := emitted + [Trail(nodes, rels)];
      }
      if depth >= hop.max { return; }
      var targets := Expand(schema, g, current.id, hop.relType, hop.direction);
      StepsInGraph(schema, g, hop, current.id);
      Try(current, targets);
      assert Steps(schema, g, hop, Current(t).id) == targets;
    }

    /** Follows the steps to these targets that are not used up, in order. */
    method Try(current: Node, targets: seq<Node>)
      requires nodes != [] && nodes[|nodes| - 1] == current && current.id in Ids(g) + {start}
      requires forall n :: n in targets ==> n in g.nodes
      modifies this
      ensures nodes == old(nodes) && rels == old(rels) && used == old(used)
      ensures emitted == old(emitted) + WalksOver(schema, g, hop, start, Trail(old(nodes), old(rels)), old(used), targets)
      decreases |Universe(g, hop, start) - used|, 1
    {
      hide KeyOf, Universe, Walks, Ids, WalksOver;
      ghost var t := Trail(nodes, rels);
      var i := 0;
      while i < |targets|
        invariant 0 <= i <= |targets|
        invariant nodes == t.nodes && rels == t.rels && used == old(used)
        invariant emitted + WalksOver(schema, g, hop, start, t, used, targets[i..])
               == old(emitted) + WalksOver(schema, g, hop, start, t, used, targets)
      {
        var next := targets[i];
        var key := KeyOf(hop, current.id, next.id);
        WalksOverNext(schema, g, hop, start, t, used, targets[i..], targets[i + 1..]);
        if key !in used {
          Descend(current, next, key);
        }
        i := i + 1;
      }
      assert targets[i..] == [];
      WalksOverNone(schema, g, hop, start, t, used);
    }

    /** One step down and back: push the step, walk on, pop it. */
    method Descend(current: Node, next: Node, key: StepKey)
      requires nodes != [] && nodes[|nodes| - 1] == current && current.id in Ids(g) + {start}
      requires next in g.nodes && next.id in Ids(g) + {start} && key == KeyOf(hop, current.id, next.id) && key !in used
      modifies this
      ensures nodes == old(nodes) && rels == old(rels) && used == old(used)
      ensures emitted == old(emitted)
           + Walks(schema, g, hop, start, Extend(hop, Trail(old(nodes), old(rels)), next), old(used) + {key})
      decreases |Universe(g, hop, start) - used|, 0
    {
      hide KeyOf, Universe, Walks, Oriented, Ids;
      KeyInUniverse(g, hop, start, current.id, next.id);
      FewerKeysLeft(Universe(g, hop, start), used, key);
      used := used + {key};
      nodes := nodes + [next];
      rels := rels + [Oriented(hop.direction, hop.relType, current.id, next.id)];
      assert Trail(nodes, rels) == Extend(hop, Trail(old(nodes), old(rels)), next);
      Walk(next, Some(next));
      rels := rels[..|rels| - 1];
      nodes := nodes[..|nodes| - 1];
      used := used - {key};
    }
  }
}
