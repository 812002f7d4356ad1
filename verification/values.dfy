/**
 The values a query computes with, their grouping keys and their total order.

 Main results: the order is a total preorder (`CompareAntisymmetric`, `CompareTransitive`) and two values tie exactly
 when their grouping keys are the same text (`TiesAreEqualKeys`).
 */
module Values {
  import opened Wrappers
  import opened Numbers
  import opened NumberText
  import opened Text

  datatype Scalar = Num(n: Number) | Str(s: string) | Bool(b: bool)

  /** A reference member of a node and the ids it points at. */
  datatype Refs = Refs(member: string, targets: seq<string>)

  /** An instance as the graph reflects it. */
  datatype Node = Node(id: string, concept: string, attrs: map<string, Scalar>, refs: seq<Refs>)

  datatype Rel = Rel(fromId: string, relType: string, toId: string)

  datatype Entry = Entry(key: string, value: Value)

  datatype Value =
    | ScalarV(scalar: Scalar)
    | NullV
    | NodeV(node: Node)
    | ListV(items: seq<Value>)
    | MapV(entries: seq<Entry>)
    | RelV(rel: Rel)
    | PathV(nodes: seq<Node>, rels: seq<Rel>)

  // ---- grouping keys ------------------------------------------------------------------------------------------

  function BoolText(b: bool): string {
    if b then "true" else "false"
  }

  function ScalarKey(s: Scalar): string {
    match s
    case Num(n) => "number:" + Shortest(n)
    case Str(t) => "string:" + t
    case Bool(b) => "boolean:" + BoolText(b)
  }

  function NodeKey(n: Node): string {
    "node:" + n.id
  }

  function RelJson(r: Rel): Json {
    JArray([JString(r.fromId), JString(r.relType), JString(r.toId)])
  }

  function RelKey(r: Rel): string {
    "rel:" + Print(RelJson(r))
  }

  function NodeKeys(nodes: seq<Node>): (r: seq<Json>)
    ensures |r| == |nodes| && forall i :: 0 <= i < |r| ==> r[i] == JString(NodeKey(nodes[i]))
  {
    seq(|nodes|, i requires 0 <= i < |nodes| => JString(NodeKey(nodes[i])))
  }

  function RelKeys(rels: seq<Rel>): (r: seq<Json>)
    ensures |r| == |rels| && forall i :: 0 <= i < |r| ==> r[i] == JString(RelKey(rels[i]))
  {
    seq(|rels|, i requires 0 <= i < |rels| => JString(RelKey(rels[i])))
  }

  /** The JSON object of a path's node keys and relationship keys. */
  function PathKey(nodes: seq<Node>, rels: seq<Rel>): string {
    "path:" + ("{\"n\":" + Print(JArray(NodeKeys(nodes))) + (",\"r\":" + Print(JArray(RelKeys(rels))) + "}"))
  }

  /** Entries in key order; entries with equal keys keep their order. */
  function Insert(e: Entry, sorted: seq<Entry>): (r: seq<Entry>)
    ensures multiset(r) == multiset{e} + multiset(sorted)
  {
    if sorted == [] || CompareStrings(e.key, sorted[0].key) <= 0 then
      assert [e] + sorted == [e] + sorted;
      [e] + sorted
    else
      assert sorted == [sorted[0]] + sorted[1..];
      [sorted[0]] + Insert(e, sorted[1..])
  }

  function SortEntries(entries: seq<Entry>): (r: seq<Entry>)
    ensures multiset(r) == multiset(entries)
  {
    if entries == [] then []
    else
      assert entries == [entries[0]] + entries[1..];
      Insert(entries[0], SortEntries(entries[1..]))
  }

  function ValuesSize(vs: seq<Value>): nat {
    if vs == [] then 0 else Size(vs[0]) + ValuesSize(vs[1..])
  }

  function EntriesSize(es: seq<Entry>): nat {
    if es == [] then 0 else Size(es[0].value) + EntriesSize(es[1..])
  }

  /** How many values a value is made of; sorting a map's entries keeps it. */
  function Size(v: Value): nat {
    match v
    case ListV(items) => 1 + ValuesSize(items)
    case MapV(entries) => 1 + EntriesSize(entries)
    case _ => 1
  }

  lemma {:induction false} InsertSize(e: Entry, sorted: seq<Entry>)
    ensures EntriesSize(Insert(e, sorted)) == Size(e.value) + EntriesSize(sorted)
  {
    var r := Insert(e, sorted);
    if sorted == [] || CompareStrings(e.key, sorted[0].key) <= 0 {
      assert r[0] == e && r[1..] == sorted;
    } else {
      InsertSize(e, sorted[1..]);
      assert r[0] == sorted[0] && r[1..] == Insert(e, sorted[1..]);
    }
  }

  lemma {:induction false} SortSize(es: seq<Entry>)
    ensures EntriesSize(SortEntries(es)) == EntriesSize(es)
  {
    if es != [] {
      SortSize(es[1..]);
      InsertSize(es[0], SortEntries(es[1..]));
    }
  }

  function GroupKey(v: Value): string
    decreases Size(v), 0
  {
    match v
    case ScalarV(s) => ScalarKey(s)
    case NullV => "null"
    case NodeV(n) => NodeKey(n)
    case ListV(items) => "list:" + Print(JArray(ItemKeys(items)))
    case MapV(entries) => SortSize(entries); "map:" + Print(JArray(EntryKeys(SortEntries(entries))))
    case RelV(r) => RelKey(r)
    case PathV(nodes, rels) => PathKey(nodes, rels)
  }

  function ItemKeys(items: seq<Value>): seq<Json>
    decreases ValuesSize(items), 1 + |items|
  {
    if items == [] then [] else [JString(GroupKey(items[0]))] + ItemKeys(items[1..])
  }

  function EntryKeys(entries: seq<Entry>): seq<Json>
    decreases EntriesSize(entries), 1 + |entries|
  {
    if entries == [] then []
    else [JArray([JString(entries[0].key), JString(GroupKey(entries[0].value))])] + EntryKeys(entries[1..])
  }

  // ---- the order ----------------------------------------------------------------------------------------------

  function TypeRank(v: Value): int {
    match v
    case ScalarV(Num(_)) => 0
    case ScalarV(Str(_)) => 1
    case ScalarV(Bool(_)) => 2
    case NodeV(_) => 3
    case ListV(_) => 4
    case MapV(_) => 5
    case RelV(_) => 6
    case PathV(_, _) => 7
    case NullV => 100
  }

  function CompareBools(a: bool, b: bool): int {
    if a == b then 0 else if b then -1 else 1
  }

  /** Cross-type by rank, then within the type; nulls last. */
  function Compare(a: Value, b: Value): int
    decreases Size(a), 0
  {
    if TypeRank(a) != TypeRank(b) then TypeRank(a) - TypeRank(b)
    else match a
      case ScalarV(Num(n)) => CompareNumbers(n, b.scalar.n)
      case ScalarV(Str(s)) => CompareStrings(s, b.scalar.s)
      case ScalarV(Bool(x)) => CompareBools(x, b.scalar.b)
      case NullV => 0
      case NodeV(n) => CompareStrings(n.id, b.node.id)
      case ListV(items) => CompareItems(items, b.items)
      case MapV(entries) => SortSize(entries); CompareEntries(SortEntries(entries), SortEntries(b.entries))
      case RelV(r) => CompareStrings(RelKey(r), RelKey(b.rel))
      case PathV(nodes, rels) => CompareStrings(PathKey(nodes, rels), PathKey(b.nodes, b.rels))
  }

  /** The first differing item decides, then the length. */
  function CompareItems(a: seq<Value>, b: seq<Value>): int
    decreases ValuesSize(a), 1 + |a|
  {
    if a == [] || b == [] then |a| - |b|
    else
      var c := Compare(a[0], b[0]);
      if c != 0 then c else CompareItems(a[1..], b[1..])
  }

  /** The first differing key or value, in key order, decides; then the number of keys. */
  function CompareEntries(a: seq<Entry>, b: seq<Entry>): int
    decreases EntriesSize(a), 1 + |a|
  {
    if a == [] || b == [] then |a| - |b|
    else
      var k := CompareStrings(a[0].key, b[0].key);
      if k != 0 then k
      else
        var c := Compare(a[0].value, b[0].value);
        if c != 0 then c else CompareEntries(a[1..], b[1..])
  }

  lemma {:induction false} CompareAntisymmetric(a: Value, b: Value)
    ensures Sign(Compare(b, a)) == -Sign(Compare(a, b))
    decreases Size(a), 0
  {
    hide CompareStrings, CompareNumbers, PathKey, RelKey, SortEntries;
    if TypeRank(a) == TypeRank(b) {
      match a {
        case ScalarV(Num(n)) => CompareNumbersAntisymmetric(n, b.scalar.n);
        case ScalarV(Str(s)) => CompareStringsAntisymmetric(s, b.scalar.s);
        case NodeV(n) => CompareStringsAntisymmetric(n.id, b.node.id);
        case ListV(items) => CompareItemsAntisymmetric(items, b.items);
        case MapV(entries) =>
          SortSize(entries);
          CompareEntriesAntisymmetric(SortEntries(entries), SortEntries(b.entries));
        case RelV(r) => CompareStringsAntisymmetric(RelKey(r), RelKey(b.rel));
        case PathV(nodes, rels) => CompareStringsAntisymmetric(PathKey(nodes, rels), PathKey(b.nodes, b.rels));
        case _ =>
      }
    }
  }

  lemma {:induction false} CompareItemsAntisymmetric(a: seq<Value>, b: seq<Value>)
    ensures Sign(CompareItems(b, a)) == -Sign(CompareItems(a, b))
    decreases ValuesSize(a), 1 + |a|
  {
    hide Compare;
    if a != [] && b != [] {
      CompareAntisymmetric(a[0], b[0]);
      CompareItemsAntisymmetric(a[1..], b[1..]);
    }
  }

  lemma {:induction false} CompareEntriesAntisymmetric(a: seq<Entry>, b: seq<Entry>)
    ensures Sign(CompareEntries(b, a)) == -Sign(CompareEntries(a, b))
    decreases EntriesSize(a), 1 + |a|
  {
    hide Compare, CompareStrings;
    if a != [] && b != [] {
      CompareStringsAntisymmetric(a[0].key, b[0].key);
      CompareAntisymmetric(a[0].value, b[0].value);
      CompareEntriesAntisymmetric(a[1..], b[1..]);
    }
  }

  // ---- ties ---------------------------------------------------------------------------------------------------

  /** The first three characters of a key tell the type. */
  function Tag(rank: int): string {
    if rank == 0 then "num" else if rank == 1 then "str" else if rank == 2 then "boo" else if rank == 3 then "nod"
    else if rank == 4 then "lis" else if rank == 5 then "map" else if rank == 6 then "rel" else if rank == 7 then "pat"
    else "nul"
  }

  lemma StartsWith(p: string, x: string)
    requires |p| >= 3
    ensures |p + x| >= 3 && (p + x)[..3] == p[..3]
  {
  }

  lemma KeyStartsWithTag(v: Value)
    ensures |GroupKey(v)| >= 3 && GroupKey(v)[..3] == Tag(TypeRank(v))
  {
    hide Shortest, Print, NodeKeys, RelKeys, SortEntries;
    match v {
      case ScalarV(Num(n)) => StartsWith("number:", Shortest(n));
      case ScalarV(Str(s)) => StartsWith("string:", s);
      case ScalarV(Bool(b)) => StartsWith("boolean:", BoolText(b));
      case NodeV(n) => StartsWith("node:", n.id);
      case ListV(items) => StartsWith("list:", Print(JArray(ItemKeys(items))));
      case MapV(entries) => StartsWith("map:", Print(JArray(EntryKeys(SortEntries(entries)))));
      case RelV(r) => StartsWith("rel:", Print(RelJson(r)));
      case PathV(ns, rs) =>
        StartsWith("path:", "{\"n\":" + Print(JArray(NodeKeys(ns))) + (",\"r\":" + Print(JArray(RelKeys(rs))) + "}"));
      case NullV =>
    }
  }

  lemma TagIsInjective(a: Value, b: Value)
    requires Tag(TypeRank(a)) == Tag(TypeRank(b))
    ensures TypeRank(a) == TypeRank(b)
  {
    assert forall v: Value :: TypeRank(v) == 100 || 0 <= TypeRank(v) <= 7;
    var s, t := Tag(TypeRank(a)), Tag(TypeRank(b));
    assert s[0] == t[0] && s[1] == t[1] && s[2] == t[2];
  }

  lemma Cancel(p: string, x: string, y: string)
    ensures p + x == p + y <==> x == y
  {
    assert (p + x)[|p|..] == x && (p + y)[|p|..] == y;
  }

  /** Two values tie exactly when their grouping keys are equal. */
  lemma {:induction false} TiesAreEqualKeys(a: Value, b: Value)
    ensures Compare(a, b) == 0 <==> GroupKey(a) == GroupKey(b)
    decreases Size(a), 0
  {
    hide CompareStrings, CompareNumbers, PathKey, RelKey, SortEntries, Shortest, Print, ItemKeys, EntryKeys,
         CompareItems, CompareEntries;
    if TypeRank(a) != TypeRank(b) {
      KeyStartsWithTag(a);
      KeyStartsWithTag(b);
      if GroupKey(a) == GroupKey(b) {
        TagIsInjective(a, b);
      }
    } else {
      match a {
        case ScalarV(s) => ScalarTies(s, b.scalar);
        case NullV =>
        case NodeV(n) =>
          Cancel("node:", n.id, b.node.id);
          CompareStringsTies(n.id, b.node.id);
        case ListV(items) =>
          ItemTies(items, b.items);
          PrintIsInjective(JArray(ItemKeys(items)), JArray(ItemKeys(b.items)));
          Cancel("list:", Print(JArray(ItemKeys(items))), Print(JArray(ItemKeys(b.items))));
        case MapV(entries) =>
          SortSize(entries);
          var l, r := SortEntries(entries), SortEntries(b.entries);
          EntryTies(l, r);
          PrintIsInjective(JArray(EntryKeys(l)), JArray(EntryKeys(r)));
          Cancel("map:", Print(JArray(EntryKeys(l))), Print(JArray(EntryKeys(r))));
        case RelV(r) => CompareStringsTies(RelKey(r), RelKey(b.rel));
        case PathV(nodes, rels) => CompareStringsTies(PathKey(nodes, rels), PathKey(b.nodes, b.rels));
      }
    }
  }

  lemma ScalarTies(a: Scalar, b: Scalar)
    requires TypeRank(ScalarV(a)) == TypeRank(ScalarV(b))
    ensures Compare(ScalarV(a), ScalarV(b)) == 0 <==> ScalarKey(a) == ScalarKey(b)
  {
    hide CompareStrings, CompareNumbers, Shortest;
    match a {
      case Num(n) =>
        CompareNumbersTies(n, b.n);
        ShortestIsInjective(n, b.n);
        Cancel("number:", Shortest(n), Shortest(b.n));
      case Str(s) =>
        CompareStringsTies(s, b.s);
        Cancel("string:", s, b.s);
      case Bool(x) =>
        Cancel("boolean:", BoolText(x), BoolText(b.b));
        assert BoolText(true)[0] != BoolText(false)[0];
    }
  }

  lemma {:induction false} ItemTies(a: seq<Value>, b: seq<Value>)
    ensures CompareItems(a, b) == 0 <==> ItemKeys(a) == ItemKeys(b)
    decreases ValuesSize(a), 1 + |a|
  {
    hide Compare, GroupKey;
    if a != [] && b != [] {
      TiesAreEqualKeys(a[0], b[0]);
      ItemTies(a[1..], b[1..]);
      assert ItemKeys(a)[0] == JString(GroupKey(a[0])) && ItemKeys(b)[0] == JString(GroupKey(b[0]));
      assert ItemKeys(a)[1..] == ItemKeys(a[1..]) && ItemKeys(b)[1..] == ItemKeys(b[1..]);
    }
  }

  lemma {:induction false} EntryTies(a: seq<Entry>, b: seq<Entry>)
    ensures CompareEntries(a, b) == 0 <==> EntryKeys(a) == EntryKeys(b)
    decreases EntriesSize(a), 1 + |a|
  {
    hide Compare, GroupKey, CompareStrings;
    if a != [] && b != [] {
      CompareStringsTies(a[0].key, b[0].key);
      TiesAreEqualKeys(a[0].value, b[0].value);
      EntryTies(a[1..], b[1..]);
      var x, y := EntryKeys(a), EntryKeys(b);
      assert x[0].items == [JString(a[0].key), JString(GroupKey(a[0].value))];
      assert y[0].items == [JString(b[0].key), JString(GroupKey(b[0].value))];
      assert x[0].items[0] == JString(a[0].key) && x[0].items[1] == JString(GroupKey(a[0].value));
      assert y[0].items[0] == JString(b[0].key) && y[0].items[1] == JString(GroupKey(b[0].value));
      assert x[1..] == EntryKeys(a[1..]) && y[1..] == EntryKeys(b[1..]);
    }
  }

  // ---- transitivity -------------------------------------------------------------------------------------------

  /** a <= b <= c gives a <= c, strictly as soon as one link is strict. */
  ghost predicate Chain(ab: int, bc: int, ac: int) {
    && (ab <= 0 && bc <= 0 ==> ac <= 0)
    && (ab <= 0 && bc <= 0 && (ab < 0 || bc < 0) ==> ac < 0)
  }

  lemma {:induction false} CompareTransitive(a: Value, b: Value, c: Value)
    ensures Chain(Compare(a, b), Compare(b, c), Compare(a, c))
    decreases Size(a), 0
  {
    hide CompareStrings, CompareNumbers, PathKey, RelKey, SortEntries, CompareItems, CompareEntries;
    if TypeRank(a) == TypeRank(b) == TypeRank(c) {
      match a {
        case ScalarV(s) => ScalarChain(s, b.scalar, c.scalar);
        case NullV =>
        case NodeV(n) => StringChain(n.id, b.node.id, c.node.id);
        case ListV(items) => ItemsChain(items, b.items, c.items);
        case MapV(entries) =>
          SortSize(entries);
          EntriesChain(SortEntries(entries), SortEntries(b.entries), SortEntries(c.entries));
        case RelV(r) => StringChain(RelKey(r), RelKey(b.rel), RelKey(c.rel));
        case PathV(nodes, rels) =>
          StringChain(PathKey(nodes, rels), PathKey(b.nodes, b.rels), PathKey(c.nodes, c.rels));
      }
    }
  }

  lemma StringChain(a: string, b: string, c: string)
    ensures Chain(CompareStrings(a, b), CompareStrings(b, c), CompareStrings(a, c))
  {
    hide CompareStrings;
    if CompareStrings(a, b) <= 0 && CompareStrings(b, c) <= 0 {
      CompareStringsTransitive(a, b, c);
    }
  }

  lemma ScalarChain(a: Scalar, b: Scalar, c: Scalar)
    requires TypeRank(ScalarV(a)) == TypeRank(ScalarV(b)) == TypeRank(ScalarV(c))
    ensures Chain(Compare(ScalarV(a), ScalarV(b)), Compare(ScalarV(b), ScalarV(c)), Compare(ScalarV(a), ScalarV(c)))
  {
    hide CompareStrings, CompareNumbers;
    match a {
      case Num(n) =>
        if CompareNumbers(n, b.n) <= 0 && CompareNumbers(b.n, c.n) <= 0 {
          CompareNumbersTransitive(n, b.n, c.n);
        }
      case Str(s) => StringChain(s, b.s, c.s);
      case Bool(_) =>
    }
  }

  /** Ties compose: equal keys do. */
  lemma TiesCompose(a: Value, b: Value, c: Value)
    requires Compare(a, b) == 0 && Compare(b, c) == 0
    ensures Compare(a, c) == 0
  {
    hide Compare, GroupKey;
    TiesAreEqualKeys(a, b);
    TiesAreEqualKeys(b, c);
    TiesAreEqualKeys(a, c);
  }

  lemma {:induction false} ItemsChain(a: seq<Value>, b: seq<Value>, c: seq<Value>)
    ensures Chain(CompareItems(a, b), CompareItems(b, c), CompareItems(a, c))
    decreases ValuesSize(a), 1 + |a|
  {
    hide Compare, Size;
    if a != [] && b != [] && c != [] {
      CompareTransitive(a[0], b[0], c[0]);
      ItemsChain(a[1..], b[1..], c[1..]);
      if Compare(a[0], b[0]) == 0 && Compare(b[0], c[0]) == 0 {
        TiesCompose(a[0], b[0], c[0]);
      }
    }
  }

  lemma {:induction false} EntriesChain(a: seq<Entry>, b: seq<Entry>, c: seq<Entry>)
    ensures Chain(CompareEntries(a, b), CompareEntries(b, c), CompareEntries(a, c))
    decreases EntriesSize(a), 1 + |a|
  {
    hide Compare, CompareStrings, Size;
    if a != [] && b != [] && c != [] {
      StringChain(a[0].key, b[0].key, c[0].key);
      CompareStringsTies(a[0].key, b[0].key);
      CompareStringsTies(b[0].key, c[0].key);
      CompareStringsTies(a[0].key, c[0].key);
      CompareTransitive(a[0].value, b[0].value, c[0].value);
      EntriesChain(a[1..], b[1..], c[1..]);
      if Compare(a[0].value, b[0].value) == 0 && Compare(b[0].value, c[0].value) == 0 {
        TiesCompose(a[0].value, b[0].value, c[0].value);
      }
    }
  }
}
