/**
 The logical manifest: concepts, classes and taxonomies by name, and the rows their types are given before any is written.

 `OriginIsNearest` says which concept a field comes from. `ForwardRowsIff` says exactly when the row numbers given ahead are
 the rows written later: an annotation type that is also referenced as a type gets a row of its own that was not counted.
 */
module LogicalManifests {
  import opened Wrappers
  import opened Seqs
  import opened Heaps

  datatype Cardinality = One | Optional | Many | OneOrMore

  /** The members of an object, in order. */
  type Named<T> = seq<(string, T)>

  datatype FieldDef = FieldDef(typeId: string, card: Cardinality)
  datatype Application = Application(annotation: string, args: Named<Const>)
  datatype RelDef = RelDef(targets: seq<string>, card: Cardinality, inverse: Option<string>, annotations: seq<Application>)
  datatype ConceptDef = ConceptDef(parent: Option<string>, fields: Named<FieldDef>, rels: Named<RelDef>, annotations: seq<Application>)
  datatype ClassDef = ClassDef(concept: string, taxonomy: Option<string>, broader: Option<string>, pinned: Named<Const>, annotations: seq<Application>)
  datatype Logical = Logical(model: string, version: string, root: string, concepts: Named<ConceptDef>, classes: Named<ClassDef>,
                             taxonomies: Named<seq<string>>)

  function Names<T>(named: Named<T>): (r: seq<string>)
    ensures |r| == |named| && forall i :: 0 <= i < |r| ==> r[i] == named[i].0
  {
    seq(|named|, i requires 0 <= i < |named| => named[i].0)
  }

  predicate NamedOnce<T>(named: Named<T>) {
    Unique(Names(named))
  }

  /** Names of one object are distinct, as they are in JSON. */
  predicate Valid(m: Logical) {
    && NamedOnce(m.concepts) && NamedOnce(m.classes) && NamedOnce(m.taxonomies)
    && (forall i :: 0 <= i < |m.concepts| ==> NamedOnce(m.concepts[i].1.fields) && NamedOnce(m.concepts[i].1.rels))
    && (forall i :: 0 <= i < |m.classes| ==> NamedOnce(m.classes[i].1.pinned))
  }

  function Position<T>(named: Named<T>, name: string): (i: nat)
    ensures i <= |named| && (i < |named| <==> name in Names(named)) && (i < |named| ==> named[i].0 == name)
  {
    IndexOf(Names(named), name)
  }

  // ---- where a field comes from -------------------------------------------------------------------------------

  predicate IsConcept(m: Logical, id: string) {
    id in Names(m.concepts)
  }

  function ConceptOf(m: Logical, id: string): ConceptDef
    requires IsConcept(m, id)
  {
    m.concepts[Position(m.concepts, id)].1
  }

  function ParentOf(m: Logical, id: string): Option<string> {
    if IsConcept(m, id) then ConceptOf(m, id).parent else None
  }

  predicate Declares(m: Logical, id: string, field: string) {
    IsConcept(m, id) && field in Names(ConceptOf(m, id).fields)
  }

  function ConceptIds(m: Logical): set<string> {
    set id | id in Names(m.concepts)
  }

  /** The first concept from here up that declares the field; a cycle ends the search at its first repeat. */
  function OriginFrom(m: Logical, id: string, field: string, visited: set<string>): Option<string>
    decreases ConceptIds(m) - visited
  {
    if Declares(m, id, field) then Some(id)
    else
      match ParentOf(m, id)
      case None => None
      case Some(up) =>
        if up in visited + {id} || id in visited then None
        else
          assert ConceptIds(m) - (visited + {id}) < ConceptIds(m) - visited;
          OriginFrom(m, up, field, visited + {id})
  }

  function OriginOf(m: Logical, typeId: string, field: string): Option<string> {
    OriginFrom(m, typeId, field, {})
  }

  /** The n-th ancestor. */
  function Ancestor(m: Logical, id: string, n: nat): Option<string>
    decreases n
  {
    if n == 0 then Some(id)
    else
      match ParentOf(m, id)
      case None => None
      case Some(up) => Ancestor(m, up, n - 1)
  }

  /** The field's nearest declaring ancestor is the n-th. */
  ghost predicate NearestAt(m: Logical, id: string, field: string, n: nat, origin: string) {
    && Ancestor(m, id, n) == Some(origin) && Declares(m, origin, field)
    && forall k: nat :: k < n ==> Ancestor(m, id, k).Some? && !Declares(m, Ancestor(m, id, k).value, field)
  }

  predicate DeclaredAt(m: Logical, id: string, field: string, n: nat) {
    Ancestor(m, id, n).Some? && Declares(m, Ancestor(m, id, n).value, field)
  }

  lemma {:induction false} OriginFound(m: Logical, id: string, field: string, visited: set<string>) returns (n: nat)
    requires OriginFrom(m, id, field, visited).Some?
    ensures NearestAt(m, id, field, n, OriginFrom(m, id, field, visited).value)
    decreases ConceptIds(m) - visited
  {
    if Declares(m, id, field) {
      n := 0;
    } else {
      var up := ParentOf(m, id).value;
      assert ConceptIds(m) - (visited + {id}) < ConceptIds(m) - visited;
      var k := OriginFound(m, up, field, visited + {id});
      n := k + 1;
      var origin := OriginFrom(m, up, field, visited + {id}).value;
      forall j: nat | j < n ensures Ancestor(m, id, j).Some? && !Declares(m, Ancestor(m, id, j).value, field) {
        if j > 0 {
          assert Ancestor(m, id, j) == Ancestor(m, up, j - 1);
        }
      }
    }
  }

  /** A set no field of which leads out of it upwards. */
  ghost predicate Undeclared(m: Logical, ids: set<string>, field: string) {
    forall id :: id in ids ==> !Declares(m, id, field) && (ParentOf(m, id).Some? ==> ParentOf(m, id).value in ids)
  }

  /** Everything visited, and everything met from here on, declares nothing and leads nowhere else. */
  lemma {:induction false} OriginMissing(m: Logical, id: string, field: string, visited: set<string>) returns (ids: set<string>)
    requires OriginFrom(m, id, field, visited).None? && id !in visited
    requires forall v :: v in visited ==> !Declares(m, v, field) && (ParentOf(m, v).Some? ==> ParentOf(m, v).value in visited + {id})
    ensures id in ids && Undeclared(m, ids, field)
    decreases ConceptIds(m) - visited
  {
    ids := visited + {id};
    if ParentOf(m, id).Some? {
      var up := ParentOf(m, id).value;
      if up !in ids {
        assert ConceptIds(m) - (visited + {id}) < ConceptIds(m) - visited;
        var more := OriginMissing(m, up, field, visited + {id});
        OriginStillMissing(m, up, field, visited + {id}, id, more);
        ids := more + ids;
      }
    }
  }

  lemma OriginStillMissing(m: Logical, up: string, field: string, visited: set<string>, id: string, ids: set<string>)
    requires up in ids && Undeclared(m, ids, field) && id in visited
    requires forall v :: v in visited ==> !Declares(m, v, field) && (ParentOf(m, v).Some? ==> ParentOf(m, v).value in visited + {up})
    ensures Undeclared(m, ids + visited, field)
  {
  }

  lemma {:induction false} AncestorsStay(m: Logical, ids: set<string>, field: string, id: string, n: nat)
    requires id in ids && Undeclared(m, ids, field)
    ensures Ancestor(m, id, n).Some? ==> Ancestor(m, id, n).value in ids
    decreases n
  {
    if n > 0 && ParentOf(m, id).Some? {
      AncestorsStay(m, ids, field, ParentOf(m, id).value, n - 1);
    }
  }

  /** The origin of a field is the nearest ancestor that declares it, and there is none exactly when no ancestor does. */
  lemma OriginIsNearest(m: Logical, typeId: string, field: string)
    ensures OriginOf(m, typeId, field).Some? ==> exists n: nat :: NearestAt(m, typeId, field, n, OriginOf(m, typeId, field).value)
    ensures OriginOf(m, typeId, field).None? <==> forall n: nat :: !DeclaredAt(m, typeId, field, n)
  {
    if OriginOf(m, typeId, field).Some? {
      var n := OriginFound(m, typeId, field, {});
      assert NearestAt(m, typeId, field, n, OriginOf(m, typeId, field).value);
      assert DeclaredAt(m, typeId, field, n);
    } else {
      var ids := OriginMissing(m, typeId, field, {});
      forall n: nat ensures !DeclaredAt(m, typeId, field, n) {
        AncestorsStay(m, ids, field, typeId, n);
      }
    }
  }

  // ---- type ids -----------------------------------------------------------------------------------------------

  /** The elements in the order they first occur. */
  function FirstOccurrences(s: seq<string>): (r: seq<string>)
    ensures forall x :: x in r <==> x in s
  {
    if s == [] then []
    else
      var before := FirstOccurrences(s[..|s| - 1]);
      assert s == s[..|s| - 1] + [s[|s| - 1]];
      if s[|s| - 1] in before then before else before + [s[|s| - 1]]
  }

  function FieldTypes(fields: Named<FieldDef>): seq<string> {
    seq(|fields|, i requires 0 <= i < |fields| => fields[i].1.typeId)
  }

  function RelTargets(rels: Named<RelDef>): seq<string> {
    FlatMap(rels, (r: (string, RelDef)) => r.1.targets)
  }

  function TypesOfConcept(c: (string, ConceptDef)): seq<string> {
    (if c.1.parent.Some? then [c.1.parent.value] else []) + FieldTypes(c.1.fields) + RelTargets(c.1.rels)
  }

  /** Every type id a coded column refers to. */
  function AllReferences(m: Logical): seq<string> {
    FlatMap(m.concepts, TypesOfConcept)
    + seq(|m.classes|, i requires 0 <= i < |m.classes| => m.classes[i].1.concept)
    + FlatMap(m.taxonomies, (t: (string, seq<string>)) => t.1)
  }

  function AnnotationsIn(apps: seq<Application>): seq<string> {
    seq(|apps|, i requires 0 <= i < |apps| => apps[i].annotation)
  }

  function AnnotationsOfConcept(c: (string, ConceptDef)): seq<string> {
    AnnotationsIn(c.1.annotations) + FlatMap(c.1.rels, (r: (string, RelDef)) => AnnotationsIn(r.1.annotations))
  }

  function AllAnnotations(m: Logical): seq<string> {
    FlatMap(m.concepts, AnnotationsOfConcept) + FlatMap(m.classes, (c: (string, ClassDef)) => AnnotationsIn(c.1.annotations))
  }

  function Undefined(m: Logical): string -> bool {
    (id: string) => !IsConcept(m, id)
  }

  /** Referenced types that are no concept, and annotation types that are none. */
  function PrimitiveIds(m: Logical): seq<string> {
    Filter(FirstOccurrences(AllReferences(m)), Undefined(m))
  }

  function AnnotationIds(m: Logical): seq<string> {
    FirstOccurrences(Filter(AllAnnotations(m), Undefined(m)))
  }

  /** The ids of the type rows, in the order they are written. */
  function Written(m: Logical): seq<string> {
    Names(m.concepts) + PrimitiveIds(m) + AnnotationIds(m)
  }

  /** The row number given to a type before any row is written; 0 for a type without one. */
  function RowNumber(m: Logical, id: string): (r: nat)
    ensures id in Written(m) ==> 1 <= r <= |FirstOccurrences(Written(m))|
    ensures id !in Written(m) ==> r == 0
  {
    if id in Written(m) then IndexOf(FirstOccurrences(Written(m)), id) + 1 else 0
  }

  predicate RowExact(m: Logical, id: string) {
    1 <= RowNumber(m, id) <= |Written(m)| && Written(m)[RowNumber(m, id) - 1] == id
  }

  /** Every number given ahead is the row of its type. */
  predicate ForwardRowsExact(m: Logical) {
    forall id :: id in Written(m) ==> RowExact(m, id)
  }

  /** The annotation types that are also referenced as types come after those that are not. */
  predicate SharedComeLast(m: Logical) {
    var annotations := AnnotationIds(m);
    forall i, j :: 0 <= i < j < |annotations| && annotations[i] in PrimitiveIds(m) ==> annotations[j] in PrimitiveIds(m)
  }

  // ---- first occurrences --------------------------------------------------------------------------------------

  lemma {:induction false} FirstOccurrencesUnique(s: seq<string>)
    ensures Unique(FirstOccurrences(s)) && |FirstOccurrences(s)| <= |s|
    decreases |s|
  {
    if s != [] {
      FirstOccurrencesUnique(s[..|s| - 1]);
    }
  }

  lemma {:induction false} UniqueStays(s: seq<string>)
    requires Unique(s)
    ensures FirstOccurrences(s) == s
    decreases |s|
  {
    if s != [] {
      UniqueStays(s[..|s| - 1]);
      assert s == s[..|s| - 1] + [s[|s| - 1]];
    }
  }

  function NotIn(s: seq<string>): string -> bool {
    (x: string) => x !in s
  }

  lemma {:induction false} FirstOccurrencesOfTwo(a: seq<string>, b: seq<string>)
    requires Unique(a) && Unique(b)
    ensures FirstOccurrences(a + b) == a + Filter(b, NotIn(a))
    decreases |b|
  {
    if b == [] {
      assert a + b == a;
      UniqueStays(a);
    } else {
      var before, last := b[..|b| - 1], b[|b| - 1];
      FirstOccurrencesOfTwo(a, before);
      assert b == before + [last] && (a + b)[..|a + b| - 1] == a + before && (a + b)[|a + b| - 1] == last;
      FilterConcat(before, [last], NotIn(a));
      assert [last][1..] == [];
      FilterMember(before, NotIn(a), last);
      assert last !in before;
    }
  }

  lemma {:induction false} FilteredUnique(s: seq<string>, p: string -> bool)
    requires Unique(s)
    ensures Unique(Filter(s, p))
  {
    if s != [] {
      FilteredUnique(s[1..], p);
      FilterMember(s[1..], p, s[0]);
    }
  }

  /** What a filter keeps is a prefix exactly when it keeps nothing after something it drops. */
  lemma {:induction false} FilterIsPrefix(s: seq<string>, p: string -> bool)
    ensures Filter(s, p) <= s <==> forall i, j :: 0 <= i < j < |s| && !p(s[i]) ==> !p(s[j])
  {
    if s != [] {
      var rest := s[1..];
      FilterIsPrefix(rest, p);
      if p(s[0]) {
        PrefixOfRest(s, p);
      } else {
        DroppedFirst(s, p);
      }
    }
  }

  lemma PrefixOfRest(s: seq<string>, p: string -> bool)
    requires s != [] && p(s[0])
    ensures Filter(s, p) <= s <==> Filter(s[1..], p) <= s[1..]
    ensures (forall i, j :: 0 <= i < j < |s| && !p(s[i]) ==> !p(s[j])) <==> forall i, j :: 0 <= i < j < |s[1..]| && !p(s[1..][i]) ==> !p(s[1..][j])
  {
    var rest := s[1..];
    assert s == [s[0]] + rest && Filter(s, p) == [s[0]] + Filter(rest, p);
    if forall i, j :: 0 <= i < j < |rest| && !p(rest[i]) ==> !p(rest[j]) {
      forall i, j | 0 <= i < j < |s| && !p(s[i]) ensures !p(s[j]) {
        assert rest[i - 1] == s[i] && rest[j - 1] == s[j];
      }
    }
    if forall i, j :: 0 <= i < j < |s| && !p(s[i]) ==> !p(s[j]) {
      forall i, j | 0 <= i < j < |rest| && !p(rest[i]) ensures !p(rest[j]) {
        assert rest[i] == s[i + 1] && rest[j] == s[j + 1];
      }
    }
    if Filter(s, p) <= s {
      assert s[..|Filter(s, p)|] == Filter(s, p);
      assert rest[..|Filter(rest, p)|] == s[..|Filter(s, p)|][1..];
    }
  }

  lemma DroppedFirst(s: seq<string>, p: string -> bool)
    requires s != [] && !p(s[0])
    ensures Filter(s, p) <= s <==> forall i, j :: 0 <= i < j < |s| && !p(s[i]) ==> !p(s[j])
  {
    var kept := Filter(s, p);
    forall x ensures x in kept <==> x in s && p(x) {
      FilterMember(s, p, x);
    }
    if kept != [] {
      assert kept[0] in kept;
      var j :| 0 <= j < |s| && s[j] == kept[0];
      assert 0 < j;
    } else {
      forall j | 0 <= j < |s| ensures !p(s[j]) {
        assert s[j] in s;
      }
    }
  }

  lemma UniqueTogether(a: seq<string>, b: seq<string>)
    requires Unique(a) && Unique(b) && forall x :: x in b ==> x !in a
    ensures Unique(a + b)
  {
    forall i, j | 0 <= i < j < |a + b| ensures (a + b)[i] != (a + b)[j] {
      assert i < |a| <= j ==> (a + b)[j] in b && (a + b)[i] in a;
    }
  }

  // ---- forward rows -------------------------------------------------------------------------------------------

  lemma DefinedIds(m: Logical)
    requires Valid(m)
    ensures Unique(Names(m.concepts) + PrimitiveIds(m)) && Unique(AnnotationIds(m))
    ensures forall id :: id in AnnotationIds(m) ==> !IsConcept(m, id)
  {
    hide AllReferences, AllAnnotations;
    FirstOccurrencesUnique(AllReferences(m));
    FilteredUnique(FirstOccurrences(AllReferences(m)), Undefined(m));
    FirstOccurrencesUnique(Filter(AllAnnotations(m), Undefined(m)));
    forall id ensures id in PrimitiveIds(m) ==> !IsConcept(m, id) {
      FilterMember(FirstOccurrences(AllReferences(m)), Undefined(m), id);
    }
    UniqueTogether(Names(m.concepts), PrimitiveIds(m));
    forall id ensures id in AnnotationIds(m) ==> !IsConcept(m, id) {
      FilterMember(Filter(AllAnnotations(m), Undefined(m)), Undefined(m), id);
      FilterMember(AllAnnotations(m), Undefined(m), id);
    }
  }

  /** The numbers given ahead are exact exactly when the types counted once are the first rows written. */
  lemma ExactIsPrefix(written: seq<string>, once: seq<string>)
    requires once == FirstOccurrences(written)
    ensures (forall id :: id in written ==> IndexOf(once, id) < |written| && written[IndexOf(once, id)] == id) <==> once <= written
  {
    FirstOccurrencesUnique(written);
    if once <= written {
      forall id | id in written ensures IndexOf(once, id) < |written| && written[IndexOf(once, id)] == id {
        assert once[IndexOf(once, id)] == id;
      }
    }
    if forall id :: id in written ==> IndexOf(once, id) < |written| && written[IndexOf(once, id)] == id {
      forall i | 0 <= i < |once| ensures once[i] == written[i] {
        FirstIndex(once, once[i], i);
        assert once[i] in written;
      }
    }
  }

  lemma PrefixSplits(a: seq<string>, b: seq<string>, c: seq<string>)
    ensures a + b <= a + c <==> b <= c
  {
    if a + b <= a + c {
      forall i | 0 <= i < |b| ensures b[i] == c[i] {
        assert (a + b)[|a| + i] == (a + c)[|a| + i];
      }
    }
  }

  /**
   Every row number given ahead is the row written later exactly when the annotation types that are also referenced as
   types come last: each of those gets a second row, which the numbers of the ones after it do not count.
   */
  lemma ForwardRowsIff(m: Logical)
    requires Valid(m)
    ensures ForwardRowsExact(m) <==> SharedComeLast(m)
  {
    hide PrimitiveIds, AnnotationIds, Valid;
    DefinedIds(m);
    var first, annotations := Names(m.concepts) + PrimitiveIds(m), AnnotationIds(m);
    assert Written(m) == first + annotations;
    FirstOccurrencesOfTwo(first, annotations);
    ExactIsPrefix(Written(m), FirstOccurrences(Written(m)));
    PrefixSplits(first, Filter(annotations, NotIn(first)), annotations);
    FilterIsPrefix(annotations, NotIn(first));
    assert forall id :: id in annotations ==> (id in first <==> id in PrimitiveIds(m));
    NumbersAreIndexes(m);
    assert forall i :: 0 <= i < |annotations| ==> annotations[i] in annotations;
  }

  lemma NumbersAreIndexes(m: Logical)
    ensures ForwardRowsExact(m) <==> forall id :: id in Written(m) ==> IndexOf(FirstOccurrences(Written(m)), id) < |Written(m)|
                                                                       && Written(m)[IndexOf(FirstOccurrences(Written(m)), id)] == id
  {
    hide Written;
    forall id | id in Written(m)
      ensures RowExact(m, id) <==> IndexOf(FirstOccurrences(Written(m)), id) < |Written(m)| && Written(m)[IndexOf(FirstOccurrences(Written(m)), id)] == id
    {
    }
  }

  /** Concept C has a field of type A and is annotated with A and B, neither of which is a concept. */
  function SharedFirst(): Logical {
    Logical("m", "1", "C", [("C", ConceptDef(None, [("f", FieldDef("A", One))], [], [Application("A", []), Application("B", [])]))], [], [])
  }

  lemma SharedTypes()
    ensures AllReferences(SharedFirst()) == ["A"] && AllAnnotations(SharedFirst()) == ["A", "B"]
  {
    var m := SharedFirst();
    var c := m.concepts[0];
    assert TypesOfConcept(c) == ["A"] && AnnotationsOfConcept(c) == ["A", "B"];
    assert m.concepts[1..] == [];
    assert FlatMap(m.concepts, TypesOfConcept) == TypesOfConcept(c) + [];
    assert FlatMap(m.concepts, AnnotationsOfConcept) == AnnotationsOfConcept(c) + [];
  }

  lemma SharedRows()
    ensures PrimitiveIds(SharedFirst()) == ["A"] && AnnotationIds(SharedFirst()) == ["A", "B"]
  {
    var m := SharedFirst();
    SharedTypes();
    assert Names(m.concepts) == ["C"] && "C"[0] != "A"[0] && "C"[0] != "B"[0] && "A"[0] != "B"[0];
    hide AllReferences, AllAnnotations, FirstOccurrences;
    UniqueStays(["A"]);
    UniqueStays(["A", "B"]);
    FilterAll(["A"], Undefined(m));
    FilterAll(["A", "B"], Undefined(m));
  }

  /** A gets a second row, which the number given to B does not count: references to B point at that row of A. */
  lemma SharedFirstIsWrong()
    ensures Valid(SharedFirst()) && !SharedComeLast(SharedFirst())
    ensures Written(SharedFirst()) == ["C", "A", "A", "B"] && RowNumber(SharedFirst(), "B") == 3
  {
    var m := SharedFirst();
    SharedRows();
    hide PrimitiveIds, AnnotationIds, FirstOccurrences, FlatMap, Filter;
    assert "A"[0] != "B"[0] && Names(m.concepts) == ["C"];
    FirstThree();
  }

  lemma FirstThree()
    ensures FirstOccurrences(["C", "A", "A", "B"]) == ["C", "A", "B"] && IndexOf(["C", "A", "B"], "B") == 2
  {
    assert "C"[0] != "A"[0] && "C"[0] != "B"[0] && "A"[0] != "B"[0];
    UniqueStays(["C", "A"]);
    assert ["C", "A", "A"][..2] == ["C", "A"] && ["C", "A", "A", "B"][..3] == ["C", "A", "A"];
    assert FirstOccurrences(["C", "A", "A"]) == ["C", "A"];
    assert ["C", "A", "B"][1..] == ["A", "B"] && ["A", "B"][1..] == ["B"];
  }

  // ---- qualified names ----------------------------------------------------------------------------------------

  /** The position of the last dot, -1 without one. */
  function LastDot(id: string): (i: int)
    ensures -1 <= i < |id| && (i >= 0 ==> id[i] == '.') && forall j :: i < j < |id| ==> id[j] != '.'
  {
    if id == "" then -1 else if id[|id| - 1] == '.' then |id| - 1 else LastDot(id[..|id| - 1])
  }

  /** The local name and the namespace; a dot at either end splits nothing. */
  function SplitQualified(id: string): (string, string) {
    var dot := LastDot(id);
    if dot <= 0 || dot == |id| - 1 then (id, "") else (id[dot + 1..], id[..dot])
  }

  function FullName(name: string, namespace: string): string {
    if namespace == "" then name else namespace + "." + name
  }

  /** A qualified id is its namespace, a dot and its local name. */
  lemma FullNameReadsBack(id: string)
    ensures FullName(SplitQualified(id).0, SplitQualified(id).1) == id
  {
    var dot := LastDot(id);
    if 0 < dot < |id| - 1 {
      assert id == id[..dot] + [id[dot]] + id[dot + 1..];
    }
  }
}
