/**
 Lowering a logical manifest to rows.

 Rows are appended in passes while references point ahead by the numbers given beforehand. `FromLogical` leaves tables that
 represent the manifest (`Represents`): a row for every type, taxonomy and class in order, each slice contiguous and exactly
 its owner's members, and all indices in range (`RowsOk`). A pinned value gets the row remembered under the text of its
 origin and field joined by a dot: its nearest declaring ancestor's field, if and only if no two fields join to one text
 (`PinsAreRightIff`).
 */
module Lowering {
  import opened Wrappers
  import opened Bytes
  import opened Heaps
  import opened LogicalManifests

  // ---- rows ---------------------------------------------------------------------------------------------------

  datatype TypeRow = TypeRow(name: nat, ns: nat, kind: nat, parent: nat, fieldStart: nat, fieldCount: nat, relStart: nat, relCount: nat,
                             annotStart: nat, annotCount: nat)
  datatype FieldRow = FieldRow(name: nat, typeRef: nat, card: nat)
  datatype RelRow = RelRow(name: nat, targetStart: nat, targetCount: nat, card: nat, inverse: nat, annotStart: nat, annotCount: nat)
  datatype TargetRow = TargetRow(typeRef: nat)
  datatype ClassRow = ClassRow(name: nat, typeRef: nat, taxonomy: nat, broader: nat, fixedStart: nat, fixedCount: nat, annotStart: nat, annotCount: nat)
  datatype FixedRow = FixedRow(field: nat, value: nat)
  datatype TaxonomyRow = TaxonomyRow(name: nat, representsStart: nat, representsCount: nat)
  datatype AnnotationRow = AnnotationRow(typeRef: nat, argStart: nat, argCount: nat)
  datatype ArgRow = ArgRow(name: nat, value: nat)

  /** The heaps and tables; a row is numbered from 1. */
  datatype Tables = Tables(strings: seq<string>, consts: seq<seq<byte>>, types: seq<TypeRow>, fields: seq<FieldRow>, rels: seq<RelRow>,
                           targets: seq<TargetRow>, classes: seq<ClassRow>, fixeds: seq<FixedRow>, taxonomies: seq<TaxonomyRow>,
                           annotations: seq<AnnotationRow>, args: seq<ArgRow>)

  const CONCEPT := 0
  const PRIMITIVE := 1
  const ANNOTATION_TYPE := 4

  function CardCode(card: Cardinality): nat {
    match card
    case One => 0
    case Optional => 1
    case Many => 2
    case OneOrMore => 3
  }

  /** A reference to a type row; 0 for a type without one. */
  function Coded(m: Logical, id: string): nat {
    2 * RowNumber(m, id)
  }

  function CodedOrNone(m: Logical, id: Option<string>): nat {
    if id.Some? then Coded(m, id.value) else 0
  }

  /** Heaps and tables are only ever added to. */
  predicate Grows(t: Tables, u: Tables) {
    && t.strings <= u.strings && t.consts <= u.consts && t.types <= u.types && t.fields <= u.fields && t.rels <= u.rels && t.targets <= u.targets
    && t.classes <= u.classes && t.fixeds <= u.fixeds && t.taxonomies <= u.taxonomies && t.annotations <= u.annotations && t.args <= u.args
  }

  // ---- what a row says ----------------------------------------------------------------------------------------

  predicate Text(t: Tables, i: nat, s: string) {
    i < |t.strings| && t.strings[i] == s
  }

  predicate ConstAt(t: Tables, i: nat, c: Const) {
    InRange(c) && i < |t.consts| && t.consts[i] == EncodeConst(c)
  }

  /** A slice is empty, or lies in its table. */
  predicate SliceIn(start: nat, count: nat, rows: nat) {
    if count == 0 then start == 0 else 1 <= start && start + count - 1 <= rows
  }

  predicate ArgIs(t: Tables, arg: (string, Const), row: ArgRow) {
    Text(t, row.name, arg.0) && ConstAt(t, row.value, arg.1)
  }

  predicate ArgsFrom(t: Tables, base: nat, args: Named<Const>, n: nat) {
    n <= |args| && base + n <= |t.args| && forall k :: 0 <= k < n ==> ArgIs(t, args[k], t.args[base + k])
  }

  /** The slice is exactly the arguments, in order. */
  predicate ArgsAt(t: Tables, start: nat, count: nat, args: Named<Const>) {
    count == |args| && SliceIn(start, count, |t.args|) && (count > 0 ==> ArgsFrom(t, start - 1, args, count))
  }

  predicate AnnotationIs(m: Logical, t: Tables, app: Application, row: AnnotationRow) {
    row.typeRef == Coded(m, app.annotation) && ArgsAt(t, row.argStart, row.argCount, app.args)
  }

  predicate AnnotationsFrom(m: Logical, t: Tables, base: nat, apps: seq<Application>, n: nat) {
    n <= |apps| && base + n <= |t.annotations| && forall k :: 0 <= k < n ==> AnnotationIs(m, t, apps[k], t.annotations[base + k])
  }

  predicate AnnotationsAt(m: Logical, t: Tables, start: nat, count: nat, apps: seq<Application>) {
    count == |apps| && SliceIn(start, count, |t.annotations|) && (count > 0 ==> AnnotationsFrom(m, t, start - 1, apps, count))
  }

  predicate FieldIs(m: Logical, t: Tables, field: (string, FieldDef), row: FieldRow) {
    Text(t, row.name, field.0) && row.typeRef == Coded(m, field.1.typeId) && row.card == CardCode(field.1.card)
  }

  predicate FieldsFrom(m: Logical, t: Tables, base: nat, fields: Named<FieldDef>, n: nat) {
    n <= |fields| && base + n <= |t.fields| && forall k :: 0 <= k < n ==> FieldIs(m, t, fields[k], t.fields[base + k])
  }

  predicate FieldsAt(m: Logical, t: Tables, start: nat, count: nat, fields: Named<FieldDef>) {
    count == |fields| && SliceIn(start, count, |t.fields|) && (count > 0 ==> FieldsFrom(m, t, start - 1, fields, count))
  }

  predicate TargetsFrom(m: Logical, t: Tables, base: nat, ids: seq<string>, n: nat) {
    n <= |ids| && base + n <= |t.targets| && forall k :: 0 <= k < n ==> t.targets[base + k].typeRef == Coded(m, ids[k])
  }

  predicate TargetsAt(m: Logical, t: Tables, start: nat, count: nat, ids: seq<string>) {
    count == |ids| && SliceIn(start, count, |t.targets|) && (count > 0 ==> TargetsFrom(m, t, start - 1, ids, count))
  }

  predicate RelIs(m: Logical, t: Tables, rel: (string, RelDef), row: RelRow) {
    && Text(t, row.name, rel.0) && row.card == CardCode(rel.1.card)
    && (if rel.1.inverse.Some? then Text(t, row.inverse, rel.1.inverse.value) else row.inverse == 0)
    && TargetsAt(m, t, row.targetStart, row.targetCount, rel.1.targets)
    && AnnotationsAt(m, t, row.annotStart, row.annotCount, rel.1.annotations)
  }

  predicate RelsFrom(m: Logical, t: Tables, base: nat, rels: Named<RelDef>, n: nat) {
    n <= |rels| && base + n <= |t.rels| && forall k :: 0 <= k < n ==> RelIs(m, t, rels[k], t.rels[base + k])
  }

  predicate RelsAt(m: Logical, t: Tables, start: nat, count: nat, rels: Named<RelDef>) {
    count == |rels| && SliceIn(start, count, |t.rels|) && (count > 0 ==> RelsFrom(m, t, start - 1, rels, count))
  }

  predicate Titled(t: Tables, id: string, row: TypeRow) {
    Text(t, row.name, SplitQualified(id).0) && Text(t, row.ns, SplitQualified(id).1)
  }

  predicate ConceptIs(m: Logical, t: Tables, c: (string, ConceptDef), row: TypeRow) {
    && Titled(t, c.0, row) && row.kind == CONCEPT && row.parent == CodedOrNone(m, c.1.parent)
    && FieldsAt(m, t, row.fieldStart, row.fieldCount, c.1.fields)
    && RelsAt(m, t, row.relStart, row.relCount, c.1.rels)
    && AnnotationsAt(m, t, row.annotStart, row.annotCount, c.1.annotations)
  }

  /** A type without members. */
  predicate BareIs(t: Tables, id: string, kind: nat, row: TypeRow) {
    Titled(t, id, row) && row == TypeRow(row.name, row.ns, kind, 0, 0, 0, 0, 0, 0, 0)
  }

  predicate ConceptsFrom(m: Logical, t: Tables, n: nat) {
    n <= |m.concepts| && n <= |t.types| && forall i :: 0 <= i < n ==> ConceptIs(m, t, m.concepts[i], t.types[i])
  }

  predicate BaresFrom(t: Tables, base: nat, ids: seq<string>, kind: nat, n: nat) {
    n <= |ids| && base + n <= |t.types| && forall i :: 0 <= i < n ==> BareIs(t, ids[i], kind, t.types[base + i])
  }

  predicate TaxonomyIs(m: Logical, t: Tables, taxonomy: (string, seq<string>), row: TaxonomyRow) {
    Text(t, row.name, taxonomy.0) && TargetsAt(m, t, row.representsStart, row.representsCount, taxonomy.1)
  }

  predicate TaxonomiesFrom(m: Logical, t: Tables, n: nat) {
    n <= |m.taxonomies| && n == |t.taxonomies| && forall i :: 0 <= i < n ==> TaxonomyIs(m, t, m.taxonomies[i], t.taxonomies[i])
  }

  // ---- the rows of fields -------------------------------------------------------------------------------------

  /** A declared field: its concept and its name. */
  type FieldKey = (string, string)

  function OwnKeys(c: (string, ConceptDef)): (r: seq<FieldKey>)
    ensures |r| == |c.1.fields|
  {
    seq(|c.1.fields|, k requires 0 <= k < |c.1.fields| => (c.0, c.1.fields[k].0))
  }

  /** The fields the first n concepts declare, in the order of their rows. */
  function DeclaredKeys(m: Logical, n: nat): seq<FieldKey>
    requires n <= |m.concepts|
  {
    if n == 0 then [] else DeclaredKeys(m, n - 1) + OwnKeys(m.concepts[n - 1])
  }

  function AllKeys(m: Logical): seq<FieldKey> {
    DeclaredKeys(m, |m.concepts|)
  }

  /** The text a field's row is remembered under. */
  function Joined(key: FieldKey): string {
    key.0 + "." + key.1
  }

  /** The rows remembered: of two fields with one text the later stays. */
  function RowsFor(keys: seq<FieldKey>): map<string, nat> {
    if keys == [] then map[] else RowsFor(keys[..|keys| - 1])[Joined(keys[|keys| - 1]) := |keys|]
  }

  function RowUnder(rows: map<string, nat>, text: string): nat {
    if text in rows then rows[text] else 0
  }

  /** The row written for a pinned value: what is remembered under the text of its origin and field; 0 without an origin. */
  function PinnedRow(m: Logical, concept: string, field: string): nat {
    match OriginOf(m, concept, field)
    case None => 0
    case Some(origin) => RowUnder(RowsFor(AllKeys(m)), Joined((origin, field)))
  }

  predicate FixedIs(m: Logical, t: Tables, concept: string, pinned: (string, Const), row: FixedRow) {
    row.field == PinnedRow(m, concept, pinned.0) && ConstAt(t, row.value, pinned.1)
  }

  /** The field slices follow one another in the order of the concepts. */
  predicate FieldsInOrder(m: Logical, t: Tables, n: nat) {
    && n <= |m.concepts| && n <= |t.types|
    && forall i :: 0 <= i < n && m.concepts[i].1.fields != [] ==> t.types[i].fieldStart == |DeclaredKeys(m, i)| + 1
  }

  predicate FixedsFrom(m: Logical, t: Tables, base: nat, concept: string, pinned: Named<Const>, n: nat) {
    n <= |pinned| && base + n <= |t.fixeds| && forall k :: 0 <= k < n ==> FixedIs(m, t, concept, pinned[k], t.fixeds[base + k])
  }

  predicate FixedsAt(m: Logical, t: Tables, start: nat, count: nat, concept: string, pinned: Named<Const>) {
    count == |pinned| && SliceIn(start, count, |t.fixeds|) && (count > 0 ==> FixedsFrom(m, t, start - 1, concept, pinned, count))
  }

  function RowOrNone<T>(named: Named<T>, name: Option<string>): nat {
    if name.Some? && Position(named, name.value) < |named| then Position(named, name.value) + 1 else 0
  }

  predicate ClassIs(m: Logical, t: Tables, c: (string, ClassDef), row: ClassRow) {
    && Text(t, row.name, c.0) && row.typeRef == Coded(m, c.1.concept)
    && row.taxonomy == RowOrNone(m.taxonomies, c.1.taxonomy) && row.broader == RowOrNone(m.classes, c.1.broader)
    && FixedsAt(m, t, row.fixedStart, row.fixedCount, c.1.concept, c.1.pinned)
    && AnnotationsAt(m, t, row.annotStart, row.annotCount, c.1.annotations)
  }

  predicate ClassesFrom(m: Logical, t: Tables, n: nat) {
    n <= |m.classes| && n == |t.classes| && forall i :: 0 <= i < n ==> ClassIs(m, t, m.classes[i], t.classes[i])
  }

  /** The tables are those of the manifest. */
  predicate Represents(m: Logical, t: Tables) {
    && |t.types| == |Written(m)| && ConceptsFrom(m, t, |m.concepts|) && FieldsInOrder(m, t, |m.concepts|)
    && BaresFrom(t, |m.concepts|, PrimitiveIds(m), PRIMITIVE, |PrimitiveIds(m)|)
    && BaresFrom(t, |m.concepts| + |PrimitiveIds(m)|, AnnotationIds(m), ANNOTATION_TYPE, |AnnotationIds(m)|)
    && TaxonomiesFrom(m, t, |m.taxonomies|) && ClassesFrom(m, t, |m.classes|)
  }

  // ---- indices in range ---------------------------------------------------------------------------------------

  predicate RefOk(m: Logical, typeRef: nat) {
    typeRef % 2 == 0 && typeRef <= 2 * |Written(m)|
  }

  predicate TypeOk(m: Logical, t: Tables, r: TypeRow) {
    && r.name < |t.strings| && r.ns < |t.strings| && r.kind <= 9 && RefOk(m, r.parent)
    && SliceIn(r.fieldStart, r.fieldCount, |t.fields|) && SliceIn(r.relStart, r.relCount, |t.rels|) && SliceIn(r.annotStart, r.annotCount, |t.annotations|)
  }

  predicate FieldOk(m: Logical, t: Tables, r: FieldRow) {
    r.name < |t.strings| && RefOk(m, r.typeRef) && r.card <= 3
  }

  predicate RelOk(t: Tables, r: RelRow) {
    && r.name < |t.strings| && r.card <= 3 && r.inverse < |t.strings|
    && SliceIn(r.targetStart, r.targetCount, |t.targets|) && SliceIn(r.annotStart, r.annotCount, |t.annotations|)
  }

  predicate ClassOk(m: Logical, t: Tables, r: ClassRow) {
    && r.name < |t.strings| && RefOk(m, r.typeRef) && r.taxonomy <= |m.taxonomies| && r.broader <= |m.classes|
    && SliceIn(r.fixedStart, r.fixedCount, |t.fixeds|) && SliceIn(r.annotStart, r.annotCount, |t.annotations|)
  }

  predicate FixedOk(t: Tables, r: FixedRow) {
    r.field <= |t.fields| && r.value < |t.consts|
  }

  predicate TaxonomyOk(t: Tables, r: TaxonomyRow) {
    r.name < |t.strings| && SliceIn(r.representsStart, r.representsCount, |t.targets|)
  }

  predicate AnnotationOk(m: Logical, t: Tables, r: AnnotationRow) {
    RefOk(m, r.typeRef) && SliceIn(r.argStart, r.argCount, |t.args|)
  }

  predicate ArgOk(t: Tables, r: ArgRow) {
    r.name < |t.strings| && r.value < |t.consts|
  }

  /** A blob is empty or starts with a known tag. */
  predicate Tagged(blob: seq<byte>) {
    blob == [] || blob[0] <= TAG_STR
  }

  /** Every index of every row from the given tables on is in range, and every constant has a known tag. */
  predicate RowsOkFrom(m: Logical, before: Tables, t: Tables) {
    && (forall i :: |before.consts| <= i < |t.consts| ==> Tagged(t.consts[i]))
    && (forall i :: |before.types| <= i < |t.types| ==> TypeOk(m, t, t.types[i]))
    && (forall i :: |before.fields| <= i < |t.fields| ==> FieldOk(m, t, t.fields[i]))
    && (forall i :: |before.rels| <= i < |t.rels| ==> RelOk(t, t.rels[i]))
    && (forall i :: |before.targets| <= i < |t.targets| ==> RefOk(m, t.targets[i].typeRef))
    && (forall i :: |before.classes| <= i < |t.classes| ==> ClassOk(m, t, t.classes[i]))
    && (forall i :: |before.fixeds| <= i < |t.fixeds| ==> FixedOk(t, t.fixeds[i]))
    && (forall i :: |before.taxonomies| <= i < |t.taxonomies| ==> TaxonomyOk(t, t.taxonomies[i]))
    && (forall i :: |before.annotations| <= i < |t.annotations| ==> AnnotationOk(m, t, t.annotations[i]))
    && (forall i :: |before.args| <= i < |t.args| ==> ArgOk(t, t.args[i]))
  }

  function Nothing(): Tables {
    Tables([""], [[]], [], [], [], [], [], [], [], [], [])
  }

  predicate RowsOk(m: Logical, t: Tables) {
    RowsOkFrom(m, Nothing(), t)
  }

  lemma RowsStayOk(m: Logical, t: Tables, u: Tables)
    requires Grows(t, u) && RowsOk(m, t) && RowsOkFrom(m, t, u)
    ensures RowsOk(m, u)
  {
    hide RefOk;
    forall i | 1 <= i < |u.consts| ensures Tagged(u.consts[i]) {
      assert i < |t.consts| ==> Tagged(t.consts[i]);
    }
    forall i | 0 <= i < |u.types| ensures TypeOk(m, u, u.types[i]) {
      assert i < |t.types| ==> TypeOk(m, t, t.types[i]);
    }
    forall i | 0 <= i < |u.fields| ensures FieldOk(m, u, u.fields[i]) {
      assert i < |t.fields| ==> FieldOk(m, t, t.fields[i]);
    }
    forall i | 0 <= i < |u.rels| ensures RelOk(u, u.rels[i]) {
      assert i < |t.rels| ==> RelOk(t, t.rels[i]);
    }
    forall i | 0 <= i < |u.targets| ensures RefOk(m, u.targets[i].typeRef) {
      assert i < |t.targets| ==> RefOk(m, t.targets[i].typeRef);
    }
    forall i | 0 <= i < |u.classes| ensures ClassOk(m, u, u.classes[i]) {
      assert i < |t.classes| ==> ClassOk(m, t, t.classes[i]);
    }
    forall i | 0 <= i < |u.fixeds| ensures FixedOk(u, u.fixeds[i]) {
      assert i < |t.fixeds| ==> FixedOk(t, t.fixeds[i]);
    }
    forall i | 0 <= i < |u.taxonomies| ensures TaxonomyOk(u, u.taxonomies[i]) {
      assert i < |t.taxonomies| ==> TaxonomyOk(t, t.taxonomies[i]);
    }
    forall i | 0 <= i < |u.annotations| ensures AnnotationOk(m, u, u.annotations[i]) {
      assert i < |t.annotations| ==> AnnotationOk(m, t, t.annotations[i]);
    }
    forall i | 0 <= i < |u.args| ensures ArgOk(u, u.args[i]) {
      assert i < |t.args| ==> ArgOk(t, t.args[i]);
    }
  }

  lemma CodedIsOk(m: Logical, id: string)
    ensures RefOk(m, Coded(m, id))
  {
    FirstOccurrencesUnique(Written(m));
  }

  // ---- what is written stays ----------------------------------------------------------------------------------

  lemma GrowsOn(t: Tables, u: Tables, v: Tables)
    requires Grows(t, u) && Grows(u, v)
    ensures Grows(t, v)
  {
  }

  lemma ArgsStay(t: Tables, u: Tables, base: nat, args: Named<Const>, n: nat)
    requires Grows(t, u) && ArgsFrom(t, base, args, n)
    ensures ArgsFrom(u, base, args, n)
  {
    hide EncodeConst;
    forall k | 0 <= k < n ensures ArgIs(u, args[k], u.args[base + k]) {
      assert ArgIs(t, args[k], t.args[base + k]);
    }
  }

  lemma AnnotationsStay(m: Logical, t: Tables, u: Tables, base: nat, apps: seq<Application>, n: nat)
    requires Grows(t, u) && AnnotationsFrom(m, t, base, apps, n)
    ensures AnnotationsFrom(m, u, base, apps, n)
  {
    hide ArgsFrom, Coded;
    forall k | 0 <= k < n ensures AnnotationIs(m, u, apps[k], u.annotations[base + k]) {
      var row := t.annotations[base + k];
      assert AnnotationIs(m, t, apps[k], row);
      if row.argCount > 0 {
        ArgsStay(t, u, row.argStart - 1, apps[k].args, row.argCount);
      }
    }
  }

  lemma FieldsStay(m: Logical, t: Tables, u: Tables, base: nat, fields: Named<FieldDef>, n: nat)
    requires Grows(t, u) && FieldsFrom(m, t, base, fields, n)
    ensures FieldsFrom(m, u, base, fields, n)
  {
    hide Coded;
    forall k | 0 <= k < n ensures FieldIs(m, u, fields[k], u.fields[base + k]) {
      assert FieldIs(m, t, fields[k], t.fields[base + k]);
    }
  }

  lemma RelStays(m: Logical, t: Tables, u: Tables, rel: (string, RelDef), row: RelRow)
    requires Grows(t, u) && RelIs(m, t, rel, row)
    ensures RelIs(m, u, rel, row)
  {
    hide Coded, AnnotationsFrom;
    if row.annotCount > 0 {
      AnnotationsStay(m, t, u, row.annotStart - 1, rel.1.annotations, row.annotCount);
    }
  }

  lemma RelsStay(m: Logical, t: Tables, u: Tables, base: nat, rels: Named<RelDef>, n: nat)
    requires Grows(t, u) && RelsFrom(m, t, base, rels, n)
    ensures RelsFrom(m, u, base, rels, n)
  {
    hide RelIs;
    forall k | 0 <= k < n ensures RelIs(m, u, rels[k], u.rels[base + k]) {
      RelStays(m, t, u, rels[k], t.rels[base + k]);
    }
  }

  lemma ConceptStays(m: Logical, t: Tables, u: Tables, c: (string, ConceptDef), row: TypeRow)
    requires Grows(t, u) && ConceptIs(m, t, c, row)
    ensures ConceptIs(m, u, c, row)
  {
    hide AnnotationsFrom, FieldsFrom, RelsFrom, CodedOrNone, SplitQualified;
    if row.fieldCount > 0 {
      FieldsStay(m, t, u, row.fieldStart - 1, c.1.fields, row.fieldCount);
    }
    if row.relCount > 0 {
      RelsStay(m, t, u, row.relStart - 1, c.1.rels, row.relCount);
    }
    if row.annotCount > 0 {
      AnnotationsStay(m, t, u, row.annotStart - 1, c.1.annotations, row.annotCount);
    }
  }

  lemma ConceptsStay(m: Logical, t: Tables, u: Tables, n: nat)
    requires Grows(t, u) && ConceptsFrom(m, t, n)
    ensures ConceptsFrom(m, u, n)
  {
    hide ConceptIs;
    forall i | 0 <= i < n ensures ConceptIs(m, u, m.concepts[i], u.types[i]) {
      ConceptStays(m, t, u, m.concepts[i], t.types[i]);
    }
  }

  lemma BaresStay(t: Tables, u: Tables, base: nat, ids: seq<string>, kind: nat, n: nat)
    requires Grows(t, u) && BaresFrom(t, base, ids, kind, n)
    ensures BaresFrom(u, base, ids, kind, n)
  {
    hide SplitQualified;
    forall i | 0 <= i < n ensures BareIs(u, ids[i], kind, u.types[base + i]) {
      assert BareIs(t, ids[i], kind, t.types[base + i]);
    }
  }

  lemma TaxonomiesStay(m: Logical, t: Tables, u: Tables, n: nat)
    requires Grows(t, u) && TaxonomiesFrom(m, t, n) && u.taxonomies == t.taxonomies
    ensures TaxonomiesFrom(m, u, n)
  {
    hide Coded;
    forall i | 0 <= i < n ensures TaxonomyIs(m, u, m.taxonomies[i], u.taxonomies[i]) {
      assert TaxonomyIs(m, t, m.taxonomies[i], t.taxonomies[i]);
    }
  }

  lemma FixedsStay(m: Logical, t: Tables, u: Tables, base: nat, concept: string, pinned: Named<Const>, n: nat)
    requires Grows(t, u) && |t.types| >= |m.concepts| && FixedsFrom(m, t, base, concept, pinned, n)
    ensures FixedsFrom(m, u, base, concept, pinned, n)
  {
    hide PinnedRow, EncodeConst;
    forall k | 0 <= k < n ensures FixedIs(m, u, concept, pinned[k], u.fixeds[base + k]) {
      assert FixedIs(m, t, concept, pinned[k], t.fixeds[base + k]);
    }
  }

  lemma ClassStays(m: Logical, t: Tables, u: Tables, c: (string, ClassDef), row: ClassRow)
    requires Grows(t, u) && |t.types| >= |m.concepts| && ClassIs(m, t, c, row)
    ensures ClassIs(m, u, c, row)
  {
    hide Coded, AnnotationsFrom, FixedsFrom, RowOrNone;
    if row.fixedCount > 0 {
      FixedsStay(m, t, u, row.fixedStart - 1, c.1.concept, c.1.pinned, row.fixedCount);
    }
    if row.annotCount > 0 {
      AnnotationsStay(m, t, u, row.annotStart - 1, c.1.annotations, row.annotCount);
    }
  }

  // ---- the writer ---------------------------------------------------------------------------------------------

  predicate ConstsInRange(named: Named<Const>) {
    forall i :: 0 <= i < |named| ==> InRange(named[i].1)
  }

  predicate AppsInRange(apps: seq<Application>) {
    forall i :: 0 <= i < |apps| ==> ConstsInRange(apps[i].args)
  }

  predicate RelsInRange(rels: Named<RelDef>) {
    forall i :: 0 <= i < |rels| ==> AppsInRange(rels[i].1.annotations)
  }

  lemma TaggedConst(c: Const)
    requires InRange(c)
    ensures Tagged(EncodeConst(c))
  {
  }

  /** Every number of the manifest is a double or a 64-bit integer. */
  predicate InRangeThroughout(m: Logical) {
    && (forall i :: 0 <= i < |m.concepts| ==> AppsInRange(m.concepts[i].1.annotations) && RelsInRange(m.concepts[i].1.rels))
    && (forall i :: 0 <= i < |m.classes| ==> AppsInRange(m.classes[i].1.annotations) && ConstsInRange(m.classes[i].1.pinned))
  }

  /** The row numbers of ids, in the order they first occur. */
  method NumberRows(ids: seq<string>) returns (rows: map<string, nat>)
    ensures forall id :: id in rows <==> id in ids
    ensures forall id :: id in rows ==> rows[id] == IndexOf(FirstOccurrences(ids), id) + 1
  {
    rows := map[];
    var next := 0;
    for i := 0 to |ids|
      invariant next == |FirstOccurrences(ids[..i])|
      invariant forall id :: id in rows <==> id in ids[..i]
      invariant forall id :: id in rows ==> rows[id] == IndexOf(FirstOccurrences(ids[..i]), id) + 1
    {
      assert ids[..i + 1][..i] == ids[..i];
      assert ids[..i + 1] == ids[..i] + [ids[i]];
      ghost var before := FirstOccurrences(ids[..i]);
      if ids[i] !in rows {
        forall id | id in before + [ids[i]] ensures IndexOf(before + [ids[i]], id) == if id in before then IndexOf(before, id) else |before| {
          IndexOnMore(before, ids[i], id);
        }
        next := next + 1;
        rows := rows[ids[i] := next];
      }
    }
    assert ids[..|ids|] == ids;
  }

  lemma {:induction false} IndexOnMore(s: seq<string>, x: string, y: string)
    requires x !in s
    ensures IndexOf(s + [x], y) == if y in s || y != x then (if y in s then IndexOf(s, y) else |s| + 1) else |s|
  {
    if s == [] {
      assert [] + [x] == [x] && [x][1..] == [];
    } else {
      assert (s + [x])[1..] == s[1..] + [x];
      IndexOnMore(s[1..], x, y);
    }
  }

  /** What is remembered of the fields of the first n concepts. */
  predicate FieldRowsOk(m: Logical, t: Tables, rows: map<string, nat>, n: nat) {
    n <= |m.concepts| && rows == RowsFor(DeclaredKeys(m, n)) && |DeclaredKeys(m, n)| <= |t.fields|
  }

  class ManifestWriter {
    const m: Logical
    const typeRows: map<string, nat>
    const taxonomyRows: map<string, nat>
    const classRows: map<string, nat>
    var t: Tables
    var fieldRows: map<string, nat>

    ghost predicate Numbered()
    {
      && (forall id :: id in typeRows <==> id in Written(m))
      && (forall id :: id in typeRows ==> typeRows[id] == RowNumber(m, id))
      && (forall id :: id in taxonomyRows <==> id in Names(m.taxonomies))
      && (forall id :: id in taxonomyRows ==> taxonomyRows[id] == Position(m.taxonomies, id) + 1)
      && (forall id :: id in classRows <==> id in Names(m.classes))
      && (forall id :: id in classRows ==> classRows[id] == Position(m.classes, id) + 1)
    }

    ghost predicate Ok()
      reads this
    {
      Numbered() && RowsOk(m, t) && t.strings != [] && t.consts != []
    }

    constructor (manifest: Logical, types: map<string, nat>, taxonomies: map<string, nat>, classes: map<string, nat>)
      ensures m == manifest && typeRows == types && taxonomyRows == taxonomies && classRows == classes
      ensures t == Nothing() && fieldRows == map[]
    {
      m, typeRows, taxonomyRows, classRows, t, fieldRows := manifest, types, taxonomies, classes, Nothing(), map[];
    }

    function Code(id: string): nat
    {
      if id in typeRows then 2 * typeRows[id] else 0
    }

    lemma CodeIsCoded(id: string)
      requires Numbered()
      ensures Code(id) == Coded(m, id) && RefOk(m, Coded(m, id))
    {
      CodedIsOk(m, id);
    }

    method InternString(s: string) returns (i: nat)
      requires Ok()
      modifies `t
      ensures Ok() && Grows(old(t), t) && t == old(t).(strings := t.strings) && Text(t, i, s)
    {
      hide RowsOkFrom;
      i := IndexOf(t.strings, s);
      ghost var before := t;
      if i == |t.strings| {
        t := t.(strings := t.strings + [s]);
      }
      NoNewRows(before);
    }

    method InternConst(c: Const) returns (i: nat)
      requires Ok() && InRange(c)
      modifies `t
      ensures Ok() && Grows(old(t), t) && t == old(t).(consts := t.consts) && ConstAt(t, i, c)
    {
      hide RowsOkFrom, EncodeConst;
      var blob := EncodeConst(c);
      TaggedConst(c);
      i := IndexOf(t.consts, blob);
      ghost var before := t;
      if i == |t.consts| {
        t := t.(consts := t.consts + [blob]);
      }
      NoNewRows(before);
    }

    lemma NoNewRows(before: Tables)
      requires forall i :: |before.consts| <= i < |t.consts| ==> Tagged(t.consts[i])
      requires Grows(before, t) && RowsOk(m, before) && t == before.(strings := t.strings, consts := t.consts)
      ensures RowsOk(m, t)
    {
      RowsStayOk(m, before, t);
    }

    /** The arguments of one application. */
    method AddArgs(args: Named<Const>) returns (start: nat, count: nat)
      requires Ok() && ConstsInRange(args)
      modifies `t
      ensures Ok() && Grows(old(t), t) && t == old(t).(strings := t.strings, consts := t.consts, args := t.args)
      ensures ArgsAt(t, start, count, args)
    {
      hide EncodeConst, RowsOk, Numbered, ArgIs;
      var base := |t.args|;
      start := if |args| > 0 then base + 1 else 0;
      count := |args|;
      for k := 0 to |args|
        invariant Ok() && Grows(old(t), t) && t == old(t).(strings := t.strings, consts := t.consts, args := t.args)
        invariant |t.args| == base + k && ArgsFrom(t, base, args, k)
      {
        ghost var before := t;
        AddArg(args[k]);
        ArgsStay(before, t, base, args, k);
        GrowsOn(old(t), before, t);
      }
    }

    method AddArg(arg: (string, Const))
      requires Ok() && InRange(arg.1)
      modifies `t
      ensures Ok() && Grows(old(t), t) && t == old(t).(strings := t.strings, consts := t.consts, args := t.args)
      ensures |t.args| == |old(t.args)| + 1 && ArgIs(t, arg, t.args[|old(t.args)|])
    {
      hide EncodeConst, RowsOk, Numbered;
      var name := InternString(arg.0);
      var value := InternConst(arg.1);
      ghost var before := t;
      t := t.(args := t.args + [ArgRow(name, value)]);
      assert RowsOkFrom(m, before, t);
      RowsStayOk(m, before, t);
    }

    /** The applications of one owner: its slice of the annotation table. */
    method PackAnnotations(apps: seq<Application>) returns (start: nat, count: nat)
      requires Ok() && AppsInRange(apps)
      modifies `t
      ensures Ok() && Grows(old(t), t)
      ensures t == old(t).(strings := t.strings, consts := t.consts, annotations := t.annotations, args := t.args)
      ensures AnnotationsAt(m, t, start, count, apps)
    {
      hide RowsOk, Numbered, AnnotationIs;
      var base := |t.annotations|;
      start := if |apps| > 0 then base + 1 else 0;
      count := |apps|;
      for k := 0 to |apps|
        invariant Ok() && Grows(old(t), t)
        invariant t == old(t).(strings := t.strings, consts := t.consts, annotations := t.annotations, args := t.args)
        invariant |t.annotations| == base + k && AnnotationsFrom(m, t, base, apps, k)
      {
        ghost var before := t;
        AddAnnotation(apps[k]);
        AnnotationsStay(m, before, t, base, apps, k);
        GrowsOn(old(t), before, t);
      }
    }

    method AddAnnotation(app: Application)
      requires Ok() && ConstsInRange(app.args)
      modifies `t
      ensures Ok() && Grows(old(t), t)
      ensures t == old(t).(strings := t.strings, consts := t.consts, annotations := t.annotations, args := t.args)
      ensures |t.annotations| == |old(t.annotations)| + 1 && AnnotationIs(m, t, app, t.annotations[|old(t.annotations)|])
    {
      hide RowsOk, Numbered, ArgIs, ArgsAt, Coded, RefOk;
      var argStart, argCount := AddArgs(app.args);
      CodeIsCoded(app.annotation);
      ghost var before := t;
      var row := AnnotationRow(Code(app.annotation), argStart, argCount);
      AnnotationAdded(before, row, app);
      t := t.(annotations := t.annotations + [row]);
    }

    lemma AnnotationAdded(before: Tables, row: AnnotationRow, app: Application)
      requires RowsOk(m, before) && RefOk(m, row.typeRef) && AnnotationIs(m, before, app, row)
      ensures var after := before.(annotations := before.annotations + [row]);
              RowsOk(m, after) && Grows(before, after) && AnnotationIs(m, after, app, row)
    {
      hide RowsOk, Coded, RefOk, ArgIs;
      var after := before.(annotations := before.annotations + [row]);
      assert RowsOkFrom(m, before, after);
      RowsStayOk(m, before, after);
      if row.argCount > 0 {
        ArgsStay(before, after, row.argStart - 1, app.args, row.argCount);
      }
    }

    method AddTargets(ids: seq<string>) returns (start: nat, count: nat)
      requires Ok()
      modifies `t
      ensures Ok() && Grows(old(t), t) && t == old(t).(targets := t.targets) && TargetsAt(m, t, start, count, ids)
    {
      hide RowsOk, Numbered, Coded, Grows;
      var base := |t.targets|;
      start := if |ids| > 0 then base + 1 else 0;
      count := |ids|;
      GrowsSame(t);
      for k := 0 to |ids|
        invariant Ok() && Grows(old(t), t) && t == old(t).(targets := t.targets)
        invariant |t.targets| == base + k && TargetsFrom(m, t, base, ids, k)
      {
        ghost var before := t;
        AddTarget(ids[k]);
        GrowsOn(old(t), before, t);
      }
    }

    method AddTarget(id: string)
      requires Ok()
      modifies `t
      ensures Ok() && Grows(old(t), t) && t == old(t).(targets := old(t).targets + [TargetRow(Coded(m, id))])
    {
      hide RowsOk, Numbered, Coded;
      CodeIsCoded(id);
      ghost var before := t;
      t := t.(targets := t.targets + [TargetRow(Code(id))]);
      assert RowsOkFrom(m, before, t);
      RowsStayOk(m, before, t);
    }

    /** The fields a concept declares; their rows are remembered, for the values pinned to them, under concept and name joined by a dot. */
    method AddFields(c: (string, ConceptDef), ghost keys: seq<FieldKey>) returns (start: nat, count: nat)
      requires Ok() && fieldRows == RowsFor(keys) && |t.fields| == |keys|
      modifies `t, `fieldRows
      ensures Ok() && Grows(old(t), t) && t == old(t).(strings := t.strings, fields := t.fields)
      ensures FieldsAt(m, t, start, count, c.1.fields) && (c.1.fields != [] ==> start == |keys| + 1)
      ensures fieldRows == RowsFor(keys + OwnKeys(c)) && |t.fields| == |keys + OwnKeys(c)|
    {
      hide RowsOk, Numbered, FieldIs, Grows, RowsFor, Coded;
      GrowsSame(t);
      var fields := c.1.fields;
      var base := |t.fields|;
      start := if |fields| > 0 then base + 1 else 0;
      count := |fields|;
      assert keys + OwnKeys(c)[..0] == keys;
      for k := 0 to |fields|
        invariant Ok() && Grows(old(t), t) && t == old(t).(strings := t.strings, fields := t.fields)
        invariant |t.fields| == base + k && FieldsFrom(m, t, base, fields, k)
        invariant fieldRows == RowsFor(keys + OwnKeys(c)[..k])
      {
        ghost var before := t;
        AddField(fields[k]);
        FieldsStay(m, before, t, base, fields, k);
        GrowsOn(old(t), before, t);
        RememberedMore(keys, OwnKeys(c), k);
        fieldRows := fieldRows[c.0 + "." + fields[k].0 := |t.fields|];
      }
      assert OwnKeys(c)[..|fields|] == OwnKeys(c);
    }

    method AddField(field: (string, FieldDef))
      requires Ok()
      modifies `t
      ensures Ok() && Grows(old(t), t) && t == old(t).(strings := t.strings, fields := t.fields)
      ensures |t.fields| == |old(t.fields)| + 1 && FieldIs(m, t, field, t.fields[|old(t.fields)|])
    {
      hide RowsOk, Numbered, Coded;
      var name := InternString(field.0);
      CodeIsCoded(field.1.typeId);
      ghost var before := t;
      t := t.(fields := t.fields + [FieldRow(name, Code(field.1.typeId), CardCode(field.1.card))]);
      assert RowsOkFrom(m, before, t);
      RowsStayOk(m, before, t);
    }

    method AddRels(rels: Named<RelDef>) returns (start: nat, count: nat)
      requires Ok() && RelsInRange(rels)
      modifies `t
      ensures Ok() && Grows(old(t), t) && t == WithRels(old(t), t) && RelsAt(m, t, start, count, rels)
    {
      hide RowsOk, Numbered, RelIs;
      var base := |t.rels|;
      start := if |rels| > 0 then base + 1 else 0;
      count := |rels|;
      for k := 0 to |rels|
        invariant Ok() && Grows(old(t), t) && t == WithRels(old(t), t) && |t.rels| == base + k && RelsFrom(m, t, base, rels, k)
      {
        ghost var before := t;
        AddRel(rels[k]);
        RelsStay(m, before, t, base, rels, k);
        GrowsOn(old(t), before, t);
      }
    }

    method AddRel(rel: (string, RelDef))
      requires Ok() && AppsInRange(rel.1.annotations)
      modifies `t
      ensures Ok() && Grows(old(t), t) && t == WithRels(old(t), t)
      ensures |t.rels| == |old(t.rels)| + 1 && RelIs(m, t, rel, t.rels[|old(t.rels)|])
    {
      hide RowsOk, Numbered, AnnotationsAt, TargetsAt, AppsInRange, Text, Grows, RelIs;
      ghost var t0 := t;
      var targetStart, targetCount := AddTargets(rel.1.targets);
      ghost var t1 := t;
      var annotStart, annotCount := PackAnnotations(rel.1.annotations);
      ghost var t2 := t;
      var name := InternString(rel.0);
      ghost var t3 := t;
      var inverse := 0;
      if rel.1.inverse.Some? {
        inverse := InternString(rel.1.inverse.value);
      }
      GrowsSame(t3);
      ghost var t4 := t;
      var row := RelRow(name, targetStart, targetCount, CardCode(rel.1.card), inverse, annotStart, annotCount);
      t := t.(rels := t.rels + [row]);
      RelWritten(m, t1, t2, t3, t4, t, rel, row);
      GrowsThrough(t0, t1, t2, t3, t4);
      GrowsOn(t0, t4, t);
    }

    /** A concept with its fields, relationships and annotations. */
    method AddConcept(i: nat)
      requires Ok() && i < |m.concepts| == |Names(m.concepts)| && i == |t.types|
      requires fieldRows == RowsFor(DeclaredKeys(m, i)) && |t.fields| == |DeclaredKeys(m, i)|
      requires RelsInRange(m.concepts[i].1.rels) && AppsInRange(m.concepts[i].1.annotations)
      modifies `t, `fieldRows
      ensures Ok() && Grows(old(t), t) && |t.types| == i + 1 && ConceptIs(m, t, m.concepts[i], t.types[i])
      ensures t.classes == old(t.classes) && t.taxonomies == old(t.taxonomies) && t.fixeds == old(t.fixeds)
      ensures fieldRows == RowsFor(DeclaredKeys(m, i + 1)) && |t.fields| == |DeclaredKeys(m, i + 1)|
      ensures m.concepts[i].1.fields != [] ==> t.types[i].fieldStart == |DeclaredKeys(m, i)| + 1
    {
      hide RowsOk, Numbered, FieldsAt, RelsAt, AnnotationsAt, Text, Grows, AppsInRange, RelsInRange, SplitQualified, ConceptIs, Coded, RowsFor, OwnKeys;
      var c := m.concepts[i];
      ghost var t0 := t;
      var fieldStart, fieldCount := AddFields(c, DeclaredKeys(m, i));
      ghost var t1 := t;
      var relStart, relCount := AddRels(c.1.rels);
      ghost var t2 := t;
      var annotStart, annotCount := PackAnnotations(c.1.annotations);
      ghost var t3 := t;
      var name := InternString(SplitQualified(c.0).0);
      ghost var t4 := t;
      var ns := InternString(SplitQualified(c.0).1);
      ghost var t5 := t;
      var parent := 0;
      if c.1.parent.Some? {
        parent := Code(c.1.parent.value);
        CodeIsCoded(c.1.parent.value);
      }
      var row := TypeRow(name, ns, CONCEPT, parent, fieldStart, fieldCount, relStart, relCount, annotStart, annotCount);
      t := t.(types := t.types + [row]);
      ConceptWritten(m, t1, t2, t3, t4, t5, t, c, row);
      GrowsThrough(t0, t1, t2, t3, t4);
      GrowsOn(t0, t4, t5);
      GrowsOn(t0, t5, t);
    }

    /** A primitive or an annotation type. */
    method AddBare(id: string, kind: nat)
      requires Ok() && kind <= 9
      modifies `t
      ensures Ok() && Grows(old(t), t) && t == old(t).(strings := t.strings, types := t.types)
      ensures |t.types| == |old(t.types)| + 1 && BareIs(t, id, kind, t.types[|old(t.types)|])
    {
      hide RowsOk, Numbered, SplitQualified;
      var name := InternString(SplitQualified(id).0);
      var ns := InternString(SplitQualified(id).1);
      ghost var before := t;
      t := t.(types := t.types + [TypeRow(name, ns, kind, 0, 0, 0, 0, 0, 0, 0)]);
      assert RowsOkFrom(m, before, t);
      RowsStayOk(m, before, t);
    }

    method AddTaxonomy(i: nat)
      requires Ok() && i < |m.taxonomies|
      modifies `t
      ensures Ok() && Grows(old(t), t) && t == old(t).(strings := t.strings, targets := t.targets, taxonomies := t.taxonomies)
      ensures |t.taxonomies| == |old(t.taxonomies)| + 1 && TaxonomyIs(m, t, m.taxonomies[i], t.taxonomies[|old(t.taxonomies)|])
    {
      hide RowsOk, Numbered, Coded;
      var start, count := AddTargets(m.taxonomies[i].1);
      var name := InternString(m.taxonomies[i].0);
      ghost var before := t;
      t := t.(taxonomies := t.taxonomies + [TaxonomyRow(name, start, count)]);
      assert RowsOkFrom(m, before, t);
      RowsStayOk(m, before, t);
    }

    method AddFixeds(concept: string, pinned: Named<Const>) returns (start: nat, count: nat)
      requires Ok() && ConstsInRange(pinned) && FieldRowsOk(m, t, fieldRows, |m.concepts|) && |t.types| >= |m.concepts|
      modifies `t
      ensures Ok() && Grows(old(t), t) && t == old(t).(consts := t.consts, fixeds := t.fixeds)
      ensures FixedsAt(m, t, start, count, concept, pinned)
    {
      hide RowsOk, Numbered, FixedIs, FieldRowsOk, Grows;
      var base := |t.fixeds|;
      start := if |pinned| > 0 then base + 1 else 0;
      count := |pinned|;
      GrowsSame(t);
      for k := 0 to |pinned|
        invariant Ok() && Grows(old(t), t) && t == old(t).(consts := t.consts, fixeds := t.fixeds)
        invariant |t.fixeds| == base + k && FixedsFrom(m, t, base, concept, pinned, k)
        invariant FieldRowsOk(m, t, fieldRows, |m.concepts|) && |t.types| >= |m.concepts|
      {
        ghost var before := t;
        AddFixed(concept, pinned[k]);
        FixedsStay(m, before, t, base, concept, pinned, k);
        FieldRowsStay(m, before, t, fieldRows, |m.concepts|);
        GrowsOn(old(t), before, t);
      }
    }

    /** A pinned value, with the row remembered for the field of its nearest declaring ancestor. */
    method AddFixed(concept: string, pinned: (string, Const))
      requires Ok() && InRange(pinned.1) && FieldRowsOk(m, t, fieldRows, |m.concepts|) && |t.types| >= |m.concepts|
      modifies `t
      ensures Ok() && Grows(old(t), t) && t == old(t).(consts := t.consts, fixeds := t.fixeds)
      ensures |t.fixeds| == |old(t.fixeds)| + 1 && FixedIs(m, t, concept, pinned, t.fixeds[|old(t.fixeds)|])
    {
      hide RowsOk, Numbered, EncodeConst, RowsFor, OriginOf;
      var origin := OriginOf(m, concept, pinned.0);
      var field := 0;
      if origin.Some? && origin.value + "." + pinned.0 in fieldRows {
        field := fieldRows[origin.value + "." + pinned.0];
        RememberedIsThere(AllKeys(m), origin.value + "." + pinned.0);
      }
      var value := InternConst(pinned.1);
      ghost var before := t;
      t := t.(fixeds := t.fixeds + [FixedRow(field, value)]);
      assert RowsOkFrom(m, before, t);
      RowsStayOk(m, before, t);
    }

    method AddClass(i: nat)
      requires Ok() && i < |m.classes| && AppsInRange(m.classes[i].1.annotations) && ConstsInRange(m.classes[i].1.pinned)
      requires FieldRowsOk(m, t, fieldRows, |m.concepts|) && |t.types| >= |m.concepts|
      modifies `t
      ensures Ok() && Grows(old(t), t) && t.types == old(t.types) && t.taxonomies == old(t.taxonomies)
      ensures |t.classes| == |old(t.classes)| + 1 && t.classes[..|old(t.classes)|] == old(t.classes)
      ensures ClassIs(m, t, m.classes[i], t.classes[|old(t.classes)|])
    {
      hide RowsOk, FixedsAt, AnnotationsAt, Text, Grows, AppsInRange, ConstsInRange, ClassIs, Coded, FieldRowsOk;
      var c := m.classes[i];
      ghost var t0 := t;
      var fixedStart, fixedCount := AddFixeds(c.1.concept, c.1.pinned);
      ghost var t1 := t;
      var annotStart, annotCount := PackAnnotations(c.1.annotations);
      ghost var t2 := t;
      var name := InternString(c.0);
      ghost var t3 := t;
      var taxonomy := if c.1.taxonomy.Some? && c.1.taxonomy.value in taxonomyRows then taxonomyRows[c.1.taxonomy.value] else 0;
      var broader := if c.1.broader.Some? && c.1.broader.value in classRows then classRows[c.1.broader.value] else 0;
      CodeIsCoded(c.1.concept);
      var row := ClassRow(name, Code(c.1.concept), taxonomy, broader, fixedStart, fixedCount, annotStart, annotCount);
      t := t.(classes := t.classes + [row]);
      ClassWritten(m, t1, t2, t3, t, c, row);
      GrowsOn(t0, t1, t2);
      GrowsOn(t0, t2, t3);
      GrowsOn(t0, t3, t);
    }
  }

  /** The passes, one kind of row after the other. */
  class Lowerer {
    const w: ManifestWriter

    constructor (writer: ManifestWriter)
      ensures w == writer
    {
      w := writer;
    }

    method Concepts()
      requires w.Ok() && w.t == Nothing() && w.fieldRows == map[] && Valid(w.m) && InRangeThroughout(w.m)
      modifies w
      ensures w.Ok() && |w.t.types| == |w.m.concepts| && ConceptsFrom(w.m, w.t, |w.m.concepts|)
      ensures FieldRowsOk(w.m, w.t, w.fieldRows, |w.m.concepts|) && FieldsInOrder(w.m, w.t, |w.m.concepts|)
      ensures w.t.taxonomies == [] && w.t.classes == []
    {
      hide RowsOk, w.Numbered, ConceptIs, Grows, AppsInRange, RelsInRange, NamedOnce, RowsFor, OwnKeys, ConceptsFrom, FieldsInOrder;
      assert ConceptsFrom(w.m, w.t, 0) && FieldsInOrder(w.m, w.t, 0) by {
        NoConcepts(w.m, w.t);
      }
      assert w.fieldRows == RowsFor([]) by {
        NothingRemembered();
      }
      for i := 0 to |w.m.concepts|
        invariant w.Ok() && |w.t.types| == i && ConceptsFrom(w.m, w.t, i) && FieldsInOrder(w.m, w.t, i)
        invariant w.fieldRows == RowsFor(DeclaredKeys(w.m, i)) && |w.t.fields| == |DeclaredKeys(w.m, i)|
        invariant w.t.taxonomies == [] && w.t.classes == []
      {
        ghost var before := w.t;
        w.AddConcept(i);
        ConceptAdded(w.m, before, w.t, i);
      }
    }

    method Bares(ids: seq<string>, kind: nat)
      requires w.Ok() && kind <= 9
      modifies w`t
      ensures w.Ok() && Grows(old(w.t), w.t) && w.t == old(w.t).(strings := w.t.strings, types := w.t.types)
      ensures |w.t.types| == |old(w.t.types)| + |ids| && BaresFrom(w.t, |old(w.t.types)|, ids, kind, |ids|)
    {
      hide RowsOk, BareIs, Grows;
      GrowsSame(w.t);
      for i := 0 to |ids|
        invariant w.Ok() && Grows(old(w.t), w.t) && w.t == old(w.t).(strings := w.t.strings, types := w.t.types)
        invariant |w.t.types| == |old(w.t.types)| + i && BaresFrom(w.t, |old(w.t.types)|, ids, kind, i)
      {
        ghost var before := w.t;
        w.AddBare(ids[i], kind);
        BaresStay(before, w.t, |old(w.t.types)|, ids, kind, i);
        GrowsOn(old(w.t), before, w.t);
      }
    }

    method Taxonomies()
      requires w.Ok() && w.t.taxonomies == []
      modifies w`t
      ensures w.Ok() && Grows(old(w.t), w.t) && w.t.types == old(w.t.types) && w.t.classes == old(w.t.classes)
      ensures TaxonomiesFrom(w.m, w.t, |w.m.taxonomies|)
    {
      hide RowsOk, TaxonomyIs, Grows;
      GrowsSame(w.t);
      for i := 0 to |w.m.taxonomies|
        invariant w.Ok() && Grows(old(w.t), w.t) && w.t.types == old(w.t.types) && w.t.classes == old(w.t.classes)
        invariant TaxonomiesFrom(w.m, w.t, i)
      {
        ghost var before := w.t;
        w.AddTaxonomy(i);
        TaxonomyAdded(w.m, before, w.t, i);
        GrowsOn(old(w.t), before, w.t);
      }
    }

    method Classes()
      requires w.Ok() && w.t.classes == [] && Valid(w.m) && InRangeThroughout(w.m)
      requires FieldRowsOk(w.m, w.t, w.fieldRows, |w.m.concepts|) && |w.t.types| >= |w.m.concepts|
      modifies w`t
      ensures w.Ok() && Grows(old(w.t), w.t) && w.t.types == old(w.t.types) && w.t.taxonomies == old(w.t.taxonomies)
      ensures ClassesFrom(w.m, w.t, |w.m.classes|)
    {
      hide RowsOk, ClassIs, Grows, ConceptsFrom, FieldRowsOk, AppsInRange, ConstsInRange, RelsInRange;
      GrowsSame(w.t);
      for i := 0 to |w.m.classes|
        invariant w.Ok() && Grows(old(w.t), w.t) && w.t.types == old(w.t.types) && w.t.taxonomies == old(w.t.taxonomies)
        invariant FieldRowsOk(w.m, w.t, w.fieldRows, |w.m.concepts|)
        invariant ClassesFrom(w.m, w.t, i)
      {
        ghost var before := w.t;
        w.AddClass(i);
        ClassAdded(w.m, before, w.t, i);
        FieldRowsStay(w.m, before, w.t, w.fieldRows, |w.m.concepts|);
        GrowsOn(old(w.t), before, w.t);
      }
    }
  }

  /** Lowers a manifest: numbers the rows, then writes them, and looks up the root's row. */
  method FromLogical(m: Logical) returns (w: ManifestWriter, root: nat)
    requires Valid(m) && InRangeThroughout(m)
    ensures fresh(w) && w.m == m && Represents(m, w.t) && RowsOk(m, w.t)
    ensures w.t.strings != [] && w.t.consts != [] && root == RowNumber(m, m.root)
  {
    hide RowsOk, ConceptsFrom, BaresFrom, TaxonomiesFrom, ClassesFrom, FieldRowsOk, PrimitiveIds, AnnotationIds, Grows, Represents, Written;
    w := Numbering(m);
    var passes := new Lowerer(w);
    passes.Concepts();
    ghost var t1 := w.t;
    passes.Bares(PrimitiveIds(m), PRIMITIVE);
    ghost var t2 := w.t;
    passes.Bares(AnnotationIds(m), ANNOTATION_TYPE);
    ghost var t3 := w.t;
    passes.Taxonomies();
    ghost var t4 := w.t;
    GrowsOn(t1, t2, t3);
    GrowsOn(t1, t3, t4);
    EnoughTypes(m, t1);
    EnoughTypesStay(m, t1, t4);
    FieldRowsStay(m, t1, t4, w.fieldRows, |m.concepts|);
    passes.Classes();
    AllWritten(m, t1, t2, t3, t4, w.t);
    root := if m.root in w.typeRows then w.typeRows[m.root] else 0;
  }

  /** A writer whose row numbers are those of the manifest. */
  method Numbering(m: Logical) returns (w: ManifestWriter)
    requires Valid(m)
    ensures fresh(w) && w.m == m && w.t == Nothing() && w.fieldRows == map[] && w.Ok()
  {
    hide Written, RowsOk, RowNumber, Position, Names;
    var types := NumberTypes(m);
    var taxonomies := NumberNames(m.taxonomies);
    var classes := NumberNames(m.classes);
    w := new ManifestWriter(m, types, taxonomies, classes);
    NothingIsOk(m);
  }

  method NumberTypes(m: Logical) returns (rows: map<string, nat>)
    ensures forall id :: id in rows <==> id in Written(m)
    ensures forall id :: id in rows ==> rows[id] == RowNumber(m, id)
  {
    hide Written;
    rows := NumberRows(Written(m));
  }

  method NumberNames<T>(named: Named<T>) returns (rows: map<string, nat>)
    requires NamedOnce(named)
    ensures forall id :: id in rows <==> id in Names(named)
    ensures forall id :: id in rows ==> rows[id] == Position(named, id) + 1
  {
    rows := NumberRows(Names(named));
    UniqueStays(Names(named));
  }

  /** What each pass wrote is still there at the end. */
  lemma AllWritten(m: Logical, t1: Tables, t2: Tables, t3: Tables, t4: Tables, t5: Tables)
    requires Grows(t1, t2) && Grows(t2, t3) && Grows(t3, t4) && Grows(t4, t5)
    requires ConceptsFrom(m, t1, |m.concepts|) && FieldsInOrder(m, t1, |m.concepts|) && BaresFrom(t2, |m.concepts|, PrimitiveIds(m), PRIMITIVE, |PrimitiveIds(m)|)
    requires BaresFrom(t3, |m.concepts| + |PrimitiveIds(m)|, AnnotationIds(m), ANNOTATION_TYPE, |AnnotationIds(m)|)
    requires TaxonomiesFrom(m, t4, |m.taxonomies|) && t5.taxonomies == t4.taxonomies && ClassesFrom(m, t5, |m.classes|)
    requires |t5.types| == |m.concepts| + |PrimitiveIds(m)| + |AnnotationIds(m)|
    ensures Represents(m, t5)
  {
    hide ConceptsFrom, BaresFrom, TaxonomiesFrom, ClassesFrom, PrimitiveIds, AnnotationIds, Grows;
    GrowsThrough(t1, t2, t3, t4, t5);
    ConceptsStay(m, t1, t5, |m.concepts|);
    FieldsStayInOrder(m, t1, t5, |m.concepts|);
    BaresStay(t2, t5, |m.concepts|, PrimitiveIds(m), PRIMITIVE, |PrimitiveIds(m)|);
    BaresStay(t3, t5, |m.concepts| + |PrimitiveIds(m)|, AnnotationIds(m), ANNOTATION_TYPE, |AnnotationIds(m)|);
    TaxonomiesStay(m, t4, t5, |m.taxonomies|);
  }

  // ---- a row and its slices -----------------------------------------------------------------------------------

  function WithRels(before: Tables, t: Tables): Tables {
    before.(strings := t.strings, consts := t.consts, targets := t.targets, annotations := t.annotations, args := t.args, rels := t.rels)
  }

  lemma GrowsSame(t: Tables)
    ensures Grows(t, t)
  {
  }

  lemma GrowsThrough(a: Tables, b: Tables, c: Tables, d: Tables, e: Tables)
    requires Grows(a, b) && Grows(b, c) && Grows(c, d) && Grows(d, e)
    ensures Grows(a, e) && Grows(b, e) && Grows(c, e)
  {
    hide Grows;
    GrowsOn(b, c, d);
    GrowsOn(c, d, e);
    GrowsOn(b, c, e);
    GrowsOn(a, b, e);
  }

  lemma TargetsAtStay(m: Logical, t: Tables, u: Tables, start: nat, count: nat, ids: seq<string>)
    requires Grows(t, u) && TargetsAt(m, t, start, count, ids)
    ensures TargetsAt(m, u, start, count, ids) && SliceIn(start, count, |u.targets|)
  {
    hide Coded;
  }

  lemma AnnotationsAtStay(m: Logical, t: Tables, u: Tables, start: nat, count: nat, apps: seq<Application>)
    requires Grows(t, u) && AnnotationsAt(m, t, start, count, apps)
    ensures AnnotationsAt(m, u, start, count, apps) && SliceIn(start, count, |u.annotations|)
  {
    hide AnnotationsFrom;
    if count > 0 {
      AnnotationsStay(m, t, u, start - 1, apps, count);
    }
  }

  lemma FieldsAtStay(m: Logical, t: Tables, u: Tables, start: nat, count: nat, fields: Named<FieldDef>)
    requires Grows(t, u) && FieldsAt(m, t, start, count, fields)
    ensures FieldsAt(m, u, start, count, fields) && SliceIn(start, count, |u.fields|)
  {
    hide FieldsFrom;
    if count > 0 {
      FieldsStay(m, t, u, start - 1, fields, count);
    }
  }

  lemma RelsAtStay(m: Logical, t: Tables, u: Tables, start: nat, count: nat, rels: Named<RelDef>)
    requires Grows(t, u) && RelsAt(m, t, start, count, rels)
    ensures RelsAt(m, u, start, count, rels) && SliceIn(start, count, |u.rels|)
  {
    hide RelsFrom;
    if count > 0 {
      RelsStay(m, t, u, start - 1, rels, count);
    }
  }

  lemma FixedsAtStay(m: Logical, t: Tables, u: Tables, start: nat, count: nat, concept: string, pinned: Named<Const>)
    requires Grows(t, u) && |t.types| >= |m.concepts| && FixedsAt(m, t, start, count, concept, pinned)
    ensures FixedsAt(m, u, start, count, concept, pinned) && SliceIn(start, count, |u.fixeds|)
  {
    hide FixedsFrom;
    if count > 0 {
      FixedsStay(m, t, u, start - 1, concept, pinned, count);
    }
  }

  lemma TextStays(t: Tables, u: Tables, i: nat, s: string)
    requires Grows(t, u) && Text(t, i, s)
    ensures Text(u, i, s) && i < |u.strings|
  {
  }

  lemma RelWritten(m: Logical, t1: Tables, t2: Tables, t3: Tables, t4: Tables, t5: Tables, rel: (string, RelDef), row: RelRow)
    requires Grows(t1, t2) && Grows(t2, t3) && Grows(t3, t4) && t5 == t4.(rels := t4.rels + [row]) && RowsOk(m, t4) && t4.strings != []
    requires TargetsAt(m, t1, row.targetStart, row.targetCount, rel.1.targets)
    requires AnnotationsAt(m, t2, row.annotStart, row.annotCount, rel.1.annotations)
    requires Text(t3, row.name, rel.0) && row.card == CardCode(rel.1.card)
    requires if rel.1.inverse.Some? then Text(t4, row.inverse, rel.1.inverse.value) else row.inverse == 0
    ensures RelIs(m, t5, rel, row) && RowsOk(m, t5) && Grows(t4, t5)
  {
    hide TargetsAt, AnnotationsAt, RowsOk;
    assert Grows(t4, t5);
    assert RelOk(t5, row) && RelIs(m, t5, rel, row) by {
      hide Grows;
      GrowsThrough(t1, t2, t3, t4, t5);
      GrowsOn(t3, t4, t5);
      TargetsAtStay(m, t1, t5, row.targetStart, row.targetCount, rel.1.targets);
      AnnotationsAtStay(m, t2, t5, row.annotStart, row.annotCount, rel.1.annotations);
      TextStays(t3, t5, row.name, rel.0);
      if rel.1.inverse.Some? {
        TextStays(t4, t5, row.inverse, rel.1.inverse.value);
      }
      assert |t5.strings| == |t4.strings|;
    }
    assert RowsOkFrom(m, t4, t5);
    RowsStayOk(m, t4, t5);
  }

  lemma ConceptWritten(m: Logical, t1: Tables, t2: Tables, t3: Tables, t4: Tables, t5: Tables, t6: Tables, c: (string, ConceptDef), row: TypeRow)
    requires Grows(t1, t2) && Grows(t2, t3) && Grows(t3, t4) && Grows(t4, t5) && t6 == t5.(types := t5.types + [row]) && RowsOk(m, t5)
    requires FieldsAt(m, t1, row.fieldStart, row.fieldCount, c.1.fields) && RelsAt(m, t2, row.relStart, row.relCount, c.1.rels)
    requires AnnotationsAt(m, t3, row.annotStart, row.annotCount, c.1.annotations)
    requires Text(t4, row.name, SplitQualified(c.0).0) && Text(t5, row.ns, SplitQualified(c.0).1)
    requires row.kind == CONCEPT && row.parent == CodedOrNone(m, c.1.parent)
    ensures ConceptIs(m, t6, c, row) && RowsOk(m, t6) && Grows(t5, t6)
  {
    hide FieldsAt, RelsAt, AnnotationsAt, RowsOk, SplitQualified, Coded;
    assert Grows(t5, t6);
    assert TypeOk(m, t6, row) && ConceptIs(m, t6, c, row) by {
      hide Grows;
      GrowsThrough(t1, t2, t3, t4, t5);
      GrowsOn(t1, t5, t6);
      GrowsOn(t2, t5, t6);
      GrowsOn(t3, t5, t6);
      GrowsOn(t4, t5, t6);
      FieldsAtStay(m, t1, t6, row.fieldStart, row.fieldCount, c.1.fields);
      RelsAtStay(m, t2, t6, row.relStart, row.relCount, c.1.rels);
      AnnotationsAtStay(m, t3, t6, row.annotStart, row.annotCount, c.1.annotations);
      TextStays(t4, t6, row.name, SplitQualified(c.0).0);
      TextStays(t5, t6, row.ns, SplitQualified(c.0).1);
      if c.1.parent.Some? {
        CodedIsOk(m, c.1.parent.value);
      }
    }
    assert RowsOkFrom(m, t5, t6);
    RowsStayOk(m, t5, t6);
  }

  lemma ClassWritten(m: Logical, t1: Tables, t2: Tables, t3: Tables, t4: Tables, c: (string, ClassDef), row: ClassRow)
    requires Grows(t1, t2) && Grows(t2, t3) && t4 == t3.(classes := t3.classes + [row]) && RowsOk(m, t3) && |t1.types| >= |m.concepts|
    requires FixedsAt(m, t1, row.fixedStart, row.fixedCount, c.1.concept, c.1.pinned)
    requires AnnotationsAt(m, t2, row.annotStart, row.annotCount, c.1.annotations)
    requires Text(t3, row.name, c.0) && row.typeRef == Coded(m, c.1.concept)
    requires row.taxonomy == RowOrNone(m.taxonomies, c.1.taxonomy) && row.broader == RowOrNone(m.classes, c.1.broader)
    ensures ClassIs(m, t4, c, row) && RowsOk(m, t4) && Grows(t3, t4)
  {
    hide FixedsAt, AnnotationsAt, RowsOk, Coded;
    assert Grows(t3, t4);
    assert ClassOk(m, t4, row) && ClassIs(m, t4, c, row) by {
      hide Grows;
      GrowsOn(t2, t3, t4);
      GrowsOn(t1, t2, t4);
      FixedsAtStay(m, t1, t4, row.fixedStart, row.fixedCount, c.1.concept, c.1.pinned);
      AnnotationsAtStay(m, t2, t4, row.annotStart, row.annotCount, c.1.annotations);
      TextStays(t3, t4, row.name, c.0);
      CodedIsOk(m, c.1.concept);
    }
    assert RowsOkFrom(m, t3, t4);
    RowsStayOk(m, t3, t4);
  }

  lemma EnoughTypes(m: Logical, t: Tables)
    requires ConceptsFrom(m, t, |m.concepts|)
    ensures |t.types| >= |m.concepts|
  {
  }

  lemma NoConcepts(m: Logical, t: Tables)
    ensures ConceptsFrom(m, t, 0) && FieldsInOrder(m, t, 0)
  {
  }

  lemma ConceptAdded(m: Logical, t: Tables, u: Tables, i: nat)
    requires Grows(t, u) && i < |m.concepts| && |u.types| == i + 1 && ConceptsFrom(m, t, i) && FieldsInOrder(m, t, i)
    requires ConceptIs(m, u, m.concepts[i], u.types[i])
    requires m.concepts[i].1.fields != [] ==> u.types[i].fieldStart == |DeclaredKeys(m, i)| + 1
    ensures ConceptsFrom(m, u, i + 1) && FieldsInOrder(m, u, i + 1)
  {
    hide ConceptIs, DeclaredKeys, Grows;
    ConceptsStay(m, t, u, i);
    FieldsStayInOrder(m, t, u, i);
  }

  lemma EnoughTypesStay(m: Logical, t: Tables, u: Tables)
    requires Grows(t, u) && |t.types| >= |m.concepts|
    ensures |u.types| >= |m.concepts|
  {
  }

  lemma FieldRowsStay(m: Logical, t: Tables, u: Tables, rows: map<string, nat>, n: nat)
    requires Grows(t, u) && FieldRowsOk(m, t, rows, n)
    ensures FieldRowsOk(m, u, rows, n)
  {
  }

  lemma FieldsStayInOrder(m: Logical, t: Tables, u: Tables, n: nat)
    requires Grows(t, u) && FieldsInOrder(m, t, n)
    ensures FieldsInOrder(m, u, n)
  {
    forall i | 0 <= i < n ensures u.types[i] == t.types[i] {
    }
  }

  // ---- the row of a pinned value ------------------------------------------------------------------------------

  lemma NothingRemembered()
    ensures RowsFor([]) == map[]
  {
  }

  lemma RememberedNext(keys: seq<FieldKey>, key: FieldKey)
    ensures RowsFor(keys + [key]) == RowsFor(keys)[Joined(key) := |keys| + 1]
  {
    assert (keys + [key])[..|keys|] == keys;
  }

  lemma RememberedMore(keys: seq<FieldKey>, own: seq<FieldKey>, k: nat)
    requires k < |own|
    ensures RowsFor(keys + own[..k + 1]) == RowsFor(keys + own[..k])[Joined(own[k]) := |keys| + k + 1]
  {
    hide RowsFor, Joined;
    RememberedNext(keys + own[..k], own[k]);
    assert keys + own[..k] + [own[k]] == keys + own[..k + 1];
  }

  /** What is remembered under a text is the row of the last field with that text. */
  lemma {:induction false} RememberedIsThere(keys: seq<FieldKey>, text: string)
    ensures text in RowsFor(keys) <==> exists i :: 0 <= i < |keys| && Joined(keys[i]) == text
    ensures text in RowsFor(keys) ==> var row := RowsFor(keys)[text]; 0 < row <= |keys| && Joined(keys[row - 1]) == text
                                                                      && forall j :: row <= j < |keys| ==> Joined(keys[j]) != text
  {
    if keys != [] {
      var n := |keys| - 1;
      RememberedIsThere(keys[..n], text);
      assert forall i :: 0 <= i < n ==> keys[..n][i] == keys[i];
    }
  }

  /** The position of a concept's fields among all. */
  lemma {:induction false} OwnKeysAt(m: Logical, n: nat, i: nat, k: nat)
    requires i < n <= |m.concepts| && k < |m.concepts[i].1.fields|
    ensures |DeclaredKeys(m, i)| + k < |DeclaredKeys(m, n)| && DeclaredKeys(m, n)[|DeclaredKeys(m, i)| + k] == (m.concepts[i].0, m.concepts[i].1.fields[k].0)
    decreases n
  {
    if i < n - 1 {
      OwnKeysAt(m, n - 1, i, k);
    }
  }

  /** Where each declared field came from. */
  lemma {:induction false} KeyIsDeclared(m: Logical, n: nat, r: nat) returns (i: nat, k: nat)
    requires n <= |m.concepts| && r < |DeclaredKeys(m, n)|
    ensures i < n && k < |m.concepts[i].1.fields| && r == |DeclaredKeys(m, i)| + k
    ensures DeclaredKeys(m, n)[r] == (m.concepts[i].0, m.concepts[i].1.fields[k].0)
    decreases n
  {
    if r < |DeclaredKeys(m, n - 1)| {
      i, k := KeyIsDeclared(m, n - 1, r);
    } else {
      i, k := n - 1, r - |DeclaredKeys(m, n - 1)|;
    }
  }

  /** The row of a declared field: its place in the slice of its concept. */
  function DeclaredRow(m: Logical, concept: string, field: string): nat
    requires Declares(m, concept, field)
  {
    |DeclaredKeys(m, Position(m.concepts, concept))| + Position(ConceptOf(m, concept).fields, field) + 1
  }

  /** The row of a declared field holds that field, in the slice of its concept. */
  lemma DeclaredRowHolds(m: Logical, t: Tables, concept: string, field: string)
    requires Represents(m, t) && Declares(m, concept, field)
    ensures var i := Position(m.concepts, concept); var k := Position(m.concepts[i].1.fields, field); var row := DeclaredRow(m, concept, field);
            && i < |t.types| && t.types[i].fieldStart <= row == t.types[i].fieldStart + k < t.types[i].fieldStart + t.types[i].fieldCount
            && row <= |t.fields| && FieldIs(m, t, m.concepts[i].1.fields[k], t.fields[row - 1])
  {
    hide Represents, DeclaredKeys, FieldIs, FieldsAt, Position, IndexOf;
    var i := Position(m.concepts, concept);
    ConceptAt(m, t, i);
    SliceHolds(m, t, t.types[i].fieldStart, t.types[i].fieldCount, m.concepts[i].1.fields, Position(m.concepts[i].1.fields, field));
  }

  lemma SliceHolds(m: Logical, t: Tables, start: nat, count: nat, fields: Named<FieldDef>, k: nat)
    requires FieldsAt(m, t, start, count, fields) && k < |fields|
    ensures 1 <= start && start + k <= |t.fields| && count == |fields| && FieldIs(m, t, fields[k], t.fields[start + k - 1])
  {
    hide FieldIs;
    assert FieldIs(m, t, fields[k], t.fields[start - 1 + k]);
  }

  lemma ConceptAt(m: Logical, t: Tables, i: nat)
    requires Represents(m, t) && i < |m.concepts|
    ensures i < |t.types| && FieldsAt(m, t, t.types[i].fieldStart, t.types[i].fieldCount, m.concepts[i].1.fields)
    ensures m.concepts[i].1.fields != [] ==> t.types[i].fieldStart == |DeclaredKeys(m, i)| + 1
  {
    hide Written, PrimitiveIds, AnnotationIds, DeclaredKeys, BaresFrom, TaxonomiesFrom, ClassesFrom, FieldsAt, RelsAt, AnnotationsAt, Titled;
    assert ConceptIs(m, t, m.concepts[i], t.types[i]);
  }

  /** No field declared after this one has the same text. */
  predicate LastWithItsText(m: Logical, concept: string, field: string)
    requires Declares(m, concept, field)
  {
    forall j :: DeclaredRow(m, concept, field) <= j < |AllKeys(m)| ==> Joined(AllKeys(m)[j]) != Joined((concept, field))
  }

  lemma DeclaredKeyAt(m: Logical, concept: string, field: string)
    requires Declares(m, concept, field)
    ensures 1 <= DeclaredRow(m, concept, field) <= |AllKeys(m)| && AllKeys(m)[DeclaredRow(m, concept, field) - 1] == (concept, field)
  {
    OwnKeysAt(m, |m.concepts|, Position(m.concepts, concept), Position(ConceptOf(m, concept).fields, field));
  }

  /** A pinned value gets its nearest declaring ancestor's row if and only if no later field joins to the same text. */
  lemma PinIsRightIff(m: Logical, concept: string, field: string)
    requires OriginOf(m, concept, field).Some?
    ensures var origin := OriginOf(m, concept, field).value;
            Declares(m, origin, field) && (PinnedRow(m, concept, field) == DeclaredRow(m, origin, field) <==> LastWithItsText(m, origin, field))
  {
    OriginIsNearest(m, concept, field);
    var origin := OriginOf(m, concept, field).value;
    hide OriginOf;
    var n: nat :| NearestAt(m, concept, field, n, origin);
    hide DeclaredRow, DeclaredKeys, RowsFor;
    DeclaredKeyAt(m, origin, field);
    RememberedIsThere(AllKeys(m), Joined((origin, field)));
  }

  /** No two declared fields join to the same text. */
  predicate JoinsApart(m: Logical) {
    forall i, j :: 0 <= i < j < |AllKeys(m)| ==> Joined(AllKeys(m)[i]) != Joined(AllKeys(m)[j])
  }

  predicate PinsRightly(m: Logical, concept: string, field: string) {
    match OriginOf(m, concept, field)
    case None => PinnedRow(m, concept, field) == 0
    case Some(origin) => Declares(m, origin, field) && PinnedRow(m, concept, field) == DeclaredRow(m, origin, field)
  }

  /** Every value that can be pinned names its nearest declaring ancestor's field exactly when no two fields join alike. */
  lemma PinsAreRightIff(m: Logical)
    requires Valid(m)
    ensures (forall concept, field :: PinsRightly(m, concept, field)) <==> JoinsApart(m)
  {
    hide DeclaredRow, DeclaredKeys, RowsFor, OriginOf, Valid;
    if JoinsApart(m) {
      forall concept, field ensures PinsRightly(m, concept, field) {
        if OriginOf(m, concept, field).Some? {
          PinIsRightIff(m, concept, field);
          DeclaredKeyAt(m, OriginOf(m, concept, field).value, field);
        }
      }
    } else {
      var i, j :| 0 <= i < j < |AllKeys(m)| && Joined(AllKeys(m)[i]) == Joined(AllKeys(m)[j]);
      var key := AllKeys(m)[i];
      OwnOrigin(m, i);
      PinIsRightIff(m, key.0, key.1);
      assert !LastWithItsText(m, key.0, key.1);
      assert !PinsRightly(m, key.0, key.1);
    }
  }

  lemma PositionIs<T>(named: Named<T>, i: nat)
    requires NamedOnce(named) && i < |named|
    ensures Position(named, named[i].0) == i
  {
    var j := Position(named, named[i].0);
    assert Names(named)[i] == named[i].0 && named[i].0 in Names(named);
    assert Names(named)[j] == Names(named)[i];
  }

  /** A declared field is its own origin, at its own row. */
  lemma OwnOrigin(m: Logical, r: nat)
    requires Valid(m) && r < |AllKeys(m)|
    ensures var key := AllKeys(m)[r]; OriginOf(m, key.0, key.1) == Some(key.0) && Declares(m, key.0, key.1) && DeclaredRow(m, key.0, key.1) == r + 1
  {
    var i, k := KeyIsDeclared(m, |m.concepts|, r);
    hide DeclaredKeys;
    PositionIs(m.concepts, i);
    PositionIs(m.concepts[i].1.fields, k);
  }

  /** Concept a declares b.c and concept a.b declares c; a class of a pins b.c. */
  function Colliding(): Logical {
    Logical("m", "1", "a",
            [("a", ConceptDef(None, [("b.c", FieldDef("String", One))], [], [])), ("a.b", ConceptDef(None, [("c", FieldDef("String", One))], [], []))],
            [("k", ClassDef("a", None, None, [("b.c", Str("x"))], []))], [])
  }

  lemma CollidingKeys()
    ensures Valid(Colliding()) && AllKeys(Colliding()) == [("a", "b.c"), ("a.b", "c")]
    ensures Joined(("a", "b.c")) == "a.b.c" && Joined(("a.b", "c")) == "a.b.c"
  {
    var m := Colliding();
    assert Names(m.concepts)[0] == "a" && Names(m.concepts)[1] == "a.b" && |"a"| != |"a.b"|;
    assert DeclaredKeys(m, 1) == [("a", "b.c")];
  }

  /** Both fields are remembered as a.b.c, so the value pinned to the first names the second. */
  lemma CollidingPinIsWrong()
    ensures Valid(Colliding()) && !JoinsApart(Colliding())
    ensures Declares(Colliding(), "a", "b.c") && DeclaredRow(Colliding(), "a", "b.c") == 1 && PinnedRow(Colliding(), "a", "b.c") == 2
  {
    hide Valid, AllKeys, Joined, RowsFor, OriginOf, DeclaredRow, Colliding;
    CollidingKeys();
    OwnOrigin(Colliding(), 0);
    RememberedIsThere(AllKeys(Colliding()), "a.b.c");
    assert Joined(AllKeys(Colliding())[0]) == Joined(AllKeys(Colliding())[1]);
  }

  lemma TaxonomyAdded(m: Logical, t: Tables, u: Tables, i: nat)
    requires Grows(t, u) && TaxonomiesFrom(m, t, i) && i < |m.taxonomies| && |u.taxonomies| == i + 1
    requires TaxonomyIs(m, u, m.taxonomies[i], u.taxonomies[i])
    ensures TaxonomiesFrom(m, u, i + 1)
  {
    hide Coded;
    forall k | 0 <= k < i ensures TaxonomyIs(m, u, m.taxonomies[k], u.taxonomies[k]) {
      assert TaxonomyIs(m, t, m.taxonomies[k], t.taxonomies[k]);
    }
  }

  lemma ClassAdded(m: Logical, t: Tables, u: Tables, i: nat)
    requires Grows(t, u) && ClassesFrom(m, t, i) && i < |m.classes| && |u.classes| == i + 1 && |t.types| >= |m.concepts|
    requires ClassIs(m, u, m.classes[i], u.classes[i])
    ensures ClassesFrom(m, u, i + 1)
  {
    hide ClassIs;
    forall k | 0 <= k < i ensures ClassIs(m, u, m.classes[k], u.classes[k]) {
      ClassStays(m, t, u, m.classes[k], t.classes[k]);
    }
  }

  lemma NothingIsOk(m: Logical)
    ensures RowsOk(m, Nothing())
  {
  }
}
