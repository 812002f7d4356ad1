/**
 Validating a manifest, and what a valid one is good for.

 `LoweredIsValid`: the validator finds no error in a lowered manifest. `ValidReadsBack`: a manifest without errors whose
 counts fit their columns is read back from its container; so a lowered one is (`LoweredReadsBack`).
 */
module ManifestValidators {
  import opened Wrappers
  import opened Bytes
  import opened Heaps
  import opened ManifestLayout
  import opened LogicalManifests
  import C = ManifestCodec
  import L = Lowering

  type Manifest = C.Manifest

  // ---- the checks ---------------------------------------------------------------------------------------------

  predicate RowsIn(m: Manifest, table: nat, row: nat) {
    table < |m.tables| && row <= |m.tables[table]|
  }

  /** A reference is null, or points at a row of the table its tag names. */
  predicate CodedOk(m: Manifest, value: nat) {
    value / 2 == 0 || RowsIn(m, if value % 2 == 1 then TYPE_REF else TYPE_INFO, value / 2)
  }

  /** Kinds have codes up to 9, cardinalities up to 3. */
  function LargestCode(table: nat): nat {
    if table == TYPE_INFO then 9 else 3
  }

  predicate CellOk(m: Manifest, table: nat, col: Column, value: nat) {
    match col
    case U8 => value <= LargestCode(table)
    case U16 => true
    case StrIndex => value < |m.strings|
    case ConstIndex => value < |m.consts|
    case Coded => CodedOk(m, value)
    case RowOf(rows) => RowsIn(m, rows, value)
  }

  predicate RowOk(m: Manifest, table: nat, row: seq<nat>) {
    |row| == |Columns(table)| && forall i :: 0 <= i < |row| ==> CellOk(m, table, Columns(table)[i], row[i])
  }

  predicate RowsOk(m: Manifest, table: nat) {
    table < |m.tables| && forall r :: 0 <= r < |m.tables[table]| ==> RowOk(m, table, m.tables[table][r])
  }

  /** A slice column pair of a table and the table it slices. */
  datatype Slice = Slice(owner: nat, start: nat, count: nat, rows: nat)

  const SLICES := [Slice(TYPE_INFO, 4, 5, FIELD), Slice(TYPE_INFO, 6, 7, REL), Slice(REL, 1, 2, TARGET), Slice(CLASS, 4, 5, FIXED), Slice(TAXONOMY, 1, 2, TARGET)]

  predicate SliceOk(m: Manifest, s: Slice, row: seq<nat>) {
    s.rows < |m.tables| && s.start < |row| && s.count < |row|
    && (row[s.count] == 0 || (1 <= row[s.start] && row[s.start] + row[s.count] - 1 <= |m.tables[s.rows]|))
  }

  predicate SlicesOk(m: Manifest, s: Slice) {
    s.owner < |m.tables| && forall r :: 0 <= r < |m.tables[s.owner]| ==> SliceOk(m, s, m.tables[s.owner][r])
  }

  predicate ImportsOk(m: Manifest) {
    && |m.tables| == TABLES
    && (forall r :: 0 <= r < |m.tables[IMPORTS]| ==> |m.tables[IMPORTS][r]| == 2 && m.tables[IMPORTS][r][0] != 0 && m.tables[IMPORTS][r][1] != 0)
    && (forall r :: 0 <= r < |m.tables[TYPE_REF]| ==> |m.tables[TYPE_REF][r]| == 2 && 1 <= m.tables[TYPE_REF][r][0] <= |m.tables[IMPORTS]|)
  }

  predicate TagsOk(m: Manifest) {
    forall i :: 1 <= i < |m.consts| ==> L.Tagged(m.consts[i])
  }

  /** The validator reports no error. */
  predicate NoErrors(m: Manifest) {
    && |m.tables| == TABLES && m.root <= |m.tables[TYPE_INFO]|
    && (forall t :: 0 <= t < TABLES ==> RowsOk(m, t))
    && (forall i :: 0 <= i < |SLICES| ==> SlicesOk(m, SLICES[i]))
    && ImportsOk(m) && TagsOk(m)
  }

  /** As many rows as counted, from the start on, are rows of the table. */
  predicate InTable(m: Manifest, table: nat, start: nat, count: nat) {
    forall row: nat :: start <= row < start + count ==> 1 <= row && RowsIn(m, table, row)
  }

  /** In a manifest without errors no slice of fields, relationships, targets or pinned values leaves its table. */
  lemma ValidSlicesLieInTables(m: Manifest)
    requires NoErrors(m)
    ensures forall r :: 0 <= r < |m.tables[TYPE_INFO]| ==>
              var row := m.tables[TYPE_INFO][r]; |row| > 7 && InTable(m, FIELD, row[4], row[5]) && InTable(m, REL, row[6], row[7])
    ensures forall r :: 0 <= r < |m.tables[REL]| ==> var row := m.tables[REL][r]; |row| > 2 && InTable(m, TARGET, row[1], row[2])
    ensures forall r :: 0 <= r < |m.tables[CLASS]| ==> var row := m.tables[CLASS][r]; |row| > 5 && InTable(m, FIXED, row[4], row[5])
    ensures forall r :: 0 <= r < |m.tables[TAXONOMY]| ==> var row := m.tables[TAXONOMY][r]; |row| > 2 && InTable(m, TARGET, row[1], row[2])
  {
    hide RowsOk, ImportsOk, TagsOk;
    assert SlicesOk(m, SLICES[0]) && SlicesOk(m, SLICES[1]) && SlicesOk(m, SLICES[2]) && SlicesOk(m, SLICES[3]) && SlicesOk(m, SLICES[4]);
  }

  // ---- the validator ------------------------------------------------------------------------------------------

  /** Runs every check over every row; each loop only ever turns the answer to false. */
  method Validate(m: Manifest) returns (valid: bool)
    requires |m.tables| == TABLES && forall t, r :: 0 <= t < TABLES && 0 <= r < |m.tables[t]| ==> |m.tables[t][r]| == |Columns(t)|
    ensures valid == NoErrors(m)
  {
    hide RowsOk, SlicesOk, ImportsOk, TagsOk;
    valid := m.root <= |m.tables[TYPE_INFO]|;
    for t := 0 to TABLES
      invariant valid <==> m.root <= |m.tables[TYPE_INFO]| && forall u :: 0 <= u < t ==> RowsOk(m, u)
    {
      var ok := ValidateRows(m, t);
      valid := valid && ok;
    }
    var slices := true;
    for i := 0 to |SLICES|
      invariant slices <==> forall j :: 0 <= j < i ==> SlicesOk(m, SLICES[j])
    {
      var ok := ValidateSlices(m, SLICES[i]);
      slices := slices && ok;
    }
    var imports := ImportsOk(m);
    var tags := TagsOk(m);
    valid := valid && slices && imports && tags;
  }

  method ValidateRows(m: Manifest, table: nat) returns (ok: bool)
    requires table < |m.tables| && forall r :: 0 <= r < |m.tables[table]| ==> |m.tables[table][r]| == |Columns(table)|
    ensures ok == RowsOk(m, table)
  {
    hide CellOk;
    var rows := m.tables[table];
    ok := true;
    for r := 0 to |rows|
      invariant ok <==> forall q :: 0 <= q < r ==> RowOk(m, table, rows[q])
    {
      var row := rows[r];
      var fine := true;
      for c := 0 to |row|
        invariant fine <==> forall d :: 0 <= d < c ==> CellOk(m, table, Columns(table)[d], row[d])
      {
        if !CellOk(m, table, Columns(table)[c], row[c]) {
          fine := false;
        }
      }
      ok := ok && fine;
    }
  }

  method ValidateSlices(m: Manifest, s: Slice) returns (ok: bool)
    requires s.owner < |m.tables|
    ensures ok == SlicesOk(m, s)
  {
    var rows := m.tables[s.owner];
    ok := true;
    for r := 0 to |rows|
      invariant ok <==> forall q :: 0 <= q < r ==> SliceOk(m, s, rows[q])
    {
      if !SliceOk(m, s, rows[r]) {
        ok := false;
      }
    }
  }

  // ---- lowered manifests --------------------------------------------------------------------------------------

  function TypeCells(r: L.TypeRow): seq<nat> {
    [r.name, r.ns, r.kind, r.parent, r.fieldStart, r.fieldCount, r.relStart, r.relCount, r.annotStart, r.annotCount]
  }

  function RelCells(r: L.RelRow): seq<nat> {
    [r.name, r.targetStart, r.targetCount, r.card, r.inverse, r.annotStart, r.annotCount]
  }

  function ClassCells(r: L.ClassRow): seq<nat> {
    [r.name, r.typeRef, r.taxonomy, r.broader, r.fixedStart, r.fixedCount, r.annotStart, r.annotCount]
  }

  function Cells<T>(rows: seq<T>, cells: T -> seq<nat>): (r: seq<seq<nat>>)
    ensures |r| == |rows| && forall i :: 0 <= i < |r| ==> r[i] == cells(rows[i])
  {
    seq(|rows|, i requires 0 <= i < |rows| => cells(rows[i]))
  }

  /** The rows as numbers in column order; a lowered manifest imports nothing. */
  function Tabled(t: L.Tables): (r: seq<seq<seq<nat>>>)
    ensures |r| == TABLES
  {
    [Cells(t.types, TypeCells), Cells(t.fields, (r: L.FieldRow) => [r.name, r.typeRef, r.card]), Cells(t.rels, RelCells),
     Cells(t.targets, (r: L.TargetRow) => [r.typeRef]), Cells(t.classes, ClassCells), Cells(t.fixeds, (r: L.FixedRow) => [r.field, r.value]),
     Cells(t.taxonomies, (r: L.TaxonomyRow) => [r.name, r.representsStart, r.representsCount]), [], [],
     Cells(t.annotations, (r: L.AnnotationRow) => [r.typeRef, r.argStart, r.argCount]), Cells(t.args, (r: L.ArgRow) => [r.name, r.value])]
  }

  function Json(m: Logical, t: L.Tables): Manifest {
    C.Manifest(m.model, m.version, RowNumber(m, m.root), t.strings, t.consts, Tabled(t))
  }

  lemma RefIsOk(m: Logical, t: L.Tables, typeRef: nat)
    requires L.RefOk(m, typeRef) && |t.types| == |Written(m)|
    ensures CodedOk(Json(m, t), typeRef)
  {
    hide Written;
  }

  lemma TypesOk(m: Logical, t: L.Tables)
    requires L.RowsOk(m, t) && |t.types| == |Written(m)|
    ensures RowsOk(Json(m, t), TYPE_INFO) && SlicesOk(Json(m, t), SLICES[0]) && SlicesOk(Json(m, t), SLICES[1])
  {
    hide Written, RowNumber, L.RefOk, CodedOk;
    var j := Json(m, t);
    forall r | 0 <= r < |j.tables[TYPE_INFO]|
      ensures RowOk(j, TYPE_INFO, j.tables[TYPE_INFO][r]) && SliceOk(j, SLICES[0], j.tables[TYPE_INFO][r]) && SliceOk(j, SLICES[1], j.tables[TYPE_INFO][r])
    {
      assert L.TypeOk(m, t, t.types[r]);
      RefIsOk(m, t, t.types[r].parent);
    }
  }

  lemma MembersOk(m: Logical, t: L.Tables)
    requires L.RowsOk(m, t) && |t.types| == |Written(m)|
    ensures RowsOk(Json(m, t), FIELD) && RowsOk(Json(m, t), TARGET)
  {
    hide Written, RowNumber, L.RefOk, CodedOk;
    var j := Json(m, t);
    forall r | 0 <= r < |j.tables[FIELD]| ensures RowOk(j, FIELD, j.tables[FIELD][r]) {
      assert L.FieldOk(m, t, t.fields[r]);
      RefIsOk(m, t, t.fields[r].typeRef);
    }
    forall r | 0 <= r < |j.tables[TARGET]| ensures RowOk(j, TARGET, j.tables[TARGET][r]) {
      assert L.RefOk(m, t.targets[r].typeRef);
      RefIsOk(m, t, t.targets[r].typeRef);
    }
  }

  lemma RelsOk(m: Logical, t: L.Tables)
    requires L.RowsOk(m, t)
    ensures RowsOk(Json(m, t), REL) && SlicesOk(Json(m, t), SLICES[2])
  {
    hide Written, RowNumber, CodedOk;
    var j := Json(m, t);
    forall r | 0 <= r < |j.tables[REL]| ensures RowOk(j, REL, j.tables[REL][r]) && SliceOk(j, SLICES[2], j.tables[REL][r]) {
      assert L.RelOk(t, t.rels[r]);
    }
  }

  lemma ClassesOk(m: Logical, t: L.Tables)
    requires L.RowsOk(m, t) && |t.types| == |Written(m)| && |t.taxonomies| == |m.taxonomies| && |t.classes| == |m.classes|
    ensures RowsOk(Json(m, t), CLASS) && SlicesOk(Json(m, t), SLICES[3])
  {
    hide Written, RowNumber, L.RefOk, CodedOk;
    var j := Json(m, t);
    forall r | 0 <= r < |j.tables[CLASS]| ensures RowOk(j, CLASS, j.tables[CLASS][r]) && SliceOk(j, SLICES[3], j.tables[CLASS][r]) {
      assert L.ClassOk(m, t, t.classes[r]);
      RefIsOk(m, t, t.classes[r].typeRef);
    }
  }

  lemma ValuesOk(m: Logical, t: L.Tables)
    requires L.RowsOk(m, t)
    ensures RowsOk(Json(m, t), FIXED) && RowsOk(Json(m, t), TAXONOMY) && RowsOk(Json(m, t), ANNOTATION_ARG) && SlicesOk(Json(m, t), SLICES[4])
  {
    hide Written, RowNumber, CodedOk;
    var j := Json(m, t);
    forall r | 0 <= r < |j.tables[FIXED]| ensures RowOk(j, FIXED, j.tables[FIXED][r]) {
      assert L.FixedOk(t, t.fixeds[r]);
    }
    forall r | 0 <= r < |j.tables[TAXONOMY]| ensures RowOk(j, TAXONOMY, j.tables[TAXONOMY][r]) && SliceOk(j, SLICES[4], j.tables[TAXONOMY][r]) {
      assert L.TaxonomyOk(t, t.taxonomies[r]);
    }
    forall r | 0 <= r < |j.tables[ANNOTATION_ARG]| ensures RowOk(j, ANNOTATION_ARG, j.tables[ANNOTATION_ARG][r]) {
      assert L.ArgOk(t, t.args[r]);
    }
  }

  lemma AnnotationsOk(m: Logical, t: L.Tables)
    requires L.RowsOk(m, t) && |t.types| == |Written(m)|
    ensures RowsOk(Json(m, t), ANNOTATION)
  {
    hide Written, RowNumber, L.RefOk, CodedOk;
    var j := Json(m, t);
    forall r | 0 <= r < |j.tables[ANNOTATION]| ensures RowOk(j, ANNOTATION, j.tables[ANNOTATION][r]) {
      assert L.AnnotationOk(m, t, t.annotations[r]);
      RefIsOk(m, t, t.annotations[r].typeRef);
    }
  }

  lemma ShapeOk(m: Logical, t: L.Tables)
    requires L.Represents(m, t) && L.RowsOk(m, t)
    ensures var j := Json(m, t); |j.tables| == TABLES && j.root <= |j.tables[TYPE_INFO]| && ImportsOk(j) && TagsOk(j)
  {
    FirstOccurrencesUnique(Written(m));
    hide Written, L.ConceptsFrom, L.BaresFrom, RowsOk, SlicesOk;
  }

  lemma EveryRowOk(m: Logical, t: L.Tables)
    requires L.Represents(m, t) && L.RowsOk(m, t)
    ensures forall table :: 0 <= table < TABLES ==> RowsOk(Json(m, t), table)
    ensures forall i :: 0 <= i < |SLICES| ==> SlicesOk(Json(m, t), SLICES[i])
  {
    hide Written, L.ConceptsFrom, L.BaresFrom, RowsOk, SlicesOk;
    var j := Json(m, t);
    TypesOk(m, t);
    MembersOk(m, t);
    RelsOk(m, t);
    ClassesOk(m, t);
    ValuesOk(m, t);
    AnnotationsOk(m, t);
    assert RowsOk(j, IMPORTS) && RowsOk(j, TYPE_REF) by {
      EmptyOk(j, IMPORTS);
      EmptyOk(j, TYPE_REF);
    }
    assert |SLICES| == 5;
  }

  /** The validator finds no error in what a manifest is lowered to. */
  lemma LoweredIsValid(m: Logical, t: L.Tables)
    requires L.Represents(m, t) && L.RowsOk(m, t)
    ensures NoErrors(Json(m, t))
  {
    ShapeOk(m, t);
    EveryRowOk(m, t);
    hide RowsOk, SlicesOk, L.RowsOk, L.Represents, ImportsOk, TagsOk, Json;
  }

  lemma EmptyOk(m: Manifest, table: nat)
    requires table < |m.tables| && m.tables[table] == []
    ensures RowsOk(m, table)
  {
  }

  // ---- valid manifests ----------------------------------------------------------------------------------------

  /** Counts fit the two bytes they are written in. */
  predicate CountsFit(m: Manifest) {
    |m.tables| == TABLES && forall t, r, i :: 0 <= t < TABLES && 0 <= r < |m.tables[t]| && 0 <= i < |m.tables[t][r]| ==> CountFits(m, t, r, i)
  }

  predicate CountFits(m: Manifest, t: nat, r: nat, i: nat)
    requires t < |m.tables| && r < |m.tables[t]| && i < |m.tables[t][r]|
  {
    i < |Columns(t)| && Columns(t)[i].U16? ==> m.tables[t][r][i] < 0x1_0000
  }

  /** What the validator accepts in a cell the column's width can hold. */
  lemma ValidCellFits(m: Manifest, t: nat, r: nat, i: nat)
    requires NoErrors(m) && CountsFit(m) && C.Shaped(m) && t < TABLES && r < |m.tables[t]| && i < |m.tables[t][r]|
    ensures C.CellOk(m, t, r, i)
  {
    hide Columns, SlicesOk;
    TableColumnsOk(t);
    assert RowsOk(m, t) && RowOk(m, t, m.tables[t][r]) && RowsShaped(m.tables[t], Columns(t)) && CountFits(m, t, r, i);
    assert CellOk(m, t, Columns(t)[i], m.tables[t][r][i]);
    assert |m.strings| <= |C.SealedStrings(m)|;
  }

  /** A manifest without errors comes back from its container. */
  lemma ValidReadsBack(m: Manifest)
    requires NoErrors(m) && CountsFit(m) && C.Writable(m) && CountsOk(C.CountsOf(m)) && |C.Container(m)| < 0x1_0000_0000
    ensures C.ReadManifest(C.Container(m)) == Ok(C.Sealed(m))
  {
    hide C.Container, C.ReadManifest, Packable, C.BlobsPackable, NoErrors, CountsFit, C.CellOk;
    forall t, r, i | 0 <= t < TABLES && 0 <= r < |m.tables[t]| && 0 <= i < |m.tables[t][r]| ensures C.CellOk(m, t, r, i) {
      ValidCellFits(m, t, r, i);
    }
    RootIn(m);
    C.ContainerReadsBack(m);
  }

  lemma RootIn(m: Manifest)
    requires NoErrors(m)
    ensures m.root <= |m.tables[TYPE_INFO]|
  {
  }

  /** A lowered manifest comes back from its container, if it is small enough to be written. */
  lemma LoweredReadsBack(m: Logical, t: L.Tables)
    requires L.Represents(m, t) && L.RowsOk(m, t) && CountsFit(Json(m, t))
    requires C.Writable(Json(m, t)) && CountsOk(C.CountsOf(Json(m, t))) && |C.Container(Json(m, t))| < 0x1_0000_0000
    ensures C.ReadManifest(C.Container(Json(m, t))) == Ok(C.Sealed(Json(m, t)))
  {
    hide L.Represents, L.RowsOk, C.Container, C.ReadManifest, Packable, C.BlobsPackable, NoErrors, CountsFit, Tabled;
    LoweredIsValid(m, t);
    ValidReadsBack(Json(m, t));
  }

  // ---- references ---------------------------------------------------------------------------------------------

  /** A reference names its type: the row it points at has the two parts of the type's name. */
  predicate RefNames(m: Logical, t: L.Tables, id: string) {
    var row := L.Coded(m, id) / 2;
    1 <= row <= |t.types| && L.Titled(t, id, t.types[row - 1])
  }

  lemma TypeRowIsTitled(m: Logical, t: L.Tables, i: nat)
    requires L.Represents(m, t) && i < |Written(m)|
    ensures L.Titled(t, Written(m)[i], t.types[i])
  {
    hide PrimitiveIds, AnnotationIds, SplitQualified;
    var concepts, primitives := |m.concepts|, |PrimitiveIds(m)|;
    if i < concepts {
      assert L.ConceptIs(m, t, m.concepts[i], t.types[i]);
    } else if i < concepts + primitives {
      assert L.BareIs(t, PrimitiveIds(m)[i - concepts], L.PRIMITIVE, t.types[concepts + (i - concepts)]);
    } else {
      assert L.BareIs(t, AnnotationIds(m)[i - concepts - primitives], L.ANNOTATION_TYPE, t.types[concepts + primitives + (i - concepts - primitives)]);
    }
  }

  /** References to the types of a manifest name them if the row numbers given ahead are exact. */
  lemma ReferencesResolve(m: Logical, t: L.Tables, id: string)
    requires Valid(m) && L.Represents(m, t) && SharedComeLast(m) && id in Written(m)
    ensures RefNames(m, t, id)
  {
    hide Written, L.ConceptsFrom, L.BaresFrom, PrimitiveIds, AnnotationIds, Valid, SplitQualified;
    ForwardRowsIff(m);
    assert RowExact(m, id);
    TypeRowIsTitled(m, t, RowNumber(m, id) - 1);
  }
}
