/**
 Packing a manifest into the binary container and reading it back. `ContainerReadsBack`: for every manifest whose indices
 exist, reading the bytes gives every heap entry, table row, the root and the identity as they were.
 */
module ManifestCodec {
  import opened Wrappers
  import opened Bytes
  import opened Heaps
  import opened ManifestLayout

  const MAGIC := 0x4d44_4f54
  const FORMAT_VERSION := 1
  const TABLE_DIR_ENTRY_SIZE := 11
  const HEAP_DIR_ENTRY_SIZE := 9
  const STRINGS_HEAP := 0
  const CONST_HEAP := 1

  /** `strings` starts with the empty string and `consts` with the empty blob. */
  datatype Manifest = Manifest(model: string, version: string, root: nat, strings: seq<string>, consts: seq<seq<byte>>,
                               tables: seq<seq<seq<nat>>>)

  // ---- the header ---------------------------------------------------------------------------------------------

  datatype TableEntry = TableEntry(id: nat, recordSize: nat, rowCount: nat, offset: nat)

  datatype HeapEntry = HeapEntry(id: nat, offset: nat, size: nat)

  datatype Header = Header(formatVersion: nat, flags: nat, modelIndex: nat, versionIndex: nat, root: nat,
                           tables: seq<TableEntry>, heaps: seq<HeapEntry>)

  function TableDir(entries: seq<TableEntry>, k: seq<byte>): seq<byte> {
    if entries == [] then k
    else
      var e := entries[0];
      LE(e.id, 1) + (LE(e.recordSize, 2) + (LE(e.rowCount, 4) + (LE(e.offset, 4) + TableDir(entries[1..], k))))
  }

  function HeapDir(entries: seq<HeapEntry>, k: seq<byte>): seq<byte> {
    if entries == [] then k
    else
      var e := entries[0];
      LE(e.id, 1) + (LE(e.offset, 4) + (LE(e.size, 4) + HeapDir(entries[1..], k)))
  }

  /** The header and the directories, before the bytes `k`. */
  function HeaderBytes(h: Header, k: seq<byte>): seq<byte> {
    var sw, rw := Width(h.flags, 0), Width(h.flags, 2 + TYPE_INFO);
    LE(MAGIC, 4) + (LE(h.formatVersion, 2) + (LE(h.flags, 2) + (LE(h.modelIndex, sw) + (LE(h.versionIndex, sw) + (LE(h.root, rw)
      + (LE(|h.tables|, 1) + (LE(|h.heaps|, 1) + TableDir(h.tables, HeapDir(h.heaps, k)))))))))
  }

  function HeaderSize(flags: nat): nat {
    var sw, rw := Width(flags, 0), Width(flags, 2 + TYPE_INFO);
    4 + 2 + 2 + sw + sw + rw + 1 + 1 + TABLES * TABLE_DIR_ENTRY_SIZE + 2 * HEAP_DIR_ENTRY_SIZE
  }

  lemma {:induction false} TableDirSize(entries: seq<TableEntry>, k: seq<byte>)
    ensures |TableDir(entries, k)| == TABLE_DIR_ENTRY_SIZE * |entries| + |k|
  {
    if entries != [] {
      TableDirSize(entries[1..], k);
    }
  }

  lemma {:induction false} HeapDirSize(entries: seq<HeapEntry>, k: seq<byte>)
    ensures |HeapDir(entries, k)| == HEAP_DIR_ENTRY_SIZE * |entries| + |k|
  {
    if entries != [] {
      HeapDirSize(entries[1..], k);
    }
  }

  lemma HeaderHasSize(h: Header, k: seq<byte>)
    requires |h.tables| == TABLES && |h.heaps| == 2
    ensures |HeaderBytes(h, k)| == HeaderSize(h.flags) + |k|
  {
    hide LE, TableDir, HeapDir;
    TableDirSize(h.tables, HeapDir(h.heaps, k));
    HeapDirSize(h.heaps, k);
  }

  lemma {:induction false} TableDirTail(entries: seq<TableEntry>, k: seq<byte>)
    ensures TableDir(entries, k) == TableDir(entries, []) + k
  {
    if entries == [] {
      assert [] + k == k;
    } else {
      TableDirTail(entries[1..], k);
    }
  }

  // ---- writing ------------------------------------------------------------------------------------------------

  /** The heap with the identity in it. */
  function SealedStrings(m: Manifest): seq<string> {
    Interned(Interned(m.strings, m.model), m.version)
  }

  /** The manifest a reader sees: its identity is in the strings heap. */
  function Sealed(m: Manifest): Manifest {
    m.(strings := SealedStrings(m))
  }

  function RowCounts(tables: seq<seq<seq<nat>>>): (r: seq<nat>)
    ensures |r| == |tables|
  {
    seq(|tables|, t requires 0 <= t < |tables| => |tables[t]|)
  }

  function CountsOf(m: Manifest): (c: Counts)
    ensures |c.rows| == |m.tables|
  {
    Counts(|SealedStrings(m)|, |m.consts|, RowCounts(m.tables))
  }

  predicate Shaped(m: Manifest) {
    |m.tables| == TABLES && forall t :: 0 <= t < TABLES ==> RowsShaped(m.tables[t], Columns(t))
  }

  ghost predicate BlobsPackable(blobs: seq<seq<byte>>) {
    forall b :: b in blobs ==> |b| <= VARLEN_4BYTE_MAX
  }

  /** Rows have a value per column, and every heap entry has a length that can be written. */
  ghost predicate Writable(m: Manifest) {
    Shaped(m) && Packable(SealedStrings(m)) && BlobsPackable(m.consts)
  }

  function FlagsOf(m: Manifest): nat
    requires Shaped(m)
  {
    Flags(Wide(CountsOf(m)))
  }

  function TableStream(m: Manifest, t: nat): seq<byte>
    requires Shaped(m) && t < TABLES
  {
    TableColumnsOk(t);
    TableBytes(m.tables[t], Columns(t), FlagsOf(m))
  }

  function TableStreams(m: Manifest): (r: seq<seq<byte>>)
    requires Shaped(m)
    ensures |r| == TABLES && forall t :: 0 <= t < TABLES ==> r[t] == TableStream(m, t)
  {
    seq(TABLES, t requires 0 <= t < TABLES => TableStream(m, t))
  }

  /** The table streams in order, then the heaps. */
  function Streams(m: Manifest): (r: seq<seq<byte>>)
    requires Writable(m)
    ensures |r| == TABLES + 2
  {
    TableStreams(m) + [PackStrings(SealedStrings(m)), Pack(m.consts)]
  }

  function BodyStart(m: Manifest): (n: nat)
    requires Shaped(m)
    ensures n % 4 == 0
  {
    Aligned(HeaderSize(FlagsOf(m)))
  }

  function StreamOffsets(m: Manifest): (r: seq<nat>)
    requires Writable(m)
    ensures |r| == TABLES + 2
  {
    Offsets(Streams(m), BodyStart(m))
  }

  function TableEntryOf(m: Manifest, t: nat): TableEntry
    requires Writable(m) && t < TABLES
  {
    TableColumnsOk(t);
    TableEntry(t, RecordSize(Columns(t), FlagsOf(m)), |m.tables[t]|, StreamOffsets(m)[t])
  }

  function TableEntries(m: Manifest): (r: seq<TableEntry>)
    requires Writable(m)
    ensures |r| == TABLES && forall t :: 0 <= t < TABLES ==> r[t] == TableEntryOf(m, t)
  {
    seq(TABLES, t requires 0 <= t < TABLES => TableEntryOf(m, t))
  }

  function HeapEntries(m: Manifest): (r: seq<HeapEntry>)
    requires Writable(m)
    ensures |r| == 2
  {
    var offsets, streams := StreamOffsets(m), Streams(m);
    [HeapEntry(STRINGS_HEAP, offsets[TABLES], |streams[TABLES]|), HeapEntry(CONST_HEAP, offsets[TABLES + 1], |streams[TABLES + 1]|)]
  }

  function HeaderOf(m: Manifest): Header
    requires Writable(m)
  {
    Header(FORMAT_VERSION, FlagsOf(m), IndexOf(SealedStrings(m), m.model), IndexOf(SealedStrings(m), m.version), m.root,
           TableEntries(m), HeapEntries(m))
  }

  /** Header, directories, aligned streams in directory order, heaps. */
  function Container(m: Manifest): seq<byte>
    requires Writable(m)
  {
    HeaderBytes(HeaderOf(m), Zeros(PadOf(HeaderSize(FlagsOf(m)), 4)) + Laid(Streams(m), BodyStart(m)))
  }

  // ---- reading ------------------------------------------------------------------------------------------------

  datatype ReadError = BadMagic | Truncated | BadHeap | MissingEntry

  function TakeUint(w: nat, bytes: seq<byte>): Option<Taken<nat>> {
    if |bytes| < w then None else Some(Taken(FromLE(bytes[..w]), bytes[w..]))
  }

  function TakeTables(n: nat, bytes: seq<byte>): Option<Taken<seq<TableEntry>>> {
    if n == 0 then Some(Taken([], bytes))
    else
      match TakeUint(1, bytes)
      case None => None
      case Some(id) =>
        match TakeUint(2, id.rest)
        case None => None
        case Some(size) =>
          match TakeUint(4, size.rest)
          case None => None
          case Some(count) =>
            match TakeUint(4, count.rest)
            case None => None
            case Some(offset) =>
              match TakeTables(n - 1, offset.rest)
              case None => None
              case Some(more) => Some(Taken([TableEntry(id.value, size.value, count.value, offset.value)] + more.value, more.rest))
  }

  function TakeHeaps(n: nat, bytes: seq<byte>): Option<Taken<seq<HeapEntry>>> {
    if n == 0 then Some(Taken([], bytes))
    else
      match TakeUint(1, bytes)
      case None => None
      case Some(id) =>
        match TakeUint(4, id.rest)
        case None => None
        case Some(offset) =>
          match TakeUint(4, offset.rest)
          case None => None
          case Some(size) =>
            match TakeHeaps(n - 1, size.rest)
            case None => None
            case Some(more) => Some(Taken([HeapEntry(id.value, offset.value, size.value)] + more.value, more.rest))
  }

  datatype Fixed = Fixed(formatVersion: nat, flags: nat, modelIndex: nat, versionIndex: nat, root: nat, tableCount: nat, heapCount: nat)

  /** The part of the header after the magic number and before the directories. */
  function TakeFixed(bytes: seq<byte>): Option<Taken<Fixed>> {
    match TakeUint(2, bytes)
    case None => None
    case Some(version) =>
      match TakeUint(2, version.rest)
      case None => None
      case Some(flags) =>
        var sw, rw := Width(flags.value, 0), Width(flags.value, 2 + TYPE_INFO);
        match TakeUint(sw, flags.rest)
        case None => None
        case Some(model) =>
          match TakeUint(sw, model.rest)
          case None => None
          case Some(modelVersion) =>
            match TakeUint(rw, modelVersion.rest)
            case None => None
            case Some(root) =>
              match TakeUint(1, root.rest)
              case None => None
              case Some(tables) =>
                match TakeUint(1, tables.rest)
                case None => None
                case Some(heaps) =>
                  Some(Taken(Fixed(version.value, flags.value, model.value, modelVersion.value, root.value, tables.value, heaps.value), heaps.rest))
  }

  function ReadHeader(bytes: seq<byte>): Result<Header, ReadError> {
    match TakeUint(4, bytes)
    case None => Err(Truncated)
    case Some(magic) =>
      if magic.value != MAGIC then Err(BadMagic)
      else
        match TakeFixed(magic.rest)
        case None => Err(Truncated)
        case Some(f) =>
          match TakeTables(f.value.tableCount, f.rest)
          case None => Err(Truncated)
          case Some(tables) =>
            match TakeHeaps(f.value.heapCount, tables.rest)
            case None => Err(Truncated)
            case Some(heaps) =>
              Ok(Header(f.value.formatVersion, f.value.flags, f.value.modelIndex, f.value.versionIndex, f.value.root, tables.value, heaps.value))
  }

  /** The last entry with this id: later ones replace earlier ones. */
  function TableWith(entries: seq<TableEntry>, id: nat): Option<TableEntry> {
    if entries == [] then None
    else
      var n := |entries| - 1;
      if entries[n].id == id then Some(entries[n]) else TableWith(entries[..n], id)
  }

  function HeapWith(entries: seq<HeapEntry>, id: nat): Option<HeapEntry> {
    if entries == [] then None
    else
      var n := |entries| - 1;
      if entries[n].id == id then Some(entries[n]) else HeapWith(entries[..n], id)
  }

  function HeapBytes(bytes: seq<byte>, e: HeapEntry): Option<seq<byte>> {
    if e.offset + e.size > |bytes| then None else Some(bytes[e.offset..e.offset + e.size])
  }

  /** The rows of the tables from t on. */
  function ReadTables(bytes: seq<byte>, h: Header, t: nat): Option<seq<seq<seq<nat>>>>
    decreases TABLES - t
  {
    if t >= TABLES then Some([])
    else
      TableColumnsOk(t);
      match TableWith(h.tables, t)
      case None => None
      case Some(e) =>
        match (ReadRows(bytes, e.offset, e.recordSize, 0, e.rowCount, Columns(t), h.flags), ReadTables(bytes, h, t + 1))
        case (Some(rows), Some(rest)) => Some([rows] + rest)
        case _ => None
  }

  function ReadStrings(bytes: seq<byte>, h: Header): Option<seq<string>> {
    match HeapWith(h.heaps, STRINGS_HEAP)
    case None => None
    case Some(e) =>
      match HeapBytes(bytes, e)
      case None => None
      case Some(stream) => UnpackStrings(stream)
  }

  function ReadConsts(bytes: seq<byte>, h: Header): Option<seq<seq<byte>>> {
    match HeapWith(h.heaps, CONST_HEAP)
    case None => None
    case Some(e) =>
      match HeapBytes(bytes, e)
      case None => None
      case Some(stream) => Unpack(stream)
  }

  function ReadManifest(bytes: seq<byte>): Result<Manifest, ReadError> {
    match ReadHeader(bytes)
    case Err(e) => Err(e)
    case Ok(h) =>
      match (ReadStrings(bytes, h), ReadConsts(bytes, h), ReadTables(bytes, h, 0))
      case (Some(strings), Some(consts), Some(tables)) =>
        if h.modelIndex < |strings| && h.versionIndex < |strings| then
          Ok(Manifest(strings[h.modelIndex], strings[h.versionIndex], h.root, strings, consts, tables))
        else Err(MissingEntry)
      case _ => Err(BadHeap)
  }

  // ---- the header is read back --------------------------------------------------------------------------------

  lemma UintReadsBack(w: nat, value: nat, k: seq<byte>)
    requires value < Pow256(w)
    ensures TakeUint(w, LE(value, w) + k) == Some(Taken(value, k))
  {
    hide LE, FromLE, Pow256;
    var bytes := LE(value, w) + k;
    assert bytes[..w] == LE(value, w) && bytes[w..] == k;
    FixedReadsBack(value, w);
  }

  predicate TableEntryFits(e: TableEntry) {
    e.id < Pow256(1) && e.recordSize < Pow256(2) && e.rowCount < Pow256(4) && e.offset < Pow256(4)
  }

  predicate HeapEntryFits(e: HeapEntry) {
    e.id < Pow256(1) && e.offset < Pow256(4) && e.size < Pow256(4)
  }

  lemma {:induction false} TableDirReadsBack(entries: seq<TableEntry>, k: seq<byte>)
    requires forall i :: 0 <= i < |entries| ==> TableEntryFits(entries[i])
    ensures TakeTables(|entries|, TableDir(entries, k)) == Some(Taken(entries, k))
    decreases |entries|
  {
    hide TakeUint, LE, Pow256;
    if entries != [] {
      var e := entries[0];
      assert TableEntryFits(e);
      var more := TableDir(entries[1..], k);
      UintReadsBack(1, e.id, LE(e.recordSize, 2) + (LE(e.rowCount, 4) + (LE(e.offset, 4) + more)));
      UintReadsBack(2, e.recordSize, LE(e.rowCount, 4) + (LE(e.offset, 4) + more));
      UintReadsBack(4, e.rowCount, LE(e.offset, 4) + more);
      UintReadsBack(4, e.offset, more);
      TableDirReadsBack(entries[1..], k);
      assert [e] + entries[1..] == entries;
    }
  }

  lemma {:induction false} HeapDirReadsBack(entries: seq<HeapEntry>, k: seq<byte>)
    requires forall i :: 0 <= i < |entries| ==> HeapEntryFits(entries[i])
    ensures TakeHeaps(|entries|, HeapDir(entries, k)) == Some(Taken(entries, k))
    decreases |entries|
  {
    hide TakeUint, LE, Pow256;
    if entries != [] {
      var e := entries[0];
      assert HeapEntryFits(e);
      var more := HeapDir(entries[1..], k);
      UintReadsBack(1, e.id, LE(e.offset, 4) + (LE(e.size, 4) + more));
      UintReadsBack(4, e.offset, LE(e.size, 4) + more);
      UintReadsBack(4, e.size, more);
      HeapDirReadsBack(entries[1..], k);
      assert [e] + entries[1..] == entries;
    }
  }

  predicate HeaderFits(h: Header) {
    && h.formatVersion < Pow256(2) && h.flags < Pow256(2)
    && h.modelIndex < Pow256(Width(h.flags, 0)) && h.versionIndex < Pow256(Width(h.flags, 0)) && h.root < Pow256(Width(h.flags, 2 + TYPE_INFO))
    && |h.tables| < Pow256(1) && |h.heaps| < Pow256(1)
    && (forall i :: 0 <= i < |h.tables| ==> TableEntryFits(h.tables[i]))
    && (forall i :: 0 <= i < |h.heaps| ==> HeapEntryFits(h.heaps[i]))
  }

  function FixedBytes(h: Header, k: seq<byte>): seq<byte> {
    var sw, rw := Width(h.flags, 0), Width(h.flags, 2 + TYPE_INFO);
    LE(h.formatVersion, 2) + (LE(h.flags, 2) + (LE(h.modelIndex, sw) + (LE(h.versionIndex, sw) + (LE(h.root, rw)
      + (LE(|h.tables|, 1) + (LE(|h.heaps|, 1) + k))))))
  }

  lemma FixedReadsBackAll(h: Header, k: seq<byte>)
    requires HeaderFits(h)
    ensures TakeFixed(FixedBytes(h, k))
         == Some(Taken(Fixed(h.formatVersion, h.flags, h.modelIndex, h.versionIndex, h.root, |h.tables|, |h.heaps|), k))
  {
    hide TakeUint, LE, Pow256, Width, TableEntryFits, HeapEntryFits;
    var sw, rw := Width(h.flags, 0), Width(h.flags, 2 + TYPE_INFO);
    var k1 := LE(|h.heaps|, 1) + k;
    var k2 := LE(|h.tables|, 1) + k1;
    var k3 := LE(h.root, rw) + k2;
    var k4 := LE(h.versionIndex, sw) + k3;
    var k5 := LE(h.modelIndex, sw) + k4;
    var k6 := LE(h.flags, 2) + k5;
    UintReadsBack(2, h.formatVersion, k6);
    UintReadsBack(2, h.flags, k5);
    UintReadsBack(sw, h.modelIndex, k4);
    UintReadsBack(sw, h.versionIndex, k3);
    UintReadsBack(rw, h.root, k2);
    UintReadsBack(1, |h.tables|, k1);
    UintReadsBack(1, |h.heaps|, k);
  }

  lemma HeaderReadsBack(h: Header, k: seq<byte>)
    requires HeaderFits(h)
    ensures ReadHeader(HeaderBytes(h, k)) == Ok(h)
  {
    hide TakeUint, LE, TakeFixed, TakeTables, TakeHeaps, TableDir, HeapDir, Width, Pow256;
    Pow256Values();
    var dirs := TableDir(h.tables, HeapDir(h.heaps, k));
    UintReadsBack(4, MAGIC, FixedBytes(h, dirs));
    FixedReadsBackAll(h, dirs);
    TableDirReadsBack(h.tables, HeapDir(h.heaps, k));
    HeapDirReadsBack(h.heaps, k);
  }

  // ---- the streams are where the directories say --------------------------------------------------------------

  /** Indices exist, and the container is short enough for its offsets. */
  ghost predicate Sound(m: Manifest) {
    && Writable(m) && CountsOk(CountsOf(m))
    && m.root <= |m.tables[TYPE_INFO]|
    && (forall t, r, i :: 0 <= t < TABLES && 0 <= r < |m.tables[t]| && 0 <= i < |m.tables[t][r]|
          ==> CellOk(m, t, r, i))
    && |Container(m)| < 0x1_0000_0000
  }

  predicate CellOk(m: Manifest, t: nat, r: nat, i: nat)
    requires Shaped(m) && t < TABLES && r < |m.tables[t]| && i < |m.tables[t][r]|
  {
    TableColumnsOk(t);
    InColumn(Columns(t)[i], m.tables[t][r][i], CountsOf(m))
  }

  lemma RowsFit(m: Manifest, t: nat)
    requires Sound(m) && t < TABLES
    ensures ColumnsOk(Columns(t)) && forall r :: 0 <= r < |m.tables[t]| ==> RowFits(m.tables[t][r], Columns(t), FlagsOf(m))
  {
    hide Container, Columns, Packable, BlobsPackable, ColumnWidth, Pow256, InColumn;
    TableColumnsOk(t);
    forall r | 0 <= r < |m.tables[t]| ensures RowFits(m.tables[t][r], Columns(t), FlagsOf(m)) {
      forall i | 0 <= i < |m.tables[t][r]| ensures m.tables[t][r][i] < Pow256(ColumnWidth(Columns(t)[i], FlagsOf(m))) {
        assert CellOk(m, t, r, i);
        WidthHolds(Columns(t)[i], m.tables[t][r][i], CountsOf(m));
      }
    }
  }

  /** The bytes before the streams. */
  function Front(m: Manifest): seq<byte>
    requires Writable(m)
  {
    HeaderBytes(HeaderOf(m), Zeros(PadOf(HeaderSize(FlagsOf(m)), 4)))
  }

  lemma {:induction false} HeapDirTail(entries: seq<HeapEntry>, a: seq<byte>, b: seq<byte>)
    ensures HeapDir(entries, a + b) == HeapDir(entries, a) + b
  {
    if entries != [] {
      HeapDirTail(entries[1..], a, b);
      Reassociate4(LE(entries[0].id, 1), LE(entries[0].offset, 4), LE(entries[0].size, 4), HeapDir(entries[1..], a), b);
    }
  }

  lemma Reassociate4(a: seq<byte>, b: seq<byte>, c: seq<byte>, d: seq<byte>, k: seq<byte>)
    ensures a + (b + (c + (d + k))) == a + (b + (c + d)) + k
  {
    assert a + (b + (c + (d + k))) == a + (b + (c + d)) + k;
  }

  lemma {:induction false} TableDirTails(entries: seq<TableEntry>, a: seq<byte>, b: seq<byte>)
    ensures TableDir(entries, a + b) == TableDir(entries, a) + b
  {
    TableDirTail(entries, a + b);
    TableDirTail(entries, a);
    assert TableDir(entries, []) + (a + b) == TableDir(entries, []) + a + b;
  }

  lemma HeaderTail(h: Header, a: seq<byte>, b: seq<byte>)
    ensures HeaderBytes(h, a + b) == HeaderBytes(h, a) + b
  {
    hide LE, TableDir, HeapDir, Width;
    HeapDirTail(h.heaps, a, b);
    TableDirTails(h.tables, HeapDir(h.heaps, a), b);
    var sw, rw := Width(h.flags, 0), Width(h.flags, 2 + TYPE_INFO);
    var d := TableDir(h.tables, HeapDir(h.heaps, a));
    Reassociate4(LE(h.versionIndex, sw), LE(h.root, rw), LE(|h.tables|, 1), LE(|h.heaps|, 1) + d, b);
    assert LE(|h.heaps|, 1) + (d + b) == LE(|h.heaps|, 1) + d + b;
    Reassociate4(LE(MAGIC, 4), LE(h.formatVersion, 2), LE(h.flags, 2),
                 LE(h.modelIndex, sw) + (LE(h.versionIndex, sw) + (LE(h.root, rw) + (LE(|h.tables|, 1) + (LE(|h.heaps|, 1) + d)))), b);
    var e := LE(h.versionIndex, sw) + (LE(h.root, rw) + (LE(|h.tables|, 1) + (LE(|h.heaps|, 1) + d)));
    assert LE(h.modelIndex, sw) + (e + b) == LE(h.modelIndex, sw) + e + b;
  }

  /** Every stream is at its recorded offset, a multiple of four. */
  lemma StreamsInPlace(m: Manifest, i: nat)
    requires Writable(m) && i < TABLES + 2
    ensures Holds(Container(m), StreamOffsets(m)[i], Streams(m)[i]) && StreamOffsets(m)[i] % 4 == 0
  {
    hide HeaderBytes, Streams, Laid, Offsets, HeaderSize, TableEntries, HeapEntries, FlagsOf, Shaped, Packable, BlobsPackable;
    var pad := Zeros(PadOf(HeaderSize(FlagsOf(m)), 4));
    HeaderTail(HeaderOf(m), pad, Laid(Streams(m), BodyStart(m)));
    HeaderHasSize(HeaderOf(m), pad);
    assert |Front(m)| == BodyStart(m);
    StreamsAreAtOffsets(Front(m), Streams(m), i);
  }

  lemma RecordSizesFit(t: nat, flags: nat)
    requires ColumnsOk(Columns(t))
    ensures RecordSize(Columns(t), flags) < 0x1_0000
  {
    hide RecordSize;
  }

  lemma EntriesFit(m: Manifest)
    requires Sound(m)
    ensures forall t :: 0 <= t < TABLES ==> TableEntryFits(TableEntries(m)[t])
    ensures forall i :: 0 <= i < 2 ==> HeapEntryFits(HeapEntries(m)[i])
  {
    hide Container, Streams, RecordSize, Columns, FlagsOf, CellOk, Packable, BlobsPackable, StreamOffsets, Pow256;
    Pow256Values();
    forall t | 0 <= t < TABLES ensures TableEntryFits(TableEntries(m)[t]) {
      TableColumnsOk(t);
      StreamsInPlace(m, t);
      RecordSizesFit(t, FlagsOf(m));
      assert |m.tables[t]| == CountsOf(m).rows[t];
    }
    forall i | 0 <= i < 2 ensures HeapEntryFits(HeapEntries(m)[i]) {
      StreamsInPlace(m, TABLES + i);
    }
  }

  lemma InternedHas(m: Manifest)
    ensures m.model in SealedStrings(m) && m.version in SealedStrings(m)
  {
  }

  lemma HeaderOfFits(m: Manifest)
    requires Sound(m)
    ensures HeaderFits(HeaderOf(m))
  {
    hide Container, Streams, TableEntries, HeapEntries, CellOk, Packable, BlobsPackable, StreamOffsets, Pow256, SealedStrings, Flags, Wide, Width;
    Pow256Values();
    EntriesFit(m);
    InternedHas(m);
    FlagsAreAWord(Wide(CountsOf(m)));
    WidthHolds(StrIndex, IndexOf(SealedStrings(m), m.model), CountsOf(m));
    WidthHolds(StrIndex, IndexOf(SealedStrings(m), m.version), CountsOf(m));
    WidthHolds(RowOf(TYPE_INFO), m.root, CountsOf(m));
  }

  lemma {:induction false} TableFound(entries: seq<TableEntry>, t: nat)
    requires t < |entries| && forall i :: 0 <= i < |entries| ==> entries[i].id == i
    ensures TableWith(entries, t) == Some(entries[t])
  {
    if t < |entries| - 1 {
      TableFound(entries[..|entries| - 1], t);
    }
  }

  lemma TableReadsBack(m: Manifest, t: nat)
    requires Sound(m) && t < TABLES
    ensures ColumnsOk(Columns(t))
    ensures TableWith(TableEntries(m), t) == Some(TableEntries(m)[t])
    ensures var e := TableEntries(m)[t];
            ReadRows(Container(m), e.offset, e.recordSize, 0, e.rowCount, Columns(t), FlagsOf(m)) == Some(m.tables[t])
  {
    hide Container, RecordSize, Columns, FlagsOf, CellOk, Packable, BlobsPackable, StreamOffsets, ReadRows, RowFits, TableBytes;
    RowsFit(m, t);
    StreamsInPlace(m, t);
    TableFound(TableEntries(m), t);
    assert Streams(m)[t] == TableStreams(m)[t];
    assert m.tables[t][0..] == m.tables[t];
    NoSteps(StreamOffsets(m)[t], RecordSize(Columns(t), FlagsOf(m)));
    RowsReadBack(Container(m), StreamOffsets(m)[t], m.tables[t], 0, Columns(t), FlagsOf(m));
  }

  lemma NoSteps(offset: nat, size: nat)
    ensures offset + 0 * size == offset
  {
  }

  lemma {:induction false} TablesReadBack(m: Manifest, t: nat)
    requires Sound(m) && t <= TABLES
    ensures ReadTables(Container(m), HeaderOf(m), t) == Some(m.tables[t..])
    decreases TABLES - t
  {
    hide Container, Columns, FlagsOf, CellOk, Packable, BlobsPackable, StreamOffsets, ReadRows, TableWith, TableEntries, HeapEntries;
    if t < TABLES {
      TableReadsBack(m, t);
      TablesReadBack(m, t + 1);
      assert [m.tables[t]] + m.tables[t + 1..] == m.tables[t..];
    } else {
      assert m.tables[t..] == [];
    }
  }

  lemma HeapsReadBack(m: Manifest)
    requires Writable(m)
    ensures ReadStrings(Container(m), HeaderOf(m)) == Some(SealedStrings(m))
    ensures ReadConsts(Container(m), HeaderOf(m)) == Some(m.consts)
  {
    hide Container, StreamOffsets, TableEntries, UnpackStrings, Unpack, Pack, PackStrings, SealedStrings, FlagsOf, TableStreams;
    StreamsInPlace(m, TABLES);
    StreamsInPlace(m, TABLES + 1);
    StringsReadBack(SealedStrings(m));
    PackReadsBack(m.consts);
    var heaps := HeapEntries(m);
    assert HeapWith(heaps, CONST_HEAP) == Some(heaps[1]);
    assert heaps[..1] == [heaps[0]];
    assert HeapWith(heaps, STRINGS_HEAP) == Some(heaps[0]);
  }

  /** Reading a container gives the manifest back, its identity sealed into the strings heap. */
  lemma ContainerReadsBack(m: Manifest)
    requires Sound(m)
    ensures ReadManifest(Container(m)) == Ok(Sealed(m))
  {
    hide HeaderBytes, ReadHeader, ReadStrings, ReadConsts, ReadTables, Streams, TableEntries, HeapEntries, CellOk, Packable, BlobsPackable,
      FlagsOf, SealedStrings, BodyStart;
    HeaderOfFits(m);
    HeaderReadsBack(HeaderOf(m), Zeros(PadOf(HeaderSize(FlagsOf(m)), 4)) + Laid(Streams(m), BodyStart(m)));
    HeapsReadBack(m);
    TablesReadBack(m, 0);
    InternedHas(m);
    assert m.tables[0..] == m.tables;
  }

  /** A manifest whose heap already has its identity comes back unchanged. */
  lemma ReadManifestIsSame(m: Manifest)
    requires Sound(m)
    ensures ReadManifest(Container(m)) == Ok(m) <==> m.model in m.strings && m.version in m.strings
  {
    hide ReadManifest, Container, Writable, CellOk;
    ContainerReadsBack(m);
    var once := Interned(m.strings, m.model);
    assert SealedStrings(m) == m.strings <==> m.model in m.strings && m.version in m.strings by {
      if m.model !in m.strings {
        assert |SealedStrings(m)| > |m.strings|;
      } else if m.version !in m.strings {
        assert |SealedStrings(m)| > |m.strings|;
      }
    }
  }
}
