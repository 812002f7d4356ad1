/** The container written and read step by step: a byte sink for the header and the streams, a cursor for reading back. */
module ManifestSerializer {
  import opened Wrappers
  import opened Bytes
  import opened Heaps
  import opened ManifestLayout
  import opened ManifestCodec

  // ---- writing ------------------------------------------------------------------------------------------------

  lemma RowStep(row: seq<nat>, cols: seq<Column>, flags: nat, i: nat, written: seq<byte>)
    requires ColumnsOk(cols) && |row| == |cols| && i < |row|
    ensures written + RowBytes(row[i..], cols[i..], flags)
         == written + LE(row[i], ColumnWidth(cols[i], flags)) + RowBytes(row[i + 1..], cols[i + 1..], flags)
  {
    assert row[i..][0] == row[i] && row[i..][1..] == row[i + 1..] && cols[i..][0] == cols[i] && cols[i..][1..] == cols[i + 1..];
  }

  lemma TableStep(rows: seq<seq<nat>>, cols: seq<Column>, flags: nat, i: nat, written: seq<byte>)
    requires ColumnsOk(cols) && RowsShaped(rows, cols) && i < |rows|
    ensures written + TableBytes(rows[i..], cols, flags) == written + RowBytes(rows[i], cols, flags) + TableBytes(rows[i + 1..], cols, flags)
  {
    assert rows[i..][0] == rows[i] && rows[i..][1..] == rows[i + 1..];
  }

  method PackRow(writer: ByteWriter, row: seq<nat>, cols: seq<Column>, flags: nat)
    requires writer.Valid() && ColumnsOk(cols) && |row| == |cols|
    modifies writer, writer.buffer
    ensures writer.Valid() && (writer.buffer == old(writer.buffer) || fresh(writer.buffer))
    ensures writer.Written() == old(writer.Written()) + RowBytes(row, cols, flags)
  {
    hide RowBytes, RecordSize, ColumnWidth, LE;
    ghost var start := writer.Written();
    assert row[0..] == row && cols[0..] == cols;
    for i := 0 to |row|
      invariant writer.Valid() && (writer.buffer == old(writer.buffer) || fresh(writer.buffer))
      invariant start + RowBytes(row, cols, flags) == writer.Written() + RowBytes(row[i..], cols[i..], flags)
    {
      RowStep(row, cols, flags, i, writer.Written());
      var width := WidthAt(cols, i, flags);
      writer.Uint(row[i], width);
    }
    NoBytes(row, cols, flags);
  }

  lemma NoBytes(row: seq<nat>, cols: seq<Column>, flags: nat)
    requires ColumnsOk(cols) && |row| == |cols|
    ensures RowBytes(row[|row|..], cols[|row|..], flags) == []
  {
  }

  function WidthAt(cols: seq<Column>, i: nat, flags: nat): nat
    requires ColumnsOk(cols) && i < |cols|
  {
    ColumnWidth(cols[i], flags)
  }

  /** One table's stream. */
  method PackTable(rows: seq<seq<nat>>, cols: seq<Column>, flags: nat) returns (r: seq<byte>)
    requires ColumnsOk(cols) && RowsShaped(rows, cols)
    ensures r == TableBytes(rows, cols, flags)
  {
    hide RowBytes, TableBytes, ColumnsOk;
    var writer := new ByteWriter();
    assert rows[0..] == rows && writer.Written() + TableBytes(rows, cols, flags) == TableBytes(rows, cols, flags);
    for i := 0 to |rows|
      invariant writer.Valid() && fresh(writer) && fresh(writer.buffer)
      invariant TableBytes(rows, cols, flags) == writer.Written() + TableBytes(rows[i..], cols, flags)
    {
      TableStep(rows, cols, flags, i, writer.Written());
      PackRow(writer, rows[i], cols, flags);
    }
    NoTableBytes(rows, cols, flags);
    r := writer.ToBytes();
  }

  lemma NoTableBytes(rows: seq<seq<nat>>, cols: seq<Column>, flags: nat)
    requires ColumnsOk(cols) && RowsShaped(rows, cols)
    ensures TableBytes(rows[|rows|..], cols, flags) == []
  {
  }

  /** Where each stream starts: the end of the one before, aligned. */
  method LayOut(streams: seq<seq<byte>>, start: nat) returns (offsets: seq<nat>)
    ensures offsets == Offsets(streams, start)
  {
    hide Offsets, Aligned;
    offsets := [];
    var cursor: nat := start;
    assert streams[0..] == streams && [] + Offsets(streams, start) == Offsets(streams, start);
    for i := 0 to |streams|
      invariant Offsets(streams, start) == offsets + Offsets(streams[i..], cursor)
    {
      OffsetsStep(streams, i, cursor, offsets);
      offsets := offsets + [cursor];
      cursor := Aligned(cursor + |streams[i]|);
    }
    assert streams[|streams|..] == [] && Offsets([], cursor) == [];
  }

  lemma OffsetsStep(streams: seq<seq<byte>>, i: nat, cursor: nat, offsets: seq<nat>)
    requires i < |streams|
    ensures offsets + Offsets(streams[i..], cursor) == offsets + [cursor] + Offsets(streams[i + 1..], Aligned(cursor + |streams[i]|))
  {
    assert streams[i..][0] == streams[i] && streams[i..][1..] == streams[i + 1..];
  }

  lemma TableDirStep(entries: seq<TableEntry>, k: seq<byte>, i: nat, written: seq<byte>)
    requires i < |entries|
    ensures written + TableDir(entries[i..], k)
         == written + LE(entries[i].id, 1) + LE(entries[i].recordSize, 2) + LE(entries[i].rowCount, 4) + LE(entries[i].offset, 4)
            + TableDir(entries[i + 1..], k)
  {
    hide LE;
    assert entries[i..][0] == entries[i] && entries[i..][1..] == entries[i + 1..];
  }

  lemma HeapDirStep(entries: seq<HeapEntry>, k: seq<byte>, i: nat, written: seq<byte>)
    requires i < |entries|
    ensures written + HeapDir(entries[i..], k)
         == written + LE(entries[i].id, 1) + LE(entries[i].offset, 4) + LE(entries[i].size, 4) + HeapDir(entries[i + 1..], k)
  {
    hide LE;
    assert entries[i..][0] == entries[i] && entries[i..][1..] == entries[i + 1..];
  }

  /** The header, the table directory and the heap directory. */
  method WriteHeader(out: ByteWriter, h: Header)
    requires out.Valid() && out.Written() == []
    modifies out, out.buffer
    ensures out.Valid() && (out.buffer == old(out.buffer) || fresh(out.buffer)) && out.Written() == HeaderBytes(h, [])
  {
    hide LE, TableDir, HeapDir, Width;
    var sw, rw := Width(h.flags, 0), Width(h.flags, 2 + TYPE_INFO);
    out.Uint(MAGIC, 4);
    out.Uint(h.formatVersion, 2);
    out.Uint(h.flags, 2);
    out.Uint(h.modelIndex, sw);
    out.Uint(h.versionIndex, sw);
    out.Uint(h.root, rw);
    out.Uint(|h.tables|, 1);
    out.Uint(|h.heaps|, 1);
    HeaderInOrder(h);
    WriteTables(out, h, HeaderBytes(h, []));
    WriteHeaps(out, h, HeaderBytes(h, []));
  }

  lemma Assoc(a: seq<byte>, b: seq<byte>, c: seq<byte>)
    ensures a + (b + c) == a + b + c
  {
  }

  lemma HeaderInOrder(h: Header)
    ensures HeaderBytes(h, [])
         == [] + LE(MAGIC, 4) + LE(h.formatVersion, 2) + LE(h.flags, 2) + LE(h.modelIndex, Width(h.flags, 0)) + LE(h.versionIndex, Width(h.flags, 0))
            + LE(h.root, Width(h.flags, 2 + TYPE_INFO)) + LE(|h.tables|, 1) + LE(|h.heaps|, 1) + TableDir(h.tables, HeapDir(h.heaps, []))
  {
    hide LE, TableDir, HeapDir, Width;
    var sw, rw := Width(h.flags, 0), Width(h.flags, 2 + TYPE_INFO);
    var k0 := TableDir(h.tables, HeapDir(h.heaps, []));
    var k1 := LE(|h.heaps|, 1) + k0;
    var k2 := LE(|h.tables|, 1) + k1;
    var k3 := LE(h.root, rw) + k2;
    var k4 := LE(h.versionIndex, sw) + k3;
    var k5 := LE(h.modelIndex, sw) + k4;
    var k6 := LE(h.flags, 2) + k5;
    var k7 := LE(h.formatVersion, 2) + k6;
    var w1 := [] + LE(MAGIC, 4);
    var w2 := w1 + LE(h.formatVersion, 2);
    var w3 := w2 + LE(h.flags, 2);
    var w4 := w3 + LE(h.modelIndex, sw);
    var w5 := w4 + LE(h.versionIndex, sw);
    var w6 := w5 + LE(h.root, rw);
    var w7 := w6 + LE(|h.tables|, 1);
    assert w1 == LE(MAGIC, 4);
    Assoc(w1, LE(h.formatVersion, 2), k6);
    Assoc(w2, LE(h.flags, 2), k5);
    Assoc(w3, LE(h.modelIndex, sw), k4);
    Assoc(w4, LE(h.versionIndex, sw), k3);
    Assoc(w5, LE(h.root, rw), k2);
    Assoc(w6, LE(|h.tables|, 1), k1);
    Assoc(w7, LE(|h.heaps|, 1), k0);
  }

  method WriteTables(out: ByteWriter, h: Header, ghost all: seq<byte>)
    requires out.Valid() && all == out.Written() + TableDir(h.tables, HeapDir(h.heaps, []))
    modifies out, out.buffer
    ensures out.Valid() && (out.buffer == old(out.buffer) || fresh(out.buffer)) && all == out.Written() + HeapDir(h.heaps, [])
  {
    hide LE, TableDir, HeapDir;
    ghost var heaps := HeapDir(h.heaps, []);
    assert h.tables[0..] == h.tables;
    for i := 0 to |h.tables|
      invariant out.Valid() && (out.buffer == old(out.buffer) || fresh(out.buffer))
      invariant all == out.Written() + TableDir(h.tables[i..], heaps)
    {
      TableDirStep(h.tables, heaps, i, out.Written());
      out.Uint(h.tables[i].id, 1);
      out.Uint(h.tables[i].recordSize, 2);
      out.Uint(h.tables[i].rowCount, 4);
      out.Uint(h.tables[i].offset, 4);
    }
    NoDirs(h);
  }

  method WriteHeaps(out: ByteWriter, h: Header, ghost all: seq<byte>)
    requires out.Valid() && all == out.Written() + HeapDir(h.heaps, [])
    modifies out, out.buffer
    ensures out.Valid() && (out.buffer == old(out.buffer) || fresh(out.buffer)) && all == out.Written()
  {
    hide LE, HeapDir;
    assert h.heaps[0..] == h.heaps;
    for i := 0 to |h.heaps|
      invariant out.Valid() && (out.buffer == old(out.buffer) || fresh(out.buffer))
      invariant all == out.Written() + HeapDir(h.heaps[i..], [])
    {
      HeapDirStep(h.heaps, [], i, out.Written());
      out.Uint(h.heaps[i].id, 1);
      out.Uint(h.heaps[i].offset, 4);
      out.Uint(h.heaps[i].size, 4);
    }
    NoDirs(h);
  }

  lemma NoDirs(h: Header)
    ensures forall k :: TableDir(h.tables[|h.tables|..], k) == k
    ensures HeapDir(h.heaps[|h.heaps|..], []) == []
  {
  }

  lemma LaidStep(streams: seq<seq<byte>>, i: nat, at: nat, written: seq<byte>)
    requires i + 1 < |streams| && |written| == at
    ensures written + Laid(streams[i..], at)
         == written + streams[i] + Zeros(PadOf(|written + streams[i]|, 4)) + Laid(streams[i + 1..], Aligned(at + |streams[i]|))
    ensures |written + streams[i] + Zeros(PadOf(|written + streams[i]|, 4))| == Aligned(at + |streams[i]|)
  {
    assert streams[i..][0] == streams[i] && streams[i..][1..] == streams[i + 1..];
  }

  /** The streams, each but the last followed by padding. */
  method WriteStreams(out: ByteWriter, streams: seq<seq<byte>>)
    requires out.Valid() && streams != []
    modifies out, out.buffer
    ensures out.Valid() && (out.buffer == old(out.buffer) || fresh(out.buffer))
    ensures out.Written() == old(out.Written()) + Laid(streams, |old(out.Written())|)
  {
    hide Laid;
    ghost var all := out.Written() + Laid(streams, |out.Written()|);
    assert streams[0..] == streams;
    var last := |streams| - 1;
    for i := 0 to last
      invariant out.Valid() && (out.buffer == old(out.buffer) || fresh(out.buffer))
      invariant all == out.Written() + Laid(streams[i..], |out.Written()|)
    {
      LaidStep(streams, i, |out.Written()|, out.Written());
      out.Append(streams[i]);
      out.Align(4);
    }
    LastLaid(streams, |out.Written()|);
    out.Append(streams[last]);
  }

  lemma LastLaid(streams: seq<seq<byte>>, at: nat)
    requires streams != []
    ensures Laid(streams[|streams| - 1..], at) == streams[|streams| - 1]
  {
    assert streams[|streams| - 1..] == [streams[|streams| - 1]];
  }

  lemma ContainerParts(m: Manifest)
    requires Writable(m)
    ensures var front := HeaderBytes(HeaderOf(m), []);
      && |front| == HeaderSize(FlagsOf(m))
      && Container(m) == front + Zeros(PadOf(|front|, 4)) + Laid(Streams(m), |front + Zeros(PadOf(|front|, 4))|)
  {
    hide HeaderBytes, Streams, Laid, HeaderSize, TableEntries, HeapEntries, FlagsOf, Shaped, Packable, BlobsPackable, StreamOffsets;
    var pad := Zeros(PadOf(HeaderSize(FlagsOf(m)), 4));
    var front := HeaderBytes(HeaderOf(m), []);
    HeaderHasSize(HeaderOf(m), []);
    HeaderTail(HeaderOf(m), [], pad + Laid(Streams(m), BodyStart(m)));
    assert [] + (pad + Laid(Streams(m), BodyStart(m))) == pad + Laid(Streams(m), BodyStart(m));
    assert front + (pad + Laid(Streams(m), BodyStart(m))) == front + pad + Laid(Streams(m), BodyStart(m));
  }

  /** The container of a manifest. */
  method Serialize(m: Manifest) returns (r: seq<byte>)
    requires Writable(m)
    ensures r == Container(m)
  {
    hide Container, Laid, Streams, Packable, HeaderBytes, FlagsOf, TableBytes, Offsets, HeaderSize, RowsShaped, StreamOffsets, HeapEntries,
      TableStreams;
    var strings := Interned(Interned(m.strings, m.model), m.version);
    var flags := FromCounts(Counts(|strings|, |m.consts|, RowCounts(m.tables)));
    FlagsAre(m, flags);
    var streams: seq<seq<byte>> := [];
    for t := 0 to TABLES
      invariant |streams| == t && forall i :: 0 <= i < t ==> streams[i] == TableStream(m, i)
    {
      TableColumnsOk(t);
      ShapedTable(m, t);
      var stream := PackTable(m.tables[t], Columns(t), flags);
      streams := streams + [stream];
    }
    streams := streams + [PackStrings(strings), Pack(m.consts)];
    StreamsAre(m, streams);
    var offsets := LayOut(streams, Aligned(HeaderSize(flags)));
    var entries: seq<TableEntry> := [];
    for t := 0 to TABLES
      invariant |entries| == t && forall i :: 0 <= i < t ==> entries[i] == TableEntryOf(m, i)
    {
      TableColumnsOk(t);
      OffsetsAre(m, streams, flags);
      entries := entries + [TableEntry(t, RecordSize(Columns(t), flags), |m.tables[t]|, offsets[t])];
    }
    OffsetsAre(m, streams, flags);
    var heaps := [HeapEntry(STRINGS_HEAP, offsets[TABLES], |streams[TABLES]|), HeapEntry(CONST_HEAP, offsets[TABLES + 1], |streams[TABLES + 1]|)];
    HeapsAre(m, streams, offsets, heaps);
    var out := new ByteWriter();
    var header := Header(FORMAT_VERSION, flags, IndexOf(strings, m.model), IndexOf(strings, m.version), m.root, entries, heaps);
    assert header.tables == TableEntries(m);
    assert header == HeaderOf(m);
    ContainerParts(m);
    WriteHeader(out, header);
    out.Align(4);
    WriteStreams(out, streams);
    r := out.ToBytes();
  }

  lemma FlagsAre(m: Manifest, flags: nat)
    requires Shaped(m) && flags == Flags(Wide(Counts(|SealedStrings(m)|, |m.consts|, RowCounts(m.tables))))
    ensures flags == FlagsOf(m)
  {
  }

  lemma ShapedTable(m: Manifest, t: nat)
    requires Shaped(m) && t < TABLES
    ensures RowsShaped(m.tables[t], Columns(t)) && TableStream(m, t) == (TableColumnsOk(t); TableBytes(m.tables[t], Columns(t), FlagsOf(m)))
  {
  }

  lemma StreamsAre(m: Manifest, streams: seq<seq<byte>>)
    requires Writable(m) && |streams| == TABLES + 2
    requires (forall i :: 0 <= i < TABLES ==> streams[i] == TableStream(m, i)) && streams[TABLES..] == [PackStrings(SealedStrings(m)), Pack(m.consts)]
    ensures streams == Streams(m)
  {
    hide TableStream, PackStrings, Pack, FlagsOf, Packable, BlobsPackable;
    assert streams[..TABLES] == TableStreams(m);
    assert streams == streams[..TABLES] + streams[TABLES..];
  }

  lemma OffsetsAre(m: Manifest, streams: seq<seq<byte>>, flags: nat)
    requires Writable(m) && streams == Streams(m) && flags == FlagsOf(m)
    ensures Offsets(streams, Aligned(HeaderSize(flags))) == StreamOffsets(m)
  {
  }

  lemma HeapsAre(m: Manifest, streams: seq<seq<byte>>, offsets: seq<nat>, heaps: seq<HeapEntry>)
    requires Writable(m) && streams == Streams(m) && offsets == StreamOffsets(m)
    requires heaps == [HeapEntry(STRINGS_HEAP, offsets[TABLES], |streams[TABLES]|), HeapEntry(CONST_HEAP, offsets[TABLES + 1], |streams[TABLES + 1]|)]
    ensures heaps == HeapEntries(m)
  {
  }

  // ---- reading ------------------------------------------------------------------------------------------------

  /** A little-endian cursor. Reading past the end gives None. */
  class ByteReader {
    const data: seq<byte>
    var pos: nat

    ghost predicate Valid()
      reads this
    {
      pos <= |data|
    }

    ghost function Left(): seq<byte>
      requires Valid()
      reads this
    {
      data[pos..]
    }

    constructor (bytes: seq<byte>, offset: nat)
      requires offset <= |bytes|
      ensures Valid() && data == bytes && pos == offset
    {
      data, pos := bytes, offset;
    }

    /** An unsigned integer, its least significant byte first. */
    method Uint(width: nat) returns (r: Option<nat>)
      requires Valid()
      modifies this
      ensures Valid() && (r.Some? <==> TakeUint(width, old(Left())).Some?)
      ensures r.Some? ==> TakeUint(width, old(Left())) == Some(Taken(r.value, Left()))
    {
      if pos + width > |data| {
        return None;
      }
      hide WithRest, FromLE;
      var value: nat := 0;
      var scale: nat := 1;
      ghost var bytes := data[pos..pos + width];
      NothingRead(bytes);
      for i := 0 to width
        invariant pos == old(pos) && WithRest(value, scale, bytes[i..]) == FromLE(bytes)
      {
        assert bytes[i..][1..] == bytes[i + 1..] && bytes[i..][0] == data[pos + i];
        LowByte(bytes[i..], value, scale);
        value := value + scale * data[pos + i];
        scale := scale * 256;
      }
      AllRead(value, scale);
      assert bytes[width..] == [];
      assert old(Left())[..width] == bytes && old(Left())[width..] == data[pos + width..];
      pos := pos + width;
      r := Some(value);
    }

    /** A compressed unsigned integer. */
    method VarlenU32() returns (r: Option<nat>)
      requires Valid()
      modifies this
      ensures Valid() && (r.Some? <==> TakeVarlen(old(Left())).Some?)
      ensures r.Some? ==> TakeVarlen(old(Left())) == Some(Taken(r.value, Left()))
    {
      if pos == |data| {
        return None;
      }
      var b0: nat := data[pos];
      assert Left()[0] == data[pos] && Left()[1..] == data[pos + 1..];
      if b0 < 0x80 {
        pos := pos + 1;
        return Some(b0);
      }
      if b0 < 0xc0 {
        if pos + 2 > |data| {
          return None;
        }
        var b1: nat := data[pos + 1];
        assert Left()[1] == data[pos + 1] && Left()[2..] == data[pos + 2..];
        pos := pos + 2;
        return Some((b0 - 0x80) * 256 + b1);
      }
      if pos + 4 > |data| {
        return None;
      }
      var b1: nat, b2: nat, b3: nat := data[pos + 1], data[pos + 2], data[pos + 3];
      assert Left()[1] == data[pos + 1] && Left()[2] == data[pos + 2] && Left()[3] == data[pos + 3] && Left()[4..] == data[pos + 4..];
      pos := pos + 4;
      r := Some((b0 % 0x20) * 0x100_0000 + b1 * 0x1_0000 + b2 * 256 + b3);
    }
  }

  /** What has been read, and the bytes to come at their place. */
  function WithRest(value: nat, scale: nat, rest: seq<byte>): nat {
    value + scale * FromLE(rest)
  }

  lemma LowByte(bytes: seq<byte>, value: nat, scale: nat)
    requires bytes != []
    ensures WithRest(value, scale, bytes) == WithRest(value + scale * bytes[0], scale * 256, bytes[1..])
  {
    var rest := FromLE(bytes[1..]);
    assert FromLE(bytes) == bytes[0] + 256 * rest;
    Distribute(scale, bytes[0], rest);
  }

  lemma Distribute(scale: nat, low: nat, rest: nat)
    ensures scale * (low + 256 * rest) == scale * low + scale * 256 * rest
  {
  }

  lemma NothingRead(bytes: seq<byte>)
    ensures WithRest(0, 1, bytes[0..]) == FromLE(bytes)
  {
    assert bytes[0..] == bytes;
  }

  lemma AllRead(value: nat, scale: nat)
    ensures WithRest(value, scale, []) == value
  {
  }

  /** One row at the cursor. */
  method ParseRow(reader: ByteReader, cols: seq<Column>, flags: nat) returns (r: Option<seq<nat>>)
    requires reader.Valid() && ColumnsOk(cols)
    modifies reader
    ensures reader.Valid() && r == ReadRow(old(reader.Left()), cols, flags)
  {
    hide TakeUint, ReadRow, ColumnsOk, ColumnWidth;
    var values: seq<nat> := [];
    ghost var spec := ReadRow(reader.Left(), cols, flags);
    assert cols[0..] == cols;
    NoneBefore(spec);
    for i := 0 to |cols|
      invariant reader.Valid() && |values| == i && ColumnsOk(cols[i..])
      invariant spec == Onto(values, ReadRow(reader.Left(), cols[i..], flags))
    {
      RowReadStep(reader.Left(), cols, i, flags, values);
      var width := WidthAt(cols, i, flags);
      ghost var left := reader.Left();
      var value := reader.Uint(width);
      if value.None? {
        return None;
      }
      values := values + [value.value];
    }
    RowDone(reader.Left(), cols, flags, values);
    r := Some(values);
  }

  ghost function Onto(values: seq<nat>, r: Option<seq<nat>>): Option<seq<nat>> {
    if r.None? then None else Some(values + r.value)
  }

  lemma NoneBefore(r: Option<seq<nat>>)
    ensures Onto([], r) == r
  {
    if r.Some? {
      assert [] + r.value == r.value;
    }
  }

  lemma RowDone(bytes: seq<byte>, cols: seq<Column>, flags: nat, values: seq<nat>)
    requires ColumnsOk(cols)
    ensures ColumnsOk(cols[|cols|..]) && Onto(values, ReadRow(bytes, cols[|cols|..], flags)) == Some(values)
  {
    assert values + [] == values;
  }

  ghost function AfterTaking(values: seq<nat>, taken: Option<Taken<nat>>, cols: seq<Column>, flags: nat): Option<seq<nat>>
    requires ColumnsOk(cols)
  {
    if taken.None? then None else Onto(values + [taken.value.value], ReadRow(taken.value.rest, cols, flags))
  }

  lemma RowReadStep(bytes: seq<byte>, cols: seq<Column>, i: nat, flags: nat, values: seq<nat>)
    requires ColumnsOk(cols) && i < |cols|
    ensures ColumnsOk(cols[i..]) && ColumnsOk(cols[i + 1..])
    ensures Onto(values, ReadRow(bytes, cols[i..], flags)) == AfterTaking(values, TakeUint(WidthAt(cols, i, flags), bytes), cols[i + 1..], flags)
  {
    hide FromLE;
    var left := cols[i..];
    assert left[0] == cols[i] && left[1..] == cols[i + 1..];
    var w := ColumnWidth(cols[i], flags);
    if |bytes| >= w {
      match ReadRow(bytes[w..], cols[i + 1..], flags) {
        case None =>
        case Some(rest) => assert values + ([FromLE(bytes[..w])] + rest) == values + [FromLE(bytes[..w])] + rest;
      }
    }
  }
}
