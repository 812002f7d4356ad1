/**
 The container layout: table columns, index widths and their flags, rows packed by width, and streams laid out at aligned
 offsets.
 */
module ManifestLayout {
  import opened Wrappers
  import opened Bytes

  // ---- tables -------------------------------------------------------------------------------------------------

  const TYPE_INFO := 0
  const FIELD := 1
  const REL := 2
  const TARGET := 3
  const CLASS := 4
  const FIXED := 5
  const TAXONOMY := 6
  const IMPORTS := 7
  const TYPE_REF := 8
  const ANNOTATION := 9
  const ANNOTATION_ARG := 10
  const TABLES := 11

  datatype Column = U8 | U16 | StrIndex | ConstIndex | Coded | RowOf(table: nat)

  /** The columns of a table, in the order a row packs them. */
  function Columns(table: nat): seq<Column> {
    if table == TYPE_INFO then
      [StrIndex, StrIndex, U8, Coded, RowOf(FIELD), U16, RowOf(REL), U16, RowOf(ANNOTATION), U16]
    else if table == FIELD then [StrIndex, Coded, U8]
    else if table == REL then [StrIndex, RowOf(TARGET), U16, U8, StrIndex, RowOf(ANNOTATION), U16]
    else if table == TARGET then [Coded]
    else if table == CLASS then
      [StrIndex, Coded, RowOf(TAXONOMY), RowOf(CLASS), RowOf(FIXED), U16, RowOf(ANNOTATION), U16]
    else if table == FIXED then [RowOf(FIELD), ConstIndex]
    else if table == TAXONOMY then [StrIndex, RowOf(TARGET), U16]
    else if table == IMPORTS then [StrIndex, StrIndex]
    else if table == TYPE_REF then [RowOf(IMPORTS), StrIndex]
    else if table == ANNOTATION then [Coded, RowOf(ANNOTATION_ARG), U16]
    else if table == ANNOTATION_ARG then [StrIndex, ConstIndex]
    else []
  }

  // ---- widths -------------------------------------------------------------------------------------------------

  /** Entries of the heaps and rows of the tables. */
  datatype Counts = Counts(strings: nat, consts: nat, rows: seq<nat>)

  const CODED_BIT := 13
  const FLAG_BITS := 14

  function MaxNat(a: nat, b: nat): nat {
    if a < b then b else a
  }

  /** Which index families need four bytes: heaps, then tables in order, then coded references. */
  function Wide(c: Counts): (r: seq<bool>)
    requires |c.rows| == TABLES
    ensures |r| == FLAG_BITS
  {
    [c.strings > 0xffff, c.consts > 0xffff] + seq(TABLES, t requires 0 <= t < TABLES => c.rows[t] > 0xffff)
    + [MaxNat(c.rows[TYPE_INFO], c.rows[TYPE_REF]) * 2 + 1 > 0xffff]
  }

  /** A flags word: bit i is set when the i-th family is wide. */
  function Flags(wide: seq<bool>): nat {
    if wide == [] then 0 else (if wide[0] then 1 else 0) + 2 * Flags(wide[1..])
  }

  predicate HasBit(flags: nat, bit: nat) {
    if bit == 0 then flags % 2 == 1 else HasBit(flags / 2, bit - 1)
  }

  function Width(flags: nat, bit: nat): (w: nat)
    ensures w == 2 || w == 4
  {
    if HasBit(flags, bit) then 4 else 2
  }

  lemma {:induction false} FlagsReadBack(wide: seq<bool>, bit: nat)
    requires bit < |wide|
    ensures HasBit(Flags(wide), bit) == wide[bit]
  {
    var rest := Flags(wide[1..]);
    assert Flags(wide) / 2 == rest;
    if bit > 0 {
      FlagsReadBack(wide[1..], bit - 1);
    }
  }

  function Pow2(n: nat): nat {
    if n == 0 then 1 else 2 * Pow2(n - 1)
  }

  lemma {:induction false} FlagsFit(wide: seq<bool>)
    ensures Flags(wide) < Pow2(|wide|)
  {
    if wide != [] {
      FlagsFit(wide[1..]);
    }
  }

  lemma {:induction false} SetBit(wide: seq<bool>, b: bool)
    ensures Flags(wide + [b]) == Flags(wide) + (if b then Pow2(|wide|) else 0)
  {
    if wide == [] {
      assert [] + [b] == [b] && [b][1..] == [];
      assert Flags([b]) == (if b then 1 else 0) + 2 * Flags([]);
    } else {
      SetBit(wide[1..], b);
      assert (wide + [b])[1..] == wide[1..] + [b];
    }
  }

  /** The flags word, a bit at a time. */
  method FromCounts(c: Counts) returns (flags: nat)
    requires |c.rows| == TABLES
    ensures flags == Flags(Wide(c)) && flags < 0x1_0000
  {
    var wide := Wide(c);
    flags := 0;
    var bit := 1;
    for i := 0 to FLAG_BITS
      invariant flags == Flags(wide[..i]) && bit == Pow2(i)
    {
      SetBit(wide[..i], wide[i]);
      assert wide[..i + 1] == wide[..i] + [wide[i]];
      if wide[i] {
        flags := flags + bit;
      }
      bit := 2 * bit;
    }
    assert wide[..FLAG_BITS] == wide;
    FlagsAreAWord(wide);
  }

  lemma FlagsAreAWord(wide: seq<bool>)
    requires |wide| == FLAG_BITS
    ensures Flags(wide) < 0x1_0000
  {
    FlagsFit(wide);
    assert Pow2(7) == 128;
    assert Pow2(14) == 16384;
  }

  function ColumnWidth(col: Column, flags: nat): (w: nat)
    requires col.RowOf? ==> col.table < TABLES
    ensures 1 <= w <= 4
  {
    match col
    case U8 => 1
    case U16 => 2
    case StrIndex => Width(flags, 0)
    case ConstIndex => Width(flags, 1)
    case Coded => Width(flags, CODED_BIT)
    case RowOf(table) => Width(flags, 2 + table)
  }

  predicate ColumnsOk(cols: seq<Column>) {
    forall i :: 0 <= i < |cols| ==> cols[i].RowOf? ==> cols[i].table < TABLES
  }

  lemma TableColumnsOk(table: nat)
    ensures ColumnsOk(Columns(table))
  {
  }

  /** Packed bytes of a row. */
  function RecordSize(cols: seq<Column>, flags: nat): (n: nat)
    requires ColumnsOk(cols)
    ensures |cols| <= n <= 4 * |cols|
  {
    if cols == [] then 0 else ColumnWidth(cols[0], flags) + RecordSize(cols[1..], flags)
  }

  // ---- what fits ----------------------------------------------------------------------------------------------

  /** The values a column can hold: indices that exist, or null. */
  predicate InColumn(col: Column, value: nat, c: Counts)
    requires |c.rows| == TABLES && (col.RowOf? ==> col.table < TABLES)
  {
    match col
    case U8 => value < 0x100
    case U16 => value < 0x1_0000
    case StrIndex => value < c.strings
    case ConstIndex => value < c.consts
    case Coded => value <= MaxNat(c.rows[TYPE_INFO], c.rows[TYPE_REF]) * 2 + 1
    case RowOf(table) => value <= c.rows[table]
  }

  /** Every count fits 31 bits. */
  predicate CountsOk(c: Counts) {
    |c.rows| == TABLES && c.strings < 0x8000_0000 && c.consts < 0x8000_0000 && forall t :: 0 <= t < TABLES ==> c.rows[t] < 0x4000_0000
  }

  lemma Pow256Values()
    ensures Pow256(1) == 0x100 && Pow256(2) == 0x1_0000 && Pow256(4) == 0x1_0000_0000
  {
    assert Pow256(3) == 0x100_0000;
  }

  /** The width chosen from the counts holds every value of the column. */
  lemma WidthHolds(col: Column, value: nat, c: Counts)
    requires CountsOk(c) && (col.RowOf? ==> col.table < TABLES) && InColumn(col, value, c)
    ensures value < Pow256(ColumnWidth(col, Flags(Wide(c))))
  {
    hide HasBit, Flags, Pow256;
    Pow256Values();
    FlagsReadBack(Wide(c), 0);
    FlagsReadBack(Wide(c), 1);
    FlagsReadBack(Wide(c), CODED_BIT);
    if col.RowOf? {
      FlagsReadBack(Wide(c), 2 + col.table);
    }
  }

  // ---- rows ---------------------------------------------------------------------------------------------------

  predicate RowFits(row: seq<nat>, cols: seq<Column>, flags: nat)
    requires ColumnsOk(cols)
  {
    |row| == |cols| && forall i :: 0 <= i < |row| ==> row[i] < Pow256(ColumnWidth(cols[i], flags))
  }

  function RowBytes(row: seq<nat>, cols: seq<Column>, flags: nat): (r: seq<byte>)
    requires ColumnsOk(cols) && |row| == |cols|
    ensures |r| == RecordSize(cols, flags)
  {
    if row == [] then [] else LE(row[0], ColumnWidth(cols[0], flags)) + RowBytes(row[1..], cols[1..], flags)
  }

  /** A row at the start of the bytes; None when they end early. */
  function ReadRow(bytes: seq<byte>, cols: seq<Column>, flags: nat): Option<seq<nat>>
    requires ColumnsOk(cols)
  {
    if cols == [] then Some([])
    else
      var w := ColumnWidth(cols[0], flags);
      if |bytes| < w then None
      else
        match ReadRow(bytes[w..], cols[1..], flags)
        case None => None
        case Some(rest) => Some([FromLE(bytes[..w])] + rest)
  }

  lemma {:induction false} RowReadsBack(row: seq<nat>, cols: seq<Column>, flags: nat, rest: seq<byte>)
    requires ColumnsOk(cols) && RowFits(row, cols, flags)
    ensures ReadRow(RowBytes(row, cols, flags) + rest, cols, flags) == Some(row)
    decreases |row|
  {
    hide ColumnWidth, LE, FromLE, Pow256;
    if row != [] {
      var w := ColumnWidth(cols[0], flags);
      var tail := RowBytes(row[1..], cols[1..], flags);
      var bytes := RowBytes(row, cols, flags) + rest;
      assert bytes == LE(row[0], w) + (tail + rest);
      assert bytes[..w] == LE(row[0], w) && bytes[w..] == tail + rest;
      FixedReadsBack(row[0], w);
      RowReadsBack(row[1..], cols[1..], flags, rest);
      assert [row[0]] + row[1..] == row;
    }
  }

  predicate RowsShaped(rows: seq<seq<nat>>, cols: seq<Column>) {
    forall i :: 0 <= i < |rows| ==> |rows[i]| == |cols|
  }

  function TableBytes(rows: seq<seq<nat>>, cols: seq<Column>, flags: nat): (r: seq<byte>)
    requires ColumnsOk(cols) && RowsShaped(rows, cols)
  {
    if rows == [] then [] else RowBytes(rows[0], cols, flags) + TableBytes(rows[1..], cols, flags)
  }

  lemma OneMore(n: nat, size: nat)
    ensures (n + 1) * size == n * size + size
  {
  }

  /** The rows from the k-th on, each at its own offset. */
  function ReadRows(bytes: seq<byte>, offset: nat, size: nat, k: nat, count: nat, cols: seq<Column>, flags: nat): Option<seq<seq<nat>>>
    requires ColumnsOk(cols)
    decreases count - k
  {
    if k >= count then Some([])
    else
      var at := offset + k * size;
      if at > |bytes| then None
      else
        match (ReadRow(bytes[at..], cols, flags), ReadRows(bytes, offset, size, k + 1, count, cols, flags))
        case (Some(row), Some(rest)) => Some([row] + rest)
        case _ => None
  }

  /** The bytes have the stream at the offset. */
  predicate Holds(bytes: seq<byte>, offset: nat, stream: seq<byte>) {
    offset + |stream| <= |bytes| && bytes[offset..offset + |stream|] == stream
  }

  /** A stream that starts with one part has the other right after it. */
  lemma HoldsParts(bytes: seq<byte>, at: nat, first: seq<byte>, more: seq<byte>)
    requires Holds(bytes, at, first + more)
    ensures at + |first| <= |bytes| && Holds(bytes, at + |first|, more)
    ensures bytes[at..] == first + bytes[at + |first|..]
  {
    var stream := first + more;
    assert bytes[at + |first|..at + |stream|] == more by {
      assert bytes[at..at + |stream|][|first|..] == more;
    }
    assert bytes[at..at + |first|] == first by {
      assert bytes[at..at + |stream|][..|first|] == first;
    }
  }

  lemma ReadOneRow(bytes: seq<byte>, offset: nat, size: nat, k: nat, count: nat, cols: seq<Column>, flags: nat, row: seq<nat>, rest: seq<seq<nat>>)
    requires ColumnsOk(cols) && k < count && offset + k * size <= |bytes|
    requires ReadRow(bytes[offset + k * size..], cols, flags) == Some(row)
    requires ReadRows(bytes, offset, size, k + 1, count, cols, flags) == Some(rest)
    ensures ReadRows(bytes, offset, size, k, count, cols, flags) == Some([row] + rest)
  {
    hide ReadRow, ColumnsOk;
  }

  /** The rows of a stream are read back, each from its own offset. */
  lemma {:induction false} RowsReadBack(bytes: seq<byte>, offset: nat, rows: seq<seq<nat>>, k: nat, cols: seq<Column>, flags: nat)
    requires ColumnsOk(cols) && RowsShaped(rows, cols) && k <= |rows|
    requires forall i :: 0 <= i < |rows| ==> RowFits(rows[i], cols, flags)
    requires Holds(bytes, offset + k * RecordSize(cols, flags), TableBytes(rows[k..], cols, flags))
    ensures ReadRows(bytes, offset, RecordSize(cols, flags), k, |rows|, cols, flags) == Some(rows[k..])
    decreases |rows| - k
  {
    hide RowFits, RecordSize, ReadRow, RowBytes, ColumnsOk, ReadRows, Holds;
    var size := RecordSize(cols, flags);
    if k == |rows| {
      NoRows(bytes, offset, size, k, cols, flags);
    } else {
      var at := offset + k * size;
      var left := rows[k..];
      assert left[0] == rows[k] && left[1..] == rows[k + 1..];
      var first, more := RowBytes(rows[k], cols, flags), TableBytes(rows[k + 1..], cols, flags);
      assert TableBytes(left, cols, flags) == first + more;
      HoldsParts(bytes, at, first, more);
      OneMore(k, size);
      RowsReadBack(bytes, offset, rows, k + 1, cols, flags);
      RowReadsBack(rows[k], cols, flags, bytes[at + size..]);
      ReadOneRow(bytes, offset, size, k, |rows|, cols, flags, rows[k], rows[k + 1..]);
      assert [rows[k]] + rows[k + 1..] == left;
    }
  }

  lemma NoRows(bytes: seq<byte>, offset: nat, size: nat, k: nat, cols: seq<Column>, flags: nat)
    requires ColumnsOk(cols)
    ensures ReadRows(bytes, offset, size, k, k, cols, flags) == Some([])
  {
  }

  // ---- streams ------------------------------------------------------------------------------------------------

  function Aligned(n: nat): (r: nat)
    ensures r >= n && r % 4 == 0
  {
    n + PadOf(n, 4)
  }

  /** Streams one after the other, all but the last padded to a multiple of four; `at` is where the first one starts. */
  function Laid(streams: seq<seq<byte>>, at: nat): seq<byte> {
    if streams == [] then []
    else if |streams| == 1 then streams[0]
    else
      var end := at + |streams[0]|;
      streams[0] + (Zeros(PadOf(end, 4)) + Laid(streams[1..], Aligned(end)))
  }

  function Offsets(streams: seq<seq<byte>>, at: nat): (r: seq<nat>)
    ensures |r| == |streams|
  {
    if streams == [] then [] else [at] + Offsets(streams[1..], Aligned(at + |streams[0]|))
  }

  /** Every recorded offset is the aligned position where its stream starts. */
  lemma {:induction false} StreamsAreAtOffsets(before: seq<byte>, streams: seq<seq<byte>>, i: nat)
    requires i < |streams| && |before| % 4 == 0
    ensures Holds(before + Laid(streams, |before|), Offsets(streams, |before|)[i], streams[i])
    ensures Offsets(streams, |before|)[i] % 4 == 0
    decreases |streams|
  {
    var all := before + Laid(streams, |before|);
    var end := |before| + |streams[0]|;
    if i == 0 {
      assert all[|before|..end] == streams[0];
    } else {
      var next := before + streams[0] + Zeros(PadOf(end, 4));
      assert |next| == Aligned(end);
      StreamsAreAtOffsets(next, streams[1..], i - 1);
      assert all == next + Laid(streams[1..], |next|);
    }
  }
}
