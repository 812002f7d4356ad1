/**
 The two heaps of a manifest: strings and encoded constants. Interning gives equal values equal indices and keeps every
 index it has given; the serialised entries are read back one by one as they were.
 */
module Heaps {
  import opened Wrappers
  import opened Bytes
  import Utf8

  predicate Unique<T(==)>(s: seq<T>) {
    forall i, j :: 0 <= i < j < |s| ==> s[i] != s[j]
  }

  // ---- packing ------------------------------------------------------------------------------------------------

  /** Every blob behind its length. */
  function Pack(blobs: seq<seq<byte>>): seq<byte>
    requires forall b :: b in blobs ==> |b| <= VARLEN_4BYTE_MAX
  {
    if blobs == [] then [] else Varlen(|blobs[0]|) + (blobs[0] + Pack(blobs[1..]))
  }

  /** The blobs, or None where the bytes end early. */
  function Unpack(bytes: seq<byte>): Option<seq<seq<byte>>>
    decreases |bytes|
  {
    if bytes == [] then Some([])
    else
      match TakeVarlen(bytes)
      case None => None
      case Some(len) =>
        if len.value > |len.rest| then None
        else
          match Unpack(len.rest[len.value..])
          case None => None
          case Some(more) => Some([len.rest[..len.value]] + more)
  }

  lemma UnpackOne(bytes: seq<byte>, n: nat, rest: seq<byte>, more: seq<seq<byte>>)
    requires TakeVarlen(bytes) == Some(Taken(n, rest)) && n <= |rest| && Unpack(rest[n..]) == Some(more)
    ensures Unpack(bytes) == Some([rest[..n]] + more)
  {
    hide TakeVarlen;
  }

  lemma {:induction false} PackReadsBack(blobs: seq<seq<byte>>)
    requires forall b :: b in blobs ==> |b| <= VARLEN_4BYTE_MAX
    ensures Unpack(Pack(blobs)) == Some(blobs)
  {
    hide TakeVarlen, Varlen, Unpack;
    if blobs == [] {
      NothingPacked();
    } else {
      var rest := Pack(blobs[1..]);
      VarlenReadsBack(|blobs[0]|, blobs[0] + rest);
      assert (blobs[0] + rest)[..|blobs[0]|] == blobs[0] && (blobs[0] + rest)[|blobs[0]|..] == rest;
      PackReadsBack(blobs[1..]);
      UnpackOne(Pack(blobs), |blobs[0]|, blobs[0] + rest, blobs[1..]);
      assert [blobs[0]] + blobs[1..] == blobs;
    }
  }

  lemma NothingPacked()
    ensures Unpack([]) == Some([])
  {
  }

  lemma PackStep(blobs: seq<seq<byte>>, n: nat, written: seq<byte>)
    requires n < |blobs| && forall b :: b in blobs ==> |b| <= VARLEN_4BYTE_MAX
    ensures written + Pack(blobs[n..]) == written + Varlen(|blobs[n]|) + blobs[n] + Pack(blobs[n + 1..])
  {
    hide Varlen;
    var left := blobs[n..];
    assert left[0] == blobs[n] && left[1..] == blobs[n + 1..];
  }

  // ---- strings ------------------------------------------------------------------------------------------------

  function Encoded(entries: seq<string>): (r: seq<seq<byte>>)
    ensures |r| == |entries| && forall i :: 0 <= i < |r| ==> r[i] == Utf8.Encode(entries[i])
  {
    seq(|entries|, i requires 0 <= i < |entries| => Utf8.Encode(entries[i]))
  }

  function Decoded(blobs: seq<seq<byte>>): Option<seq<string>> {
    if blobs == [] then Some([])
    else
      match (Utf8.Decode(blobs[0]), Decoded(blobs[1..]))
      case (Some(s), Some(more)) => Some([s] + more)
      case _ => None
  }

  lemma {:induction false} EncodedReadsBack(entries: seq<string>)
    ensures Decoded(Encoded(entries)) == Some(entries)
  {
    if entries != [] {
      Utf8.TextReadsBack(entries[0]);
      EncodedReadsBack(entries[1..]);
      assert Encoded(entries)[1..] == Encoded(entries[1..]);
      assert Encoded(entries)[0] == Utf8.Encode(entries[0]);
      assert [entries[0]] + entries[1..] == entries;
    }
  }

  ghost predicate Packable(entries: seq<string>) {
    forall i :: 0 <= i < |entries| ==> |Utf8.Encode(entries[i])| <= VARLEN_4BYTE_MAX
  }

  function PackStrings(entries: seq<string>): seq<byte>
    requires Packable(entries)
  {
    Pack(Encoded(entries))
  }

  function UnpackStrings(bytes: seq<byte>): Option<seq<string>> {
    match Unpack(bytes)
    case None => None
    case Some(blobs) => Decoded(blobs)
  }

  lemma StringsReadBack(entries: seq<string>)
    requires Packable(entries)
    ensures UnpackStrings(PackStrings(entries)) == Some(entries)
  {
    PackReadsBack(Encoded(entries));
    EncodedReadsBack(entries);
  }

  function IndexOf<T(==)>(s: seq<T>, x: T): (i: nat)
    ensures i <= |s|
    ensures x in s ==> i < |s| && s[i] == x
    ensures x !in s ==> i == |s|
  {
    if s == [] then 0 else if s[0] == x then 0 else 1 + IndexOf(s[1..], x)
  }

  /** The entries once x is among them. */
  function Interned<T(==)>(s: seq<T>, x: T): seq<T> {
    if x in s then s else s + [x]
  }

  lemma {:induction false} FirstIndex<T>(s: seq<T>, x: T, i: nat)
    requires Unique(s) && i < |s| && s[i] == x
    ensures IndexOf(s, x) == i
  {
    if i > 0 {
      FirstIndex(s[1..], x, i - 1);
    }
  }

  /** Distinct entries; equal strings share an index; the empty string is entry 0. */
  class StringsHeap {
    var entries: seq<string>
    var index: map<string, nat>

    ghost predicate Valid()
      reads this
    {
      && Unique(entries) && entries != [] && entries[0] == ""
      && (forall s :: s in index <==> s in entries)
      && (forall s :: s in index ==> index[s] < |entries| && entries[index[s]] == s)
    }

    constructor ()
      ensures Valid() && entries == [""]
    {
      entries, index := [""], map["" := 0];
    }

    /** The index of a string, added if it is new; indices given before stay good. */
    method Intern(s: string) returns (i: nat)
      requires Valid()
      modifies this
      ensures Valid() && entries == Interned(old(entries), s) && i == IndexOf(entries, s) && entries[i] == s
      ensures old(entries) <= entries
    {
      if s in index {
        FirstIndex(entries, s, index[s]);
        return index[s];
      }
      i := |entries|;
      entries := entries + [s];
      index := index[s := i];
      FirstIndex(entries, s, i);
    }

    /** Every entry behind its length in UTF-8. */
    method ToBytes() returns (r: seq<byte>)
      requires Valid() && Packable(entries)
      ensures r == PackStrings(entries)
    {
      hide Varlen, Utf8.Encode, Unique, Pack;
      var writer := new ByteWriter();
      ghost var blobs := Encoded(entries);
      assert blobs[0..] == blobs && writer.Written() + Pack(blobs) == Pack(blobs);
      for n := 0 to |entries|
        invariant writer.Valid() && fresh(writer) && fresh(writer.buffer)
        invariant Pack(blobs) == writer.Written() + Pack(blobs[n..])
      {
        PackStep(blobs, n, writer.Written());
        var utf8 := Utf8.Encode(entries[n]);
        var ok := writer.VarlenU32(|utf8|);
        writer.Append(utf8);
      }
      NothingLeft(blobs);
      r := writer.ToBytes();
    }
  }

  lemma NothingLeft(blobs: seq<seq<byte>>)
    ensures Pack(blobs[|blobs|..]) == []
  {
  }

  // ---- constants ----------------------------------------------------------------------------------------------

  /** A pinned scalar; a double is its 64 bits. */
  datatype Const = Null | Bool(b: bool) | I64(n: int) | F64(bits: nat) | Str(s: string)

  const TAG_BOOL: byte := 0x01
  const TAG_I64: byte := 0x02
  const TAG_F64: byte := 0x03
  const TAG_STR: byte := 0x04

  predicate InRange(c: Const) {
    match c
    case I64(n) => -0x8000_0000_0000_0000 <= n < 0x8000_0000_0000_0000
    case F64(bits) => bits < 0x1_0000_0000_0000_0000
    case _ => true
  }

  /** A signed 64-bit integer as the unsigned one with the same bits. */
  function TwosComplement(n: int): (r: nat)
    requires -0x8000_0000_0000_0000 <= n < 0x8000_0000_0000_0000
    ensures r < 0x1_0000_0000_0000_0000
  {
    if n < 0 then n + 0x1_0000_0000_0000_0000 else n
  }

  /** The null value has an empty blob, every other a tag and its payload. */
  function EncodeConst(c: Const): seq<byte>
    requires InRange(c)
  {
    match c
    case Null => []
    case Bool(b) => [TAG_BOOL, if b then 1 else 0]
    case I64(n) => [TAG_I64] + LE(TwosComplement(n), 8)
    case F64(bits) => [TAG_F64] + LE(bits, 8)
    case Str(s) => [TAG_STR] + Utf8.Encode(s)
  }

  /** The value of a blob; None for an unknown tag or a payload cut short. */
  function DecodeConst(blob: seq<byte>): Option<Const> {
    if blob == [] || blob[0] == 0 then Some(Null)
    else
      var tag, payload := blob[0], blob[1..];
      if tag == TAG_BOOL then (if payload == [] then None else Some(Bool(payload[0] == 1)))
      else if tag == TAG_I64 then
        if |payload| < 8 then None
        else
          var v := FromLE(payload[..8]);
          Some(I64(if v < 0x8000_0000_0000_0000 then v else v - 0x1_0000_0000_0000_0000))
      else if tag == TAG_F64 then (if |payload| < 8 then None else Some(F64(FromLE(payload[..8]))))
      else if tag == TAG_STR then
        match Utf8.Decode(payload)
        case None => None
        case Some(s) => Some(Str(s))
      else None
  }

  lemma EightBytes()
    ensures Pow256(8) == 0x1_0000_0000_0000_0000
  {
    assert Pow256(4) == 0x1_0000_0000;
    assert Pow256(6) == 0x1_0000_0000_0000;
  }

  /** A constant is read back as it was. */
  lemma ConstReadsBack(c: Const)
    requires InRange(c)
    ensures DecodeConst(EncodeConst(c)) == Some(c)
  {
    EightBytes();
    match c
    case Null =>
    case Bool(b) =>
    case I64(n) =>
      FixedReadsBack(TwosComplement(n), 8);
      assert EncodeConst(c)[1..] == LE(TwosComplement(n), 8) && LE(TwosComplement(n), 8)[..8] == LE(TwosComplement(n), 8);
    case F64(bits) =>
      FixedReadsBack(bits, 8);
      assert EncodeConst(c)[1..] == LE(bits, 8) && LE(bits, 8)[..8] == LE(bits, 8);
    case Str(s) =>
      Utf8.TextReadsBack(s);
      assert EncodeConst(c)[1..] == Utf8.Encode(s);
  }

  /** Different constants have different blobs, so a shared index means an equal value. */
  lemma ConstsAreDistinct(c: Const, d: Const)
    requires InRange(c) && InRange(d)
    ensures EncodeConst(c) == EncodeConst(d) <==> c == d
  {
    ConstReadsBack(c);
    ConstReadsBack(d);
  }

  /** Distinct blobs; entry 0 is the empty blob of null. */
  class ConstHeap {
    var blobs: seq<seq<byte>>
    var index: map<seq<byte>, nat>

    ghost predicate Valid()
      reads this
    {
      && Unique(blobs) && blobs != [] && blobs[0] == []
      && (forall b :: b in index <==> b in blobs)
      && (forall b :: b in index ==> index[b] < |blobs| && blobs[index[b]] == b)
    }

    constructor ()
      ensures Valid() && blobs == [[]]
    {
      blobs, index := [[]], map[[] := 0];
    }

    /** The index of a constant, added if it is new. */
    method Intern(c: Const) returns (i: nat)
      requires Valid() && InRange(c)
      modifies this
      ensures Valid() && blobs == Interned(old(blobs), EncodeConst(c)) && i < |blobs| && blobs[i] == EncodeConst(c)
      ensures DecodeConst(blobs[i]) == Some(c) && old(blobs) <= blobs
    {
      ConstReadsBack(c);
      if c.Null? {
        return 0;
      }
      var blob := EncodeConst(c);
      if blob in index {
        return index[blob];
      }
      i := |blobs|;
      blobs := blobs + [blob];
      index := index[blob := i];
    }
  }
}
