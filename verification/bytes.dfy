/**
 Byte-level encodings of the manifest container, and the growing writer and the cursor that produce and consume them:
 little-endian unsigned integers, the compressed unsigned integers of section II.23.2 of ECMA-335, and alignment.
 */
module Bytes {
  import opened Wrappers

  type byte = b: nat | b < 256 witness 0

  // ---- fixed width --------------------------------------------------------------------------------------------

  function Pow256(w: nat): (r: nat)
    ensures r > 0
  {
    if w == 0 then 1 else 256 * Pow256(w - 1)
  }

  /** The low `w` bytes of a value, least significant first. */
  function LE(value: nat, w: nat): (r: seq<byte>)
    ensures |r| == w
  {
    if w == 0 then [] else [(value % 256) as byte] + LE(value / 256, w - 1)
  }

  function FromLE(bytes: seq<byte>): nat {
    if bytes == [] then 0 else bytes[0] + 256 * FromLE(bytes[1..])
  }

  lemma {:induction false} FixedReadsBack(value: nat, w: nat)
    requires value < Pow256(w)
    ensures FromLE(LE(value, w)) == value
  {
    if w > 0 {
      var rest := LE(value / 256, w - 1);
      assert LE(value, w)[1..] == rest;
      FixedReadsBack(value / 256, w - 1);
    }
  }

  // ---- compressed -----------------------------------------------------------------------------------------------

  const VARLEN_1BYTE_MAX := 0x7f
  const VARLEN_2BYTE_MAX := 0x3fff
  const VARLEN_4BYTE_MAX := 0x1fff_ffff

  /** One, two or four bytes, most significant first, the length in the top bits: 0, 10 or 110. */
  function Varlen(value: nat): (r: seq<byte>)
    requires value <= VARLEN_4BYTE_MAX
    ensures |r| == if value <= VARLEN_1BYTE_MAX then 1 else if value <= VARLEN_2BYTE_MAX then 2 else 4
  {
    if value <= VARLEN_1BYTE_MAX then [value]
    else if value <= VARLEN_2BYTE_MAX then [0x80 + value / 256, value % 256]
    else [0xc0 + value / 0x100_0000, (value / 0x1_0000) % 256, (value / 256) % 256, value % 256]
  }

  datatype Taken<T> = Taken(value: T, rest: seq<byte>)

  /** Reads a compressed integer; None when the bytes end early. */
  function TakeVarlen(bytes: seq<byte>): (r: Option<Taken<nat>>)
    ensures r.Some? ==> |r.value.rest| < |bytes|
  {
    if bytes == [] then None
    else
      var b0: nat := bytes[0];
      if b0 < 0x80 then Some(Taken(b0, bytes[1..]))
      else if b0 < 0xc0 then
        if |bytes| < 2 then None
        else
          var b1: nat := bytes[1];
          Some(Taken((b0 - 0x80) * 256 + b1, bytes[2..]))
      else if |bytes| < 4 then None
      else
        var b1: nat, b2: nat, b3: nat := bytes[1], bytes[2], bytes[3];
        Some(Taken((b0 % 0x20) * 0x100_0000 + b1 * 0x1_0000 + b2 * 256 + b3, bytes[4..]))
  }

  /** A compressed integer is read back as itself, and nothing more is read. */
  lemma VarlenReadsBack(value: nat, rest: seq<byte>)
    requires value <= VARLEN_4BYTE_MAX
    ensures TakeVarlen(Varlen(value) + rest) == Some(Taken(value, rest))
  {
    var text := Varlen(value) + rest;
    assert text[|Varlen(value)|..] == rest;
    if value > VARLEN_2BYTE_MAX {
      FourBytes(value);
    }
  }

  lemma FourBytes(value: nat)
    requires VARLEN_2BYTE_MAX < value <= VARLEN_4BYTE_MAX
    ensures 0xc0 <= 0xc0 + value / 0x100_0000 < 0xe0
    ensures (0xc0 + value / 0x100_0000) % 0x20 == value / 0x100_0000
    ensures (value / 0x100_0000) * 0x100_0000 + ((value / 0x1_0000) % 256) * 0x1_0000 + ((value / 256) % 256) * 256 + value % 256 == value
  {
    assert value / 0x1_0000 == (value / 256) / 256;
    assert value / 0x100_0000 == (value / 0x1_0000) / 256;
  }

  /** The length of a compressed integer is the shortest the value allows, and its first bits tell it. */
  lemma VarlenLengthInFirstByte(value: nat)
    requires value <= VARLEN_4BYTE_MAX
    ensures |Varlen(value)| == if Varlen(value)[0] < 0x80 then 1 else if Varlen(value)[0] < 0xc0 then 2 else 4
    ensures |Varlen(value)| == 4 ==> Varlen(value)[0] < 0xe0
  {
  }

  // ---- alignment ----------------------------------------------------------------------------------------------

  function Zeros(n: nat): (r: seq<byte>)
    ensures |r| == n
  {
    seq(n, i => 0)
  }

  function PadOf(at: nat, boundary: nat): (r: nat)
    requires boundary > 0
    ensures r < boundary && (at + r) % boundary == 0
  {
    var rem := at % boundary;
    if rem == 0 then 0
    else
      PadLands(at, boundary);
      boundary - rem
  }

  lemma PadLands(at: nat, boundary: nat)
    requires boundary > 0
    ensures (at + (boundary - at % boundary)) % boundary == 0
  {
    var q := at / boundary;
    assert at + (boundary - at % boundary) == (q + 1) * boundary;
    MultipleOf(q + 1, boundary);
  }

  lemma {:induction false} MultipleOf(q: nat, b: nat)
    requires b > 0
    ensures (q * b) % b == 0
  {
    if q > 0 {
      MultipleOf(q - 1, b);
      assert q * b == (q - 1) * b + b;
      StepOver((q - 1) * b, b);
    }
  }

  lemma StepOver(x: nat, b: nat)
    requires b > 0 && x % b == 0
    ensures (x + b) % b == 0
  {
    var q, p, r := x / b, (x + b) / b, (x + b) % b;
    assert x == q * b && x + b == p * b + r;
    assert (q + 1 - p) * b == (q + 1) * b - p * b == q * b + b - p * b == r;
    Multiples(q + 1 - p, b, r);
  }

  lemma Scaled(k: int, b: int)
    requires b >= 0
    ensures k >= 1 ==> k * b >= b
    ensures k <= -1 ==> k * b <= -b
  {
    if k >= 1 {
      assert k * b == (k - 1) * b + b;
    } else if k <= -1 {
      assert k * b == (k + 1) * b - b;
    }
  }

  lemma Multiples(k: int, b: nat, r: nat)
    requires r < b && k * b == r
    ensures r == 0
  {
    Scaled(k, b);
  }

  // ---- the writer ---------------------------------------------------------------------------------------------

  /** A growing little-endian sink. */
  class ByteWriter {
    var buffer: array<byte>
    var used: nat

    ghost predicate Valid()
      reads this
    {
      used <= buffer.Length && buffer.Length >= 64
    }

    ghost function Written(): seq<byte>
      requires Valid()
      reads this, buffer
    {
      buffer[..used]
    }

    constructor ()
      ensures Valid() && fresh(buffer) && Written() == []
    {
      buffer := new byte[64](i => 0);
      used := 0;
    }

    /** Makes room, doubling the buffer until it fits. */
    method Ensure(extra: nat)
      requires Valid()
      modifies this`buffer
      ensures Valid() && Written() == old(Written()) && used + extra <= buffer.Length
      ensures buffer == old(buffer) || fresh(buffer)
    {
      var need := used + extra;
      if need <= buffer.Length {
        return;
      }
      var cap := buffer.Length * 2;
      while cap < need
        invariant Valid() && buffer == old(buffer) && cap >= buffer.Length * 2
      {
        cap := cap * 2;
      }
      var grown := new byte[cap](i => 0);
      for i := 0 to used
        invariant Valid() && buffer == old(buffer) && fresh(grown) && grown[..i] == buffer[..i]
      {
        grown[i] := buffer[i];
      }
      buffer := grown;
    }

    /** Puts a byte where there is room for it. */
    method Put(value: byte)
      requires Valid() && used < buffer.Length
      modifies this`used, buffer
      ensures Valid() && buffer == old(buffer) && used == old(used) + 1 && Written() == old(Written()) + [value]
    {
      buffer[used] := value;
      used := used + 1;
    }

    /** The low bytes of a value, least significant first; what does not fit is cut off. */
    method Uint(value: nat, width: nat)
      requires Valid()
      modifies this, buffer
      ensures Valid() && (buffer == old(buffer) || fresh(buffer)) && Written() == old(Written()) + LE(value, width)
    {
      Ensure(width);
      var left := value;
      ghost var start := Written();
      for i := 0 to width
        invariant Valid() && (buffer == old(buffer) || fresh(buffer)) && used + (width - i) <= buffer.Length
        invariant start + LE(value, width) == Written() + LE(left, width - i)
      {
        Put((left % 256) as byte);
        left := left / 256;
      }
    }

    method Append(data: seq<byte>)
      requires Valid()
      modifies this, buffer
      ensures Valid() && (buffer == old(buffer) || fresh(buffer)) && Written() == old(Written()) + data
    {
      Ensure(|data|);
      ghost var start := Written();
      for i := 0 to |data|
        invariant Valid() && (buffer == old(buffer) || fresh(buffer)) && used + (|data| - i) <= buffer.Length
        invariant Written() == start + data[..i]
      {
        Put(data[i]);
      }
    }

    /** False, and nothing written, for a value out of range. */
    method VarlenU32(value: nat) returns (ok: bool)
      requires Valid()
      modifies this, buffer
      ensures Valid() && (buffer == old(buffer) || fresh(buffer)) && ok == (value <= VARLEN_4BYTE_MAX)
      ensures Written() == if ok then old(Written()) + Varlen(value) else old(Written())
    {
      if value > VARLEN_4BYTE_MAX {
        return false;
      }
      Ensure(4);
      if value <= VARLEN_1BYTE_MAX {
        Put(value);
      } else if value <= VARLEN_2BYTE_MAX {
        Put(0x80 + value / 256);
        Put(value % 256);
      } else {
        Put(0xc0 + value / 0x100_0000);
        Put((value / 0x1_0000) % 256);
        Put((value / 256) % 256);
        Put(value % 256);
      }
      ok := true;
    }

    /** Zeros up to the next multiple of the boundary. */
    method Align(boundary: nat)
      requires Valid() && boundary > 0
      modifies this, buffer
      ensures Valid() && (buffer == old(buffer) || fresh(buffer))
      ensures Written() == old(Written()) + Zeros(PadOf(old(used), boundary))
    {
      var rem := used % boundary;
      if rem == 0 {
        return;
      }
      Ensure(boundary - rem);
      ghost var start := Written();
      for i := rem to boundary
        invariant Valid() && (buffer == old(buffer) || fresh(buffer)) && used + (boundary - i) <= buffer.Length
        invariant Written() == start + Zeros(i - rem)
      {
        Put(0);
      }
    }

    method ToBytes() returns (r: seq<byte>)
      requires Valid()
      ensures r == Written()
    {
      r := buffer[..used];
    }
  }
}
