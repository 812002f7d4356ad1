/** UTF-8 text, section 3 of RFC 3629: a code point takes one to four bytes, and the text is read back as it was. */
module Utf8 {
  import opened Wrappers
  import opened Bytes

  function EncodeChar(c: char): (r: seq<byte>)
    ensures 1 <= |r| <= 4
  {
    var n := c as int;
    if n < 0x80 then [n]
    else if n < 0x800 then [0xc0 + n / 0x40, 0x80 + n % 0x40]
    else if n < 0x1_0000 then [0xe0 + n / 0x1000, 0x80 + (n / 0x40) % 0x40, 0x80 + n % 0x40]
    else [0xf0 + n / 0x4_0000, 0x80 + (n / 0x1000) % 0x40, 0x80 + (n / 0x40) % 0x40, 0x80 + n % 0x40]
  }

  function Encode(s: string): seq<byte> {
    if s == "" then [] else EncodeChar(s[0]) + Encode(s[1..])
  }

  predicate IsCodePoint(n: int) {
    0 <= n < 0xd800 || 0xe000 <= n < 0x11_0000
  }

  function At(bytes: seq<byte>, i: nat): nat {
    if i < |bytes| then bytes[i] else 0
  }

  /** How many bytes the character that starts with this byte takes. */
  function LengthOf(b: byte): (n: nat)
    ensures 1 <= n <= 4
  {
    if b < 0x80 then 1 else if b < 0xe0 then 2 else if b < 0xf0 then 3 else 4
  }

  function CodePoint(bytes: seq<byte>): nat
    requires bytes != []
  {
    var b: nat := bytes[0];
    if b < 0x80 then b
    else if b < 0xe0 then (b % 0x20) * 0x40 + At(bytes, 1) % 0x40
    else if b < 0xf0 then (b % 0x10) * 0x1000 + (At(bytes, 1) % 0x40) * 0x40 + At(bytes, 2) % 0x40
    else (b % 0x08) * 0x4_0000 + (At(bytes, 1) % 0x40) * 0x1000 + (At(bytes, 2) % 0x40) * 0x40 + At(bytes, 3) % 0x40
  }

  /** The text, or None where the bytes end early or are no code point. */
  function Decode(bytes: seq<byte>): Option<string> {
    if bytes == [] then Some("")
    else
      var n := LengthOf(bytes[0]);
      if n > |bytes| || !IsCodePoint(CodePoint(bytes)) then None
      else
        match Decode(bytes[n..])
        case None => None
        case Some(s) => Some([CodePoint(bytes) as char] + s)
  }

  lemma SplitTwo(n: nat)
    requires 0x80 <= n < 0x800
    ensures 0xc0 <= 0xc0 + n / 0x40 < 0xe0 && (0xc0 + n / 0x40) % 0x20 == n / 0x40 && (0x80 + n % 0x40) % 0x40 == n % 0x40
  {
  }

  lemma SplitThree(n: nat)
    requires 0x800 <= n < 0x1_0000
    ensures 0xe0 <= 0xe0 + n / 0x1000 < 0xf0 && (0xe0 + n / 0x1000) % 0x10 == n / 0x1000
    ensures (0x80 + (n / 0x40) % 0x40) % 0x40 == (n / 0x40) % 0x40 && (0x80 + n % 0x40) % 0x40 == n % 0x40
    ensures (n / 0x1000) * 0x1000 + ((n / 0x40) % 0x40) * 0x40 + n % 0x40 == n
  {
    assert n / 0x1000 == (n / 0x40) / 0x40;
  }

  lemma SplitFour(n: nat)
    requires 0x1_0000 <= n < 0x11_0000
    ensures 0xf0 <= 0xf0 + n / 0x4_0000 < 0xf8 && (0xf0 + n / 0x4_0000) % 0x08 == n / 0x4_0000
    ensures (0x80 + (n / 0x1000) % 0x40) % 0x40 == (n / 0x1000) % 0x40
    ensures (0x80 + (n / 0x40) % 0x40) % 0x40 == (n / 0x40) % 0x40 && (0x80 + n % 0x40) % 0x40 == n % 0x40
    ensures (n / 0x4_0000) * 0x4_0000 + ((n / 0x1000) % 0x40) * 0x1000 + ((n / 0x40) % 0x40) * 0x40 + n % 0x40 == n
  {
    assert n / 0x1000 == (n / 0x40) / 0x40;
    assert n / 0x4_0000 == (n / 0x1000) / 0x40;
  }

  lemma CharReadsBack(c: char, rest: seq<byte>)
    ensures var bytes := EncodeChar(c) + rest;
            bytes != [] && LengthOf(bytes[0]) == |EncodeChar(c)| && CodePoint(bytes) == c as int && IsCodePoint(c as int)
  {
    var n := c as int;
    var bytes := EncodeChar(c) + rest;
    assert forall i :: 0 <= i < |EncodeChar(c)| ==> bytes[i] == EncodeChar(c)[i];
    if 0x80 <= n < 0x800 {
      SplitTwo(n);
    } else if 0x800 <= n < 0x1_0000 {
      SplitThree(n);
    } else if 0x1_0000 <= n {
      SplitFour(n);
    }
  }

  lemma {:induction false} TextReadsBack(s: string)
    ensures Decode(Encode(s)) == Some(s)
  {
    if s != "" {
      var rest := Encode(s[1..]);
      CharReadsBack(s[0], rest);
      TextReadsBack(s[1..]);
      assert (EncodeChar(s[0]) + rest)[|EncodeChar(s[0])|..] == rest;
      assert [s[0]] + s[1..] == s;
    }
  }
}
