/** String order and the JSON spelling the engine builds its grouping keys from. */
module Text {

  // ---- string order -------------------------------------------------------------------------------------------

  /** Lexicographic order of the character codes: -1, 0 or 1. */
  function CompareStrings(a: string, b: string): (c: int)
    ensures -1 <= c <= 1
  {
    if a == "" then (if b == "" then 0 else -1)
    else if b == "" then 1
    else if a[0] < b[0] then -1
    else if a[0] > b[0] then 1
    else CompareStrings(a[1..], b[1..])
  }

  lemma {:induction false} CompareStringsAntisymmetric(a: string, b: string)
    ensures CompareStrings(b, a) == -CompareStrings(a, b)
  {
    if a != "" && b != "" && a[0] == b[0] {
      CompareStringsAntisymmetric(a[1..], b[1..]);
    }
  }

  lemma {:induction false} CompareStringsTies(a: string, b: string)
    ensures CompareStrings(a, b) == 0 <==> a == b
  {
    if a != "" && b != "" && a[0] == b[0] {
      CompareStringsTies(a[1..], b[1..]);
      assert a == [a[0]] + a[1..] && b == [b[0]] + b[1..];
    }
  }

  lemma {:induction false} CompareStringsTransitive(a: string, b: string, c: string)
    requires CompareStrings(a, b) <= 0 && CompareStrings(b, c) <= 0
    ensures CompareStrings(a, c) <= 0
    ensures CompareStrings(a, b) < 0 || CompareStrings(b, c) < 0 ==> CompareStrings(a, c) < 0
  {
    if a != "" && b != "" && c != "" && a[0] == b[0] == c[0] {
      CompareStringsTransitive(a[1..], b[1..], c[1..]);
    }
  }

  // ---- JSON ---------------------------------------------------------------------------------------------------

  /** The JSON values grouping keys are made of. */
  datatype Json = JString(text: string) | JArray(items: seq<Json>)

  const HEX := "0123456789abcdef"

  predicate Plain(c: char) {
    c >= ' ' && c != '"' && c != '\\'
  }

  /** The letter of a short escape, or 'u' for a character spelled by its code. */
  function EscapeLetter(c: char): char {
    if c == '"' then '"'
    else if c == '\\' then '\\'
    else if c == '\U{8}' then 'b'
    else if c == '\U{C}' then 'f'
    else if c == '\n' then 'n'
    else if c == '\r' then 'r'
    else if c == '\t' then 't'
    else 'u'
  }

  /** One character inside a JSON string. */
  function Escape(c: char): (t: string)
    ensures |t| > 0 && t[0] != '"'
  {
    if Plain(c) then [c]
    else if EscapeLetter(c) != 'u' then ['\\', EscapeLetter(c)]
    else ['\\', 'u', '0', '0', HEX[c as int / 16], HEX[c as int % 16]]
  }

  function EscapeAll(s: string): (t: string)
    ensures s == "" ==> t == ""
    ensures s != "" ==> |t| > 0 && t[0] != '"'
  {
    if s == "" then "" else Escape(s[0]) + EscapeAll(s[1..])
  }

  function Print(j: Json): (t: string)
    ensures |t| > 0
    ensures t[0] == if j.JString? then '"' else '['
  {
    match j
    case JString(s) => ['"'] + EscapeAll(s) + ['"']
    case JArray(items) => ['['] + PrintItems(items) + [']']
  }

  function PrintItems(items: seq<Json>): (t: string)
    ensures items == [] ==> t == ""
    ensures items != [] ==> |t| > 0 && (t[0] == '"' || t[0] == '[')
  {
    if items == [] then ""
    else if |items| == 1 then Print(items[0])
    else Print(items[0]) + [','] + PrintItems(items[1..])
  }

  lemma HexDigits(m: nat, n: nat)
    requires m < 16 && n < 16 && HEX[m] == HEX[n]
    ensures m == n
  {
  }

  lemma EscapeIsInjective(c: char, d: char)
    requires Escape(c) == Escape(d)
    ensures c == d
  {
    var s, t := Escape(c), Escape(d);
    assert s[0] == t[0];
    if !Plain(c) {
      assert s[1] == t[1];
      if EscapeLetter(c) == 'u' {
        assert s[4] == t[4] && s[5] == t[5];
        HexDigits(c as int / 16, d as int / 16);
        HexDigits(c as int % 16, d as int % 16);
        assert c as int == d as int;
      }
    }
  }

  /** The first two characters of an escape tell how long it is. */
  lemma EscapeLengths(c: char, d: char, x: string, y: string)
    requires Escape(c) + x == Escape(d) + y
    ensures |Escape(c)| == |Escape(d)|
  {
    var s, t := Escape(c) + x, Escape(d) + y;
    assert s[0] == Escape(c)[0] && t[0] == Escape(d)[0];
    if !Plain(c) {
      assert s[1] == Escape(c)[1] && t[1] == Escape(d)[1];
    }
  }

  /** No escaped character is a proper prefix of another. */
  lemma EscapeIsPrefixFree(c: char, d: char, x: string, y: string)
    requires Escape(c) + x == Escape(d) + y
    ensures c == d && x == y
  {
    EscapeLengths(c, d, x, y);
    hide Escape;
    var n := |Escape(c)|;
    assert (Escape(c) + x)[..n] == Escape(c) && (Escape(d) + y)[..n] == Escape(d);
    assert (Escape(c) + x)[n..] == x && (Escape(d) + y)[n..] == y;
    EscapeIsInjective(c, d);
  }

  lemma {:induction false} EscapeAllIsPrefixFree(s: string, t: string, x: string, y: string)
    requires EscapeAll(s) + ['"'] + x == EscapeAll(t) + ['"'] + y
    ensures s == t && x == y
  {
    hide Escape;
    var l, r := EscapeAll(s) + ['"'] + x, EscapeAll(t) + ['"'] + y;
    assert l[0] == '"' <==> s == "";
    assert r[0] == '"' <==> t == "";
    if s == "" {
      assert x == l[1..] && y == r[1..];
    } else {
      assert l == Escape(s[0]) + (EscapeAll(s[1..]) + ['"'] + x);
      assert r == Escape(t[0]) + (EscapeAll(t[1..]) + ['"'] + y);
      EscapeIsPrefixFree(s[0], t[0], EscapeAll(s[1..]) + ['"'] + x, EscapeAll(t[1..]) + ['"'] + y);
      EscapeAllIsPrefixFree(s[1..], t[1..], x, y);
      assert s == [s[0]] + s[1..] && t == [t[0]] + t[1..];
    }
  }

  /** Whatever follows, the JSON text determines the value it spells. */
  lemma {:induction false} PrintIsPrefixFree(a: Json, b: Json, x: string, y: string)
    requires Print(a) + x == Print(b) + y
    ensures a == b && x == y
    decreases a
  {
    hide EscapeAll, PrintItems, Escape;
    var l, r := Print(a) + x, Print(b) + y;
    assert l[0] == Print(a)[0] && r[0] == Print(b)[0];
    if a.JString? {
      StringTail(a.text, x);
      StringTail(b.text, y);
      EscapeAllIsPrefixFree(a.text, b.text, x, y);
    } else {
      ArrayTail(a.items, x);
      ArrayTail(b.items, y);
      PrintItemsIsPrefixFree(a.items, b.items, [']'] + x, [']'] + y);
      Chop(']', x);
      Chop(']', y);
    }
  }

  lemma StringTail(s: string, x: string)
    ensures (Print(JString(s)) + x)[1..] == EscapeAll(s) + ['"'] + x
  {
    hide EscapeAll;
  }

  lemma ArrayTail(items: seq<Json>, x: string)
    ensures (Print(JArray(items)) + x)[1..] == PrintItems(items) + ([']'] + x)
  {
    hide PrintItems;
  }

  lemma {:induction false} PrintItemsIsPrefixFree(a: seq<Json>, b: seq<Json>, x: string, y: string)
    requires |x| > 0 && x[0] == ']' && |y| > 0 && y[0] == ']'
    requires PrintItems(a) + x == PrintItems(b) + y
    ensures a == b && x == y
    decreases a
  {
    hide Print;
    var l, r := PrintItems(a) + x, PrintItems(b) + y;
    assert l[0] == ']' <==> a == [];
    assert r[0] == ']' <==> b == [];
    if a == [] {
      assert l == x && r == y;
    } else {
      var xs, ys := AfterFirst(a, x), AfterFirst(b, y);
      PrintIsPrefixFree(a[0], b[0], xs, ys);
      assert xs[0] == ys[0];
      if |a| > 1 {
        Chop(',', PrintItems(a[1..]) + x);
        Chop(',', PrintItems(b[1..]) + y);
        PrintItemsIsPrefixFree(a[1..], b[1..], x, y);
      }
      assert a == [a[0]] + a[1..] && b == [b[0]] + b[1..];
    }
  }

  /** What follows the first of some printed items. */
  function AfterFirst(a: seq<Json>, x: string): (r: string)
    requires a != [] && |x| > 0 && x[0] == ']'
    ensures |r| > 0 && r[0] == if |a| == 1 then ']' else ','
    ensures PrintItems(a) + x == Print(a[0]) + r
  {
    if |a| == 1 then x
    else
      Reassociate(Print(a[0]), [','], PrintItems(a[1..]), x);
      [','] + (PrintItems(a[1..]) + x)
  }

  lemma Reassociate(a: string, b: string, c: string, d: string)
    ensures a + b + c + d == a + (b + (c + d))
  {
  }

  lemma Chop(c: char, s: string)
    ensures ([c] + s)[1..] == s
  {
  }

  /** Equal texts spell equal values: a key built from JSON text is as good as the value itself. */
  lemma PrintIsInjective(a: Json, b: Json)
    ensures Print(a) == Print(b) <==> a == b
  {
    if Print(a) == Print(b) {
      PrintIsPrefixFree(a, b, "", "");
    }
  }
}
