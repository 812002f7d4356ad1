/**
 The lexer as it runs: a cursor over the source with its line and column, advanced character by character. `Tokenize` is
 proved against `PlacedFrom`, and `PlacedAreLexed` says that those are the tokens of Lexing.Lex, each with the position of
 its first character.
 */
module Lexer {
  import opened Wrappers
  import opened NumberText
  import opened Tokens
  import opened Lexing

  /** A token, None at the end of the source, and where it starts. */
  datatype Placed = Placed(token: Option<Token>, line: nat, column: nat)

  datatype Failure = Failure(fault: Fault, line: nat, column: nat)

  function LineAt(s: string, n: nat): nat
    requires n <= |s|
  {
    if n == 0 then 1 else LineAt(s, n - 1) + (if s[n - 1] == '\n' then 1 else 0)
  }

  function ColumnAt(s: string, n: nat): nat
    requires n <= |s|
  {
    if n == 0 || s[n - 1] == '\n' then 1 else ColumnAt(s, n - 1) + 1
  }

  /** The index at which a suffix of s starts. */
  function StartOf(s: string, suffix: string): nat
    requires |suffix| <= |s|
  {
    |s| - |suffix|
  }

  /** The tokens from the i-th character on. */
  function PlacedFrom(s: string, i: nat): Result<seq<Placed>, Failure>
    requires i <= |s|
    decreases |s| - i
  {
    var start := StartOf(s, SkipSpace(s[i..]));
    if start == |s| then Ok([Placed(None, LineAt(s, start), ColumnAt(s, start))])
    else
      match Next(s[start..])
      case Err(e) => Err(Failure(e.fault, LineAt(s, start), ColumnAt(s, start)))
      case Ok(lexeme) =>
        match PlacedFrom(s, StartOf(s, lexeme.rest))
        case Err(e) => Err(e)
        case Ok(rest) => Ok([Placed(Some(lexeme.token), LineAt(s, start), ColumnAt(s, start))] + rest)
  }

  // ---- positions and plain tokens -----------------------------------------------------------------------------

  predicate IsSuffix(a: string, s: string) {
    |a| <= |s| && s[|s| - |a|..] == a
  }

  lemma {:induction false} SkipIsSuffix(s: string)
    ensures IsSuffix(SkipSpace(s), s)
  {
    if s != "" && IsSpace(s[0]) {
      SkipIsSuffix(s[1..]);
    }
  }

  lemma {:induction false} QuotedIsSuffix(q: char, s: string)
    requires ReadQuoted(q, s).Some?
    ensures IsSuffix(ReadQuoted(q, s).value.rest, s)
  {
    if s[0] != q {
      QuotedIsSuffix(q, s[1..]);
    } else if |s| > 1 && s[1] == q {
      QuotedIsSuffix(q, s[2..]);
    }
  }

  lemma NextIsSuffix(s: string)
    requires s != "" && Next(s).Ok?
    ensures IsSuffix(Next(s).value.rest, s)
  {
    hide ReadQuoted, ReadNumber, ReadWord, IsKeyword;
    if s[0] == QUOTE || s[0] == BACKTICK {
      QuotedIsSuffix(s[0], s[1..]);
    }
  }

  /** The tokens without their positions, up to the end-of-file token. */
  function Bare(tokens: seq<Placed>): TokenList {
    if tokens == [] || tokens[0].token.None? then Nil else Cons(tokens[0].token.value, Bare(tokens[1..]))
  }

  /** The placed tokens are the tokens of the text; a fault is placed at the token it was raised in. */
  lemma {:induction false} PlacedAreLexed(s: string, i: nat)
    requires i <= |s|
    ensures match Lex(s[i..])
            case Ok(toks) => PlacedFrom(s, i).Ok? && Bare(PlacedFrom(s, i).value) == toks
            case Err(e) => e.left <= |s| && PlacedFrom(s, i) == Err(Failure(e.fault, LineAt(s, |s| - e.left), ColumnAt(s, |s| - e.left)))
    decreases |s| - i
  {
    hide Next, SkipSpace, LineAt, ColumnAt;
    var tail := SkipSpace(s[i..]);
    SkipIsSuffix(s[i..]);
    var start := StartOf(s, tail);
    assert s[start..] == tail;
    if tail != "" {
      FaultIsHere(tail);
      if Next(tail).Ok? {
        NextIsSuffix(tail);
        var next := StartOf(s, Next(tail).value.rest);
        assert s[next..] == Next(tail).value.rest;
        PlacedAreLexed(s, next);
        if PlacedFrom(s, next).Ok? {
          var rest := PlacedFrom(s, next).value;
          var here := Placed(Some(Next(tail).value.token), LineAt(s, start), ColumnAt(s, start));
          assert ([here] + rest)[1..] == rest;
        }
      }
    }
  }

  lemma FaultIsHere(s: string)
    requires s != ""
    ensures Next(s).Err? ==> Next(s).error.left == |s|
  {
    hide ReadQuoted, ReadNumber, ReadWord;
  }

  // ---- the cursor ---------------------------------------------------------------------------------------------

  class CypherLexer {
    const source: string
    var pos: nat
    var line: nat
    var column: nat

    ghost predicate Valid()
      reads this
    {
      pos <= |source| && line == LineAt(source, pos) && column == ColumnAt(source, pos)
    }

    constructor (text: string)
      ensures Valid() && source == text && pos == 0
    {
      source := text;
      pos, line, column := 0, 1, 1;
    }

    method Advance(n: nat)
      requires Valid() && pos + n <= |source|
      modifies this
      ensures Valid() && pos == old(pos) + n
    {
      for i := 0 to n
        invariant Valid() && pos == old(pos) + i
      {
        if source[pos] == '\n' {
          line := line + 1;
          column := 1;
        } else {
          column := column + 1;
        }
        pos := pos + 1;
      }
    }

    method SkipWhitespace()
      requires Valid()
      modifies this
      ensures Valid() && pos >= old(pos) && source[pos..] == SkipSpace(source[old(pos)..])
    {
      while pos < |source| && IsSpace(source[pos])
        invariant Valid() && pos >= old(pos)
        invariant SkipSpace(source[pos..]) == SkipSpace(source[old(pos)..])
        decreases |source| - pos
      {
        assert source[pos..][1..] == source[pos + 1..];
        Advance(1);
      }
    }

    /** The characters up to the next quote. */
    method ReadPlain(q: char) returns (value: string)
      requires Valid()
      modifies this
      ensures Valid() && pos >= old(pos) && (pos == |source| || source[pos] == q)
      ensures ReadQuoted(q, source[old(pos)..]) == Prefixed(value, ReadQuoted(q, source[pos..]))
    {
      hide ReadQuoted, LineAt, ColumnAt, Prefixed;
      ghost var whole := ReadQuoted(q, source[pos..]);
      value := "";
      PrefixedEmpty(whole);
      while pos < |source| && source[pos] != q
        invariant Valid() && pos >= old(pos) && whole == Prefixed(value, ReadQuoted(q, source[pos..]))
        decreases |source| - pos
      {
        QuotedSteps(q, source, pos);
        PrefixedTwice(value, [source[pos]], ReadQuoted(q, source[pos + 1..]));
        value := value + [source[pos]];
        Advance(1);
      }
    }

    /** The text between quotes; the cursor is on the opening one. */
    method ReadBetween(q: char) returns (r: Option<string>)
      requires Valid() && pos < |source|
      modifies this
      ensures Valid() && pos > old(pos)
      ensures r.Some? <==> ReadQuoted(q, source[old(pos) + 1..]).Some?
      ensures r.Some? ==> ReadQuoted(q, source[old(pos) + 1..]) == Some(Chunk(r.value, source[pos..]))
    {
      hide ReadQuoted, LineAt, ColumnAt, Prefixed;
      Advance(1);
      ghost var whole := ReadQuoted(q, source[pos..]);
      var value := "";
      PrefixedEmpty(whole);
      while true
        invariant Valid() && pos > old(pos) && whole == Prefixed(value, ReadQuoted(q, source[pos..]))
        decreases |source| - pos
      {
        var plain := ReadPlain(q);
        PrefixedTwice(value, plain, ReadQuoted(q, source[pos..]));
        value := value + plain;
        QuotedSteps(q, source, pos);
        PrefixedEnds(value, source, pos);
        if pos >= |source| {
          return None;
        }
        if pos + 1 >= |source| || source[pos + 1] != q {
          break;
        }
        PrefixedTwice(value, [q], ReadQuoted(q, source[pos + 2..]));
        value := value + [q];
        Advance(2);
      }
      Advance(1);
      r := Some(value);
    }

    method ReadStringToken() returns (r: Result<Token, Fault>)
      requires Valid() && pos < |source|
      modifies this
      ensures Valid() && pos > old(pos) && Reads(r, ReadString(source[old(pos)..]), source[pos..])
    {
      assert source[old(pos)..][1..] == source[old(pos) + 1..];
      var value := ReadBetween(QUOTE);
      r := if value.None? then Err(UnterminatedString) else Ok(StringToken(value.value));
    }

    method ReadQuotedNameToken() returns (r: Result<Token, Fault>)
      requires Valid() && pos < |source|
      modifies this
      ensures Valid() && pos > old(pos) && Reads(r, ReadQuotedName(source[old(pos)..]), source[pos..])
    {
      assert source[old(pos)..][1..] == source[old(pos) + 1..];
      var value := ReadBetween(BACKTICK);
      r := if value.None? then Err(UnterminatedName) else if value.value == "" then Err(EmptyName) else Ok(Identifier(value.value));
    }

    method ReadNumberToken() returns (t: Token)
      requires Valid() && pos < |source| && IsDigit(source[pos])
      modifies this
      ensures Valid() && pos > old(pos)
      ensures t.NumberToken? && ReadNumber(source[old(pos)..]) == Chunk(t.text, source[pos..])
    {
      hide ReadNumber, LineAt, ColumnAt, NumberShape, Prefixed;
      ghost var whole := Some(ReadNumber(source[pos..]));
      var value := "";
      PrefixedEmpty(whole);
      while pos < |source| && (IsDigit(source[pos]) || (source[pos] == '.' && pos + 1 < |source| && IsDigit(source[pos + 1])))
        invariant Valid() && pos >= old(pos) && (pos == old(pos) ==> value == "")
        invariant whole == Prefixed(value, Some(ReadNumber(source[pos..])))
        decreases |source| - pos
      {
        NumberSteps(source, pos);
        PrefixedTwice(value, [source[pos]], Some(ReadNumber(source[pos + 1..])));
        value := value + [source[pos]];
        Advance(1);
      }
      NumberSteps(source, pos);
      PrefixedStops(value, source[pos..]);
      t := NumberToken(value);
    }

    method ReadWordToken() returns (t: Token)
      requires Valid() && pos < |source| && IsIdentPart(source[pos])
      modifies this
      ensures Valid() && pos > old(pos)
      ensures ReadWord(source[old(pos)..]).rest == source[pos..] && t == WordToken(ReadWord(source[old(pos)..]).text)
    {
      hide IsKeyword;
      var value := "";
      while pos < |source| && IsIdentPart(source[pos])
        invariant Valid() && pos >= old(pos)
        invariant ReadWord(source[old(pos)..]) == Chunk(value + ReadWord(source[pos..]).text, ReadWord(source[pos..]).rest)
        decreases |source| - pos
      {
        assert source[pos..][1..] == source[pos + 1..];
        assert value + ReadWord(source[pos..]).text == value + [source[pos]] + ReadWord(source[pos + 1..]).text;
        value := value + [source[pos]];
        Advance(1);
      }
      assert ReadWord(source[pos..]) == Chunk("", source[pos..]) && value + "" == value;
      t := WordToken(value);
    }

    method ReadSymbolToken() returns (r: Result<Token, Fault>)
      requires Valid() && pos < |source|
      modifies this
      ensures Valid() && Reads(r, ReadSymbol(source[old(pos)..]), source[pos..])
      ensures r.Ok? ==> pos > old(pos)
    {
      var two := TwoCharSymbol(source[pos..]);
      if two.Some? {
        assert source[pos..][2..] == source[pos + 2..];
        Advance(2);
        return Ok(Sym(two.value));
      }
      var one := OneCharSymbol(source[pos]);
      if one.None? {
        return Err(UnexpectedChar);
      }
      assert source[pos..][1..] == source[pos + 1..];
      Advance(1);
      r := Ok(Sym(one.value));
    }

    method NextToken() returns (r: Result<Token, Fault>)
      requires Valid() && pos < |source|
      modifies this
      ensures Valid() && Reads(r, Next(source[old(pos)..]), source[pos..])
      ensures r.Ok? ==> pos > old(pos)
    {
      hide ReadString, ReadQuotedName, ReadNumber, ReadWord, ReadSymbol, ReadQuoted, IsKeyword;
      var c := source[pos];
      if c == QUOTE {
        r := ReadStringToken();
      } else if c == BACKTICK {
        r := ReadQuotedNameToken();
      } else if IsDigit(c) {
        var t := ReadNumberToken();
        r := Ok(t);
      } else if IsIdentStart(c) {
        var t := ReadWordToken();
        r := Ok(t);
      } else {
        r := ReadSymbolToken();
      }
    }

    method Tokenize() returns (r: Result<seq<Placed>, Failure>)
      requires Valid()
      modifies this
      ensures Valid() && r == PlacedFrom(source, old(pos))
    {
      hide Next, SkipSpace, LineAt, ColumnAt;
      var out: seq<Placed> := [];
      AppendedEmpty(PlacedFrom(source, pos));
      while true
        invariant Valid() && pos >= old(pos)
        invariant PlacedFrom(source, old(pos)) == Appended(out, PlacedFrom(source, pos))
        decreases |source| - pos
      {
        ghost var before := pos;
        SkipWhitespace();
        if pos >= |source| {
          return Ok(out + [Placed(None, line, column)]);
        }
        var atLine, atColumn := line, column;
        ghost var start := pos;
        assert StartOf(source, SkipSpace(source[before..])) == start;
        var token := NextToken();
        if token.Err? {
          return Err(Failure(token.error, atLine, atColumn));
        }
        assert StartOf(source, Next(source[start..]).value.rest) == pos;
        var here := Placed(Some(token.value), atLine, atColumn);
        AppendedTwice(out, here, PlacedFrom(source, pos));
        out := out + [here];
      }
    }
  }

  /** The token or fault of a step, and what it leaves, are those of the function. */
  ghost predicate Reads(r: Result<Token, Fault>, spec: Result<Lexeme, LexError>, rest: string) {
    match spec
    case Ok(lexeme) => r == Ok(lexeme.token) && rest == lexeme.rest
    case Err(e) => r == Err(e.fault)
  }

  ghost function Prefixed(value: string, c: Option<Chunk>): Option<Chunk> {
    if c.None? then None else Some(Chunk(value + c.value.text, c.value.rest))
  }

  /** What reading quoted text does at the i-th character. */
  lemma QuotedSteps(q: char, s: string, i: nat)
    requires i <= |s|
    ensures i == |s| ==> ReadQuoted(q, s[i..]) == None
    ensures i < |s| && s[i] != q ==> ReadQuoted(q, s[i..]) == Prefixed([s[i]], ReadQuoted(q, s[i + 1..]))
    ensures i + 1 < |s| && s[i] == q && s[i + 1] == q ==> ReadQuoted(q, s[i..]) == Prefixed([q], ReadQuoted(q, s[i + 2..]))
    ensures i < |s| && s[i] == q && (i + 1 == |s| || s[i + 1] != q) ==> ReadQuoted(q, s[i..]) == Some(Chunk("", s[i + 1..]))
  {
    if i < |s| {
      assert s[i..][1..] == s[i + 1..];
      if i + 1 < |s| {
        assert s[i..][2..] == s[i + 2..];
      }
    }
  }

  lemma PrefixedEnds(value: string, s: string, i: nat)
    requires i <= |s|
    ensures Prefixed(value, None) == None
    ensures i < |s| ==> Prefixed(value, Some(Chunk("", s[i + 1..]))) == Some(Chunk(value, s[i + 1..]))
  {
    assert value + "" == value;
  }

  predicate NumberPart(s: string, i: nat) {
    i < |s| && (IsDigit(s[i]) || (s[i] == '.' && i + 1 < |s| && IsDigit(s[i + 1])))
  }

  lemma NumberSteps(s: string, i: nat)
    requires i <= |s|
    ensures NumberPart(s, i) ==> Some(ReadNumber(s[i..])) == Prefixed([s[i]], Some(ReadNumber(s[i + 1..])))
    ensures !NumberPart(s, i) ==> ReadNumber(s[i..]) == Chunk("", s[i..])
  {
    hide NumberShape;
    if i < |s| {
      assert s[i..][1..] == s[i + 1..];
    }
  }

  lemma PrefixedStops(value: string, rest: string)
    ensures Prefixed(value, Some(Chunk("", rest))) == Some(Chunk(value, rest))
  {
    assert value + "" == value;
  }

  lemma PrefixedEmpty(c: Option<Chunk>)
    ensures Prefixed("", c) == c
  {
    if c.Some? {
      assert "" + c.value.text == c.value.text;
    }
  }

  lemma PrefixedTwice(a: string, b: string, c: Option<Chunk>)
    ensures Prefixed(a, Prefixed(b, c)) == Prefixed(a + b, c)
  {
    if c.Some? {
      assert a + (b + c.value.text) == a + b + c.value.text;
    }
  }

  ghost function Appended(out: seq<Placed>, r: Result<seq<Placed>, Failure>): Result<seq<Placed>, Failure> {
    if r.Err? then r else Ok(out + r.value)
  }

  lemma AppendedEmpty(r: Result<seq<Placed>, Failure>)
    ensures Appended([], r) == r
  {
    if r.Ok? {
      assert [] + r.value == r.value;
    }
  }

  lemma AppendedTwice(out: seq<Placed>, here: Placed, r: Result<seq<Placed>, Failure>)
    ensures Appended(out, Appended([here], r)) == Appended(out + [here], r)
  {
    if r.Ok? {
      assert out + ([here] + r.value) == out + [here] + r.value;
    }
  }
}
