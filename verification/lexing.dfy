/**
 Reading text into tokens.

 `TextReadsBack` is the law the unparser relies on: the text of well-formed tokens is read back as those tokens, as long as
 no token's spelling runs into the next one's.
 */
module Lexing {
  import opened Wrappers
  import opened NumberText
  import opened Tokens

  datatype Fault = UnterminatedString | UnterminatedName | EmptyName | UnexpectedChar

  /** `left` characters, from the token at fault on, were not read. */
  datatype LexError = LexError(fault: Fault, left: nat)

  datatype Lexeme = Lexeme(token: Token, rest: string)

  datatype Chunk = Chunk(text: string, rest: string)

  // ---- one token ----------------------------------------------------------------------------------------------

  function SkipSpace(s: string): (r: string)
    ensures |r| <= |s| && (r != "" ==> !IsSpace(r[0]))
  {
    if s != "" && IsSpace(s[0]) then SkipSpace(s[1..]) else s
  }

  /** The text up to the closing q, a doubled q standing for one; None when nothing closes it. */
  function ReadQuoted(q: char, s: string): (r: Option<Chunk>)
    ensures r.Some? ==> |r.value.rest| < |s|
  {
    if s == "" then None
    else if s[0] != q then
      match ReadQuoted(q, s[1..])
      case None => None
      case Some(c) => Some(Chunk([s[0]] + c.text, c.rest))
    else if |s| > 1 && s[1] == q then
      match ReadQuoted(q, s[2..])
      case None => None
      case Some(c) => Some(Chunk([q] + c.text, c.rest))
    else Some(Chunk("", s[1..]))
  }

  function ReadNumber(s: string): (r: Chunk)
    ensures s == r.text + r.rest && NumberShape(r.text)
  {
    if !InNumber(s) then Chunk("", s)
    else
      var c := ReadNumber(s[1..]);
      assert InNumber([s[0]] + c.text) by {
        if s[0] == '.' {
          assert c.text + c.rest == s[1..] && InNumber(s[1..]);
        }
      }
      Chunk([s[0]] + c.text, c.rest)
  }

  function ReadWord(s: string): (r: Chunk)
    ensures s == r.text + r.rest && AllIdentParts(r.text)
  {
    if s == "" || !IsIdentPart(s[0]) then Chunk("", s)
    else
      var c := ReadWord(s[1..]);
      Chunk([s[0]] + c.text, c.rest)
  }

  function WordToken(word: string): Token {
    if IsKeyword(word) then Keyword(UpperAll(word), word) else Identifier(word)
  }

  function TwoCharSymbol(s: string): Option<Symbol> {
    if |s| < 2 then None
    else if s[0] == '-' && s[1] == '>' then Some(ArrowRight)
    else if s[0] == '<' && s[1] == '-' then Some(ArrowLeft)
    else if s[0] == '+' && s[1] == '=' then Some(PlusEq)
    else if s[0] == '<' && s[1] == '=' then Some(LteSign)
    else if s[0] == '>' && s[1] == '=' then Some(GteSign)
    else if s[0] == '<' && s[1] == '>' then Some(NeqSign)
    else None
  }

  function OneCharSymbol(c: char): Option<Symbol> {
    match c
    case '(' => Some(LParen)
    case ')' => Some(RParen)
    case '[' => Some(LBracket)
    case ']' => Some(RBracket)
    case '{' => Some(LBrace)
    case '}' => Some(RBrace)
    case ':' => Some(Colon)
    case ',' => Some(Comma)
    case '.' => Some(Dot)
    case '$' => Some(Dollar)
    case '-' => Some(Dash)
    case '*' => Some(Star)
    case '+' => Some(Plus)
    case '/' => Some(Slash)
    case '%' => Some(Percent)
    case '=' => Some(EqSign)
    case '<' => Some(LtSign)
    case '>' => Some(GtSign)
    case _ => None
  }

  function ReadSymbol(s: string): (r: Result<Lexeme, LexError>)
    requires s != ""
    ensures r.Ok? ==> |r.value.rest| < |s|
  {
    var two := TwoCharSymbol(s);
    var one := OneCharSymbol(s[0]);
    if two.Some? then Ok(Lexeme(Sym(two.value), s[2..]))
    else if one.Some? then Ok(Lexeme(Sym(one.value), s[1..]))
    else Err(LexError(UnexpectedChar, |s|))
  }

  function ReadString(s: string): (r: Result<Lexeme, LexError>)
    requires s != ""
    ensures r.Ok? ==> |r.value.rest| < |s|
  {
    match ReadQuoted(QUOTE, s[1..])
    case None => Err(LexError(UnterminatedString, |s|))
    case Some(c) => Ok(Lexeme(StringToken(c.text), c.rest))
  }

  function ReadQuotedName(s: string): (r: Result<Lexeme, LexError>)
    requires s != ""
    ensures r.Ok? ==> |r.value.rest| < |s|
  {
    match ReadQuoted(BACKTICK, s[1..])
    case None => Err(LexError(UnterminatedName, |s|))
    case Some(c) => if c.text == "" then Err(LexError(EmptyName, |s|)) else Ok(Lexeme(Identifier(c.text), c.rest))
  }

  /** The token at the start of the text. */
  function Next(s: string): (r: Result<Lexeme, LexError>)
    requires s != ""
    ensures r.Ok? ==> |r.value.rest| < |s|
  {
    if s[0] == QUOTE then ReadString(s)
    else if s[0] == BACKTICK then ReadQuotedName(s)
    else if IsDigit(s[0]) then
      var c := ReadNumber(s);
      Ok(Lexeme(NumberToken(c.text), c.rest))
    else if IsIdentStart(s[0]) then
      var c := ReadWord(s);
      Ok(Lexeme(WordToken(c.text), c.rest))
    else ReadSymbol(s)
  }

  function Lex(s: string): Result<TokenList, LexError>
    decreases |s|
  {
    var start := SkipSpace(s);
    if start == "" then Ok(Nil)
    else
      var lexeme :- Next(start);
      var rest :- Lex(lexeme.rest);
      Ok(Cons(lexeme.token, rest))
  }

  // ---- spelled pieces -----------------------------------------------------------------------------------------

  /** Text as tokens, single spaces and the two dots of a range. */
  datatype Pieces = Done | Gap(rest: Pieces) | Put(token: Token, rest: Pieces) | Range(rest: Pieces)

  function TextOf(ps: Pieces): string {
    match ps
    case Done => ""
    case Gap(rest) => " " + TextOf(rest)
    case Put(t, rest) => TokenText(t) + TextOf(rest)
    case Range(rest) => ".." + TextOf(rest)
  }

  function TokensOf(ps: Pieces): TokenList {
    match ps
    case Done => Nil
    case Gap(rest) => TokensOf(rest)
    case Put(t, rest) => Cons(t, TokensOf(rest))
    case Range(rest) => Cons(Sym(Dot), Cons(Sym(Dot), TokensOf(rest)))
  }

  /** A token spelled as a word or a quoted name. */
  predicate IsBareWord(t: Token) {
    t.Keyword? || (t.Identifier? && IsPlain(t.text) && !IsKeyword(t.text))
  }

  /** The two tokens may stand side by side. */
  predicate Fits(t: Token, u: Token) {
    match t
    case Identifier(_) => if IsBareWord(t) then !IsBareWord(u) && !u.NumberToken? else !(u.Identifier? && !IsBareWord(u))
    case Keyword(_, _) => !IsBareWord(u) && !u.NumberToken?
    case StringToken(_) => !u.StringToken?
    case NumberToken(_) => !u.NumberToken? && u != Sym(Dot)
    case Sym(Dash) => u != Sym(GtSign) && u != Sym(GteSign)
    case Sym(Plus) => u != Sym(EqSign)
    case Sym(GtSign) => u != Sym(EqSign)
    case Sym(LtSign) => !u.Sym? || SymbolText(u.symbol)[0] !in {'-', '=', '>'}
    case Sym(_) => true
  }

  predicate Apart(t: Token, rest: Pieces) {
    rest.Put? ==> Fits(t, rest.token)
  }

  predicate Clean(ps: Pieces) {
    match ps
    case Done => true
    case Gap(rest) => Clean(rest)
    case Put(t, rest) => IsToken(t) && Apart(t, rest) && Clean(rest)
    case Range(rest) => Clean(rest)
  }

  // ---- reading back -------------------------------------------------------------------------------------------

  lemma ReadDoubled(q: char, tail: string)
    requires ReadQuoted(q, tail).Some?
    ensures ReadQuoted(q, [q, q] + tail) == Some(Chunk([q] + ReadQuoted(q, tail).value.text, ReadQuoted(q, tail).value.rest))
  {
    assert ([q, q] + tail)[2..] == tail;
  }

  lemma ReadOther(q: char, c: char, tail: string)
    requires c != q && ReadQuoted(q, tail).Some?
    ensures ReadQuoted(q, [c] + tail) == Some(Chunk([c] + ReadQuoted(q, tail).value.text, ReadQuoted(q, tail).value.rest))
  {
    assert ([c] + tail)[1..] == tail;
  }

  lemma {:induction false} QuotedReadsBack(q: char, s: string, rest: string)
    requires rest != "" ==> rest[0] != q
    ensures ReadQuoted(q, Doubled(q, s) + ([q] + rest)) == Some(Chunk(s, rest))
  {
    if s != "" {
      QuotedReadsBack(q, s[1..], rest);
      var tail := Doubled(q, s[1..]) + ([q] + rest);
      if s[0] == q {
        hide ReadQuoted;
        assert Doubled(q, s) + ([q] + rest) == [q, q] + tail;
        ReadDoubled(q, tail);
        assert [q] + s[1..] == s;
      } else {
        hide ReadQuoted;
        assert Doubled(q, s) + ([q] + rest) == [s[0]] + tail;
        ReadOther(q, s[0], tail);
        assert [s[0]] + s[1..] == s;
      }
    } else {
      assert Doubled(q, s) + ([q] + rest) == [q] + rest;
      assert ([q] + rest)[1..] == rest;
    }
  }

  lemma {:induction false} WordReadsBack(s: string, rest: string)
    requires AllIdentParts(s) && (rest != "" ==> !IsIdentPart(rest[0]))
    ensures ReadWord(s + rest) == Chunk(s, rest)
  {
    if s == "" {
      assert s + rest == rest;
    } else {
      WordReadsBack(s[1..], rest);
      assert (s + rest)[1..] == s[1..] + rest;
    }
  }

  lemma InNumberStays(s: string, rest: string)
    requires InNumber(s)
    ensures s + rest != "" && InNumber(s + rest)
  {
    assert (s + rest)[0] == s[0];
  }

  lemma {:induction false} NumberReadsBack(s: string, rest: string)
    requires NumberShape(s) && !InNumber(rest)
    ensures ReadNumber(s + rest) == Chunk(s, rest)
  {
    hide InNumber;
    if s == "" {
      assert s + rest == rest;
    } else {
      InNumberStays(s, rest);
      assert (s + rest)[1..] == s[1..] + rest;
      NumberReadsBack(s[1..], rest);
      assert [s[0]] + s[1..] == s;
    }
  }

  /** How a spelling starts. */
  lemma TextStarts(t: Token)
    requires IsToken(t)
    ensures TokenText(t) != ""
    ensures IsBareWord(t) <==> IsIdentStart(TokenText(t)[0])
    ensures t.NumberToken? <==> IsDigit(TokenText(t)[0])
    ensures t.StringToken? <==> TokenText(t)[0] == QUOTE
    ensures t.Identifier? && !IsBareWord(t) <==> TokenText(t)[0] == BACKTICK
    ensures !IsSpace(TokenText(t)[0])
    ensures t.Sym? <==> TokenText(t)[0] in {'-', '<', '+', '>', '(', ')', '[', ']', '{', '}', ':', ',', '.', '$', '*', '/', '%', '='}
  {
    hide IsKeyword;
  }

  lemma SymbolTextReadsBack(s: Symbol, rest: string)
    requires s.Dash? ==> rest == "" || rest[0] != '>'
    requires s.Plus? ==> rest == "" || rest[0] != '='
    requires s.GtSign? ==> rest == "" || rest[0] != '='
    requires s.LtSign? ==> rest == "" || rest[0] !in {'-', '=', '>'}
    ensures ReadSymbol(SymbolText(s) + rest) == Ok(Lexeme(Sym(s), rest))
  {
    var text := SymbolText(s) + rest;
    assert text[|SymbolText(s)|..] == rest;
    assert text[0] == SymbolText(s)[0];
    if |SymbolText(s)| == 2 {
      assert text[1] == SymbolText(s)[1];
    } else if rest != "" {
      assert text[1] == rest[0];
    }
  }

  lemma SymbolReadsBack(s: Symbol, rest: string)
    requires s.Dash? ==> rest == "" || rest[0] != '>'
    requires s.Plus? ==> rest == "" || rest[0] != '='
    requires s.GtSign? ==> rest == "" || rest[0] != '='
    requires s.LtSign? ==> rest == "" || rest[0] !in {'-', '=', '>'}
    ensures Next(SymbolText(s) + rest) == Ok(Lexeme(Sym(s), rest))
  {
    hide ReadSymbol, ReadString, ReadQuotedName, ReadNumber, ReadWord;
    SymbolTextReadsBack(s, rest);
    assert (SymbolText(s) + rest)[0] == SymbolText(s)[0];
  }

  /** What follows does not run into the spelling of t. */
  predicate Stands(t: Token, rest: string) {
    rest == "" ||
    match t
    case Identifier(_) => if IsBareWord(t) then !IsIdentPart(rest[0]) else rest[0] != BACKTICK
    case Keyword(_, _) => !IsIdentPart(rest[0])
    case StringToken(_) => rest[0] != QUOTE
    case NumberToken(_) => !InNumber(rest)
    case Sym(Dash) => rest[0] != '>'
    case Sym(Plus) => rest[0] != '='
    case Sym(GtSign) => rest[0] != '='
    case Sym(LtSign) => rest[0] !in {'-', '=', '>'}
    case Sym(_) => true
  }

  lemma BareWordReadsBack(t: Token, rest: string)
    requires IsToken(t) && IsBareWord(t) && Stands(t, rest)
    ensures TokenText(t) + rest != "" && Next(TokenText(t) + rest) == Ok(Lexeme(t, rest))
  {
    hide IsKeyword, ReadSymbol, ReadString, ReadQuotedName, ReadNumber, ReadWord;
    TextStarts(t);
    var word := TokenText(t);
    assert word == [word[0]] + word[1..];
    assert AllIdentParts(word) && WordToken(word) == t;
    WordReadsBack(word, rest);
    assert (word + rest)[0] == word[0];
  }

  lemma QuotedNameReadsBack(t: Token, rest: string)
    requires IsToken(t) && t.Identifier? && !IsBareWord(t) && Stands(t, rest)
    ensures TokenText(t) + rest != "" && Next(TokenText(t) + rest) == Ok(Lexeme(t, rest))
  {
    hide IsKeyword, ReadSymbol, ReadString, ReadNumber, ReadWord, ReadQuoted, Doubled;
    QuotedReadsBack(BACKTICK, t.text, rest);
    var text := TokenText(t) + rest;
    assert text == [BACKTICK] + (Doubled(BACKTICK, t.text) + ([BACKTICK] + rest));
    assert text[1..] == Doubled(BACKTICK, t.text) + ([BACKTICK] + rest);
  }

  lemma StringReadsBack(s: string, rest: string)
    requires rest != "" ==> rest[0] != QUOTE
    ensures Next(Quoted(QUOTE, s) + rest) == Ok(Lexeme(StringToken(s), rest))
  {
    hide ReadSymbol, ReadQuotedName, ReadNumber, ReadWord, ReadQuoted, Doubled;
    QuotedReadsBack(QUOTE, s, rest);
    var text := Quoted(QUOTE, s) + rest;
    assert text == [QUOTE] + (Doubled(QUOTE, s) + ([QUOTE] + rest));
    assert text[1..] == Doubled(QUOTE, s) + ([QUOTE] + rest);
  }

  lemma NumberTokenReadsBack(s: string, rest: string)
    requires s != "" && IsDigit(s[0]) && NumberShape(s) && !InNumber(rest)
    ensures Next(s + rest) == Ok(Lexeme(NumberToken(s), rest))
  {
    hide ReadSymbol, ReadString, ReadQuotedName, ReadNumber, ReadWord, NumberShape, InNumber;
    NumberReadsBack(s, rest);
    assert (s + rest)[0] == s[0];
  }

  lemma TokenReadsBack(t: Token, rest: string)
    requires IsToken(t) && Stands(t, rest)
    ensures TokenText(t) + rest != "" && Next(TokenText(t) + rest) == Ok(Lexeme(t, rest))
  {
    hide IsKeyword, IsPlain, Next, NumberShape, SymbolText;
    if IsBareWord(t) {
      BareWordReadsBack(t, rest);
    } else if t.Identifier? {
      QuotedNameReadsBack(t, rest);
    } else if t.StringToken? {
      StringReadsBack(t.text, rest);
    } else if t.NumberToken? {
      NumberTokenReadsBack(t.text, rest);
    } else {
      SymbolReadsBack(t.symbol, rest);
    }
  }

  lemma ApartStands(t: Token, rest: Pieces)
    requires IsToken(t) && Apart(t, rest) && Clean(rest)
    ensures Stands(t, TextOf(rest))
  {
    hide IsKeyword, Next;
    match rest {
      case Done =>
      case Gap(_) =>
      case Range(r) =>
        assert TextOf(rest)[0] == '.' && TextOf(rest)[1] == '.';
      case Put(u, r) =>
        TextStarts(u);
        assert TextOf(rest)[0] == TokenText(u)[0];
        if u == Sym(Dot) {
          assert Fits(t, u);
        }
    }
  }

  lemma SkipNothing(s: string)
    requires s != "" && !IsSpace(s[0])
    ensures SkipSpace(s) == s
  {
  }

  /** The text of clean pieces reads back as their tokens. */
  lemma {:induction false} TextReadsBack(ps: Pieces)
    requires Clean(ps)
    ensures Lex(TextOf(ps)) == Ok(TokensOf(ps))
  {
    hide Apart, IsToken, TokenText, Next, Stands;
    match ps
    case Done =>
    case Gap(rest) =>
      TextReadsBack(rest);
      SkipOne(TextOf(rest));
    case Range(rest) =>
      TextReadsBack(rest);
      ReadDot("." + TextOf(rest));
      ReadDot(TextOf(rest));
      assert TextOf(ps) == "." + ("." + TextOf(rest));
    case Put(t, rest) =>
      TextReadsBack(rest);
      ApartStands(t, rest);
      TokenReadsBack(t, TextOf(rest));
      ReadOne(t, TextOf(rest));
  }

  lemma SkipOne(s: string)
    ensures Lex(" " + s) == Lex(s)
  {
    assert (" " + s)[1..] == s;
    assert SkipSpace(" " + s) == SkipSpace(s);
  }

  lemma ReadDot(s: string)
    ensures Lex("." + s) == if Lex(s).Ok? then Ok(Cons(Sym(Dot), Lex(s).value)) else Lex(s)
  {
    hide Next;
    SymbolReadsBack(Dot, s);
    SkipNothing("." + s);
  }

  lemma ReadOne(t: Token, rest: string)
    requires IsToken(t) && TokenText(t) + rest != ""
    requires Next(TokenText(t) + rest) == Ok(Lexeme(t, rest))
    ensures Lex(TokenText(t) + rest) == if Lex(rest).Ok? then Ok(Cons(t, Lex(rest).value)) else Lex(rest)
  {
    hide Next, IsToken, TokenText, IsSpace;
    TextStarts(t);
    SkipNothing(TokenText(t) + rest);
  }

  // ---- any spacing --------------------------------------------------------------------------------------------

  predicate AllSpace(s: string) {
    forall i :: 0 <= i < |s| ==> IsSpace(s[i])
  }

  /** The text with a blank of its own in front of every piece. */
  function Spaced(ps: Pieces, blank: Pieces -> string): string {
    blank(ps) + match ps
                case Done => ""
                case Gap(rest) => Spaced(rest, blank)
                case Put(t, rest) => TokenText(t) + Spaced(rest, blank)
                case Range(rest) => ".." + Spaced(rest, blank)
  }

  /** Blanks are whitespace of any kind and length, and there is some where there must be. */
  ghost predicate Blanks(blank: Pieces -> string) {
    forall ps :: AllSpace(blank(ps)) && (ps.Gap? ==> blank(ps) != "")
  }

  lemma {:induction false} SkipBlank(b: string, s: string)
    requires AllSpace(b)
    ensures Lex(b + s) == Lex(s)
  {
    if b == "" {
      assert b + s == s;
    } else {
      SkipBlank(b[1..], s);
      assert (b + s)[1..] == b[1..] + s;
      assert SkipSpace(b + s) == SkipSpace(b[1..] + s);
    }
  }

  lemma SpaceStands(t: Token, rest: string)
    requires rest != "" && IsSpace(rest[0])
    ensures Stands(t, rest)
  {
  }

  lemma SpacedStands(t: Token, rest: Pieces, blank: Pieces -> string)
    requires IsToken(t) && Apart(t, rest) && Clean(rest) && Blanks(blank)
    ensures Stands(t, Spaced(rest, blank))
  {
    hide IsKeyword, Next, IsSpace, Stands;
    if blank(rest) != "" {
      assert Spaced(rest, blank)[0] == blank(rest)[0];
      SpaceStands(t, Spaced(rest, blank));
    } else {
      match rest {
        case Done => NothingStands(t);
        case Gap(_) =>
        case Range(r) =>
          assert Spaced(rest, blank) == ".." + Spaced(r, blank);
          RangeStands(t, Spaced(r, blank));
        case Put(u, r) =>
          assert Spaced(rest, blank) == TokenText(u) + Spaced(r, blank);
          PutStands(t, u, Spaced(r, blank));
      }
    }
  }

  lemma NothingStands(t: Token)
    ensures Stands(t, "")
  {
  }

  lemma RangeStands(t: Token, rest: string)
    requires IsToken(t)
    ensures Stands(t, ".." + rest)
  {
    hide IsKeyword;
    assert (".." + rest)[0] == '.' && (".." + rest)[1] == '.';
  }

  lemma PutStands(t: Token, u: Token, rest: string)
    requires IsToken(t) && IsToken(u) && Fits(t, u)
    ensures Stands(t, TokenText(u) + rest)
  {
    hide IsKeyword, Next;
    TextStarts(u);
    assert (TokenText(u) + rest)[0] == TokenText(u)[0];
  }

  /** However clean pieces are spaced, their text reads back as their tokens. */
  lemma {:induction false} SpacedReadsBack(ps: Pieces, blank: Pieces -> string)
    requires Clean(ps) && Blanks(blank)
    ensures Lex(Spaced(ps, blank)) == Ok(TokensOf(ps))
    decreases ps
  {
    hide Apart, IsToken, TokenText, Next, Stands, AllSpace;
    assert AllSpace(blank(ps));
    match ps
    case Done => SkipBlank(blank(ps), "");
    case Gap(rest) =>
      SpacedReadsBack(rest, blank);
      SkipBlank(blank(ps), Spaced(rest, blank));
    case Range(rest) =>
      SpacedReadsBack(rest, blank);
      SkipBlank(blank(ps), ".." + Spaced(rest, blank));
      ReadDot("." + Spaced(rest, blank));
      ReadDot(Spaced(rest, blank));
      assert ".." + Spaced(rest, blank) == "." + ("." + Spaced(rest, blank));
    case Put(t, rest) =>
      SpacedReadsBack(rest, blank);
      SkipBlank(blank(ps), TokenText(t) + Spaced(rest, blank));
      SpacedStands(t, rest, blank);
      TokenReadsBack(t, Spaced(rest, blank));
      ReadOne(t, Spaced(rest, blank));
  }

  /** Any name may be quoted, a keyword or a plain one too, and is then an identifier. */
  lemma AnyNameMayBeQuoted(name: string, rest: string)
    requires name != "" && (rest != "" ==> rest[0] != BACKTICK)
    ensures Next(Quoted(BACKTICK, name) + rest) == Ok(Lexeme(Identifier(name), rest))
  {
    hide ReadSymbol, ReadString, ReadNumber, ReadWord, ReadQuoted, Doubled;
    QuotedReadsBack(BACKTICK, name, rest);
    var text := Quoted(BACKTICK, name) + rest;
    assert text == [BACKTICK] + (Doubled(BACKTICK, name) + ([BACKTICK] + rest));
    assert text[1..] == Doubled(BACKTICK, name) + ([BACKTICK] + rest);
  }
}
