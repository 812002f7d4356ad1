/**
 What the lexer accepts: a text it reads is, to the last character, white space and the spellings of the tokens it gives
 (`LexedTextIsSpelled`). Nothing is skipped, so a text with any other character outside quotes is refused.
 */
module LexedText {
  import opened Wrappers
  import opened NumberText
  import opened Tokens
  import opened Lexing

  /** The token's own text, or a name in backticks that needs none. */
  predicate Spells(t: Token, text: string) {
    IsToken(t) && (text == TokenText(t) || (t.Identifier? && text == Quoted(BACKTICK, t.text)))
  }

  /** White space, a spelling of the first token, and a text of the others. */
  ghost predicate SpelledAs(s: string, toks: TokenList)
    decreases toks
  {
    match toks
    case Nil => AllSpace(s)
    case Cons(t, more) => exists blank, text, rest :: CutAs(s, blank, text, rest) && Spells(t, text) && SpelledAs(rest, more)
  }

  predicate CutAs(s: string, blank: string, text: string, rest: string) {
    s == blank + text + rest && AllSpace(blank)
  }

  lemma {:induction false} SkippedIsSpace(s: string) returns (blank: string)
    ensures s == blank + SkipSpace(s) && AllSpace(blank)
  {
    if s != "" && IsSpace(s[0]) {
      blank := SkippedIsSpace(s[1..]);
      assert s == [s[0]] + s[1..];
      blank := [s[0]] + blank;
      assert blank[1..] + SkipSpace(s) == s[1..];
    } else {
      blank := "";
    }
  }

  lemma {:induction false} QuotedIsSpelled(q: char, s: string)
    requires ReadQuoted(q, s).Some?
    ensures var c := ReadQuoted(q, s).value; s == Doubled(q, c.text) + [q] + c.rest
  {
    var c := ReadQuoted(q, s).value;
    if s[0] != q {
      QuotedIsSpelled(q, s[1..]);
      var inner := ReadQuoted(q, s[1..]).value;
      assert c.text[1..] == inner.text;
      assert s == [s[0]] + s[1..];
    } else if |s| > 1 && s[1] == q {
      QuotedIsSpelled(q, s[2..]);
      var inner := ReadQuoted(q, s[2..]).value;
      assert c.text[1..] == inner.text;
      assert s == [q, q] + s[2..];
    } else {
      assert s == [q] + s[1..];
    }
  }

  lemma SymbolIsSpelled(s: string)
    requires s != "" && ReadSymbol(s).Ok?
    ensures var x := ReadSymbol(s).value; Spells(x.token, TokenText(x.token)) && s == TokenText(x.token) + x.rest
  {
    if TwoCharSymbol(s).Some? {
      assert s == [s[0], s[1]] + s[2..];
    } else {
      assert s == [s[0]] + s[1..];
    }
  }

  lemma WordIsSpelled(s: string)
    requires s != "" && IsIdentStart(s[0])
    ensures var c := ReadWord(s); Spells(WordToken(c.text), c.text) && s == c.text + c.rest
  {
    var c := ReadWord(s);
    assert IsPlain(c.text);
  }

  lemma NumberIsSpelled(s: string)
    requires s != "" && IsDigit(s[0])
    ensures var c := ReadNumber(s); Spells(NumberToken(c.text), c.text) && s == c.text + c.rest
  {
  }

  lemma NextIsSpelled(s: string) returns (text: string)
    requires s != "" && Next(s).Ok?
    ensures Spells(Next(s).value.token, text) && s == text + Next(s).value.rest
  {
    var x := Next(s).value;
    assert s == [s[0]] + s[1..];
    if s[0] == QUOTE {
      QuotedIsSpelled(QUOTE, s[1..]);
      text := Quoted(QUOTE, x.token.text);
    } else if s[0] == BACKTICK {
      QuotedIsSpelled(BACKTICK, s[1..]);
      text := Quoted(BACKTICK, x.token.text);
    } else if IsDigit(s[0]) {
      NumberIsSpelled(s);
      text := ReadNumber(s).text;
    } else if IsIdentStart(s[0]) {
      WordIsSpelled(s);
      text := ReadWord(s).text;
    } else {
      SymbolIsSpelled(s);
      text := TokenText(x.token);
    }
  }

  /** A text that is lexed is spelled by its tokens and white space. */
  lemma {:induction false} LexedTextIsSpelled(s: string)
    requires Lex(s).Ok?
    ensures SpelledAs(s, Lex(s).value)
    decreases |s|
  {
    var blank := SkippedIsSpace(s);
    var start := SkipSpace(s);
    if start == "" {
      assert blank + start == blank;
    } else {
      var x := Next(start).value;
      var text := NextIsSpelled(start);
      LexedTextIsSpelled(x.rest);
      assert s == blank + text + x.rest;
      assert CutAs(s, blank, text, x.rest);
    }
  }
}
