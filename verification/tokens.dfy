/** Tokens and their spelling: the vocabulary the lexer, the parser and the unparser share. */
module Tokens {
  import opened NumberText

  datatype Symbol =
    | ArrowRight | ArrowLeft | PlusEq | LteSign | GteSign | NeqSign
    | LParen | RParen | LBracket | RBracket | LBrace | RBrace
    | Colon | Comma | Dot | Dollar | Dash | Star | Plus | Slash | Percent | EqSign | LtSign | GtSign

  /** A keyword's text is its upper-case form; `raw` keeps the source spelling. */
  datatype Token =
    | Identifier(text: string)
    | Keyword(text: string, raw: string)
    | StringToken(text: string)
    | NumberToken(text: string)
    | Sym(symbol: Symbol)

  /** The tokens still to be read; the end of the list is the end-of-file token. */
  datatype TokenList = Nil | Cons(head: Token, tail: TokenList) {
    function Length(): nat {
      if Nil? then 0 else 1 + tail.Length()
    }
  }

  const QUOTE := '\''
  const BACKTICK := '`'

  const KEYWORDS := {
    "MATCH", "OPTIONAL", "UNWIND", "WHERE", "RETURN", "AS", "AND", "OR", "NOT", "IS", "NULL", "IN", "TRUE", "FALSE",
    "WITH", "ORDER", "BY", "ASC", "DESC", "SKIP", "LIMIT", "DISTINCT",
    "CREATE", "MERGE", "SET", "DELETE", "DETACH", "REMOVE"
  }

  // ---- characters ---------------------------------------------------------------------------------------------

  /** What the pattern \s matches. */
  predicate IsSpace(c: char) {
    || c == ' ' || '\t' <= c <= '\r' || c == '\U{A0}' || c == '\U{1680}' || '\U{2000}' <= c <= '\U{200A}'
    || c == '\U{2028}' || c == '\U{2029}' || c == '\U{202F}' || c == '\U{205F}' || c == '\U{3000}' || c == '\U{FEFF}'
  }

  predicate IsIdentStart(c: char) {
    'A' <= c <= 'Z' || 'a' <= c <= 'z' || c == '_'
  }

  predicate IsIdentPart(c: char) {
    IsIdentStart(c) || IsDigit(c)
  }

  function Upper(c: char): char {
    if 'a' <= c <= 'z' then ((c as int) - 32) as char else c
  }

  function UpperAll(s: string): (r: string)
    ensures |r| == |s|
  {
    if s == "" then "" else [Upper(s[0])] + UpperAll(s[1..])
  }

  predicate IsKeyword(word: string) {
    UpperAll(word) in KEYWORDS
  }

  predicate AllIdentParts(s: string) {
    s == "" || (IsIdentPart(s[0]) && AllIdentParts(s[1..]))
  }

  /** A name that needs no quoting to be read as one word. */
  predicate IsPlain(name: string) {
    name != "" && IsIdentStart(name[0]) && AllIdentParts(name[1..])
  }

  // ---- spelling -----------------------------------------------------------------------------------------------

  function SymbolText(s: Symbol): (text: string)
    ensures 1 <= |text| <= 2
  {
    match s
    case ArrowRight => "->"
    case ArrowLeft => "<-"
    case PlusEq => "+="
    case LteSign => "<="
    case GteSign => ">="
    case NeqSign => "<>"
    case LParen => "("
    case RParen => ")"
    case LBracket => "["
    case RBracket => "]"
    case LBrace => "{"
    case RBrace => "}"
    case Colon => ":"
    case Comma => ","
    case Dot => "."
    case Dollar => "$"
    case Dash => "-"
    case Star => "*"
    case Plus => "+"
    case Slash => "/"
    case Percent => "%"
    case EqSign => "="
    case LtSign => "<"
    case GtSign => ">"
  }

  /** The text with every q doubled. */
  function Doubled(q: char, s: string): string {
    if s == "" then "" else (if s[0] == q then [q, q] else [s[0]]) + Doubled(q, s[1..])
  }

  function Quoted(q: char, s: string): string {
    [q] + Doubled(q, s) + [q]
  }

  /** An identifier position rejects keywords, so a keyword spelling is quoted too. */
  function IdentText(name: string): string {
    if IsPlain(name) && !IsKeyword(name) then name else Quoted(BACKTICK, name)
  }

  function TokenText(t: Token): string {
    match t
    case Identifier(name) => IdentText(name)
    case Keyword(_, raw) => raw
    case StringToken(s) => Quoted(QUOTE, s)
    case NumberToken(text) => text
    case Sym(s) => SymbolText(s)
  }

  /** A '.' belongs to a number only when a digit follows. */
  predicate InNumber(s: string) {
    s != "" && (IsDigit(s[0]) || (s[0] == '.' && |s| > 1 && IsDigit(s[1])))
  }

  predicate NumberShape(s: string) {
    s == "" || (InNumber(s) && NumberShape(s[1..]))
  }

  /** The tokens the lexer can produce. */
  predicate IsToken(t: Token) {
    match t
    case Identifier(name) => name != ""
    case Keyword(text, raw) => IsPlain(raw) && IsKeyword(raw) && text == UpperAll(raw)
    case StringToken(_) => true
    case NumberToken(text) => text != "" && IsDigit(text[0]) && NumberShape(text)
    case Sym(_) => true
  }
}
