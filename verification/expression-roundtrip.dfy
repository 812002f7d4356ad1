/**
 Parsing the text of an expression.

 `ReadExpr` says what parsing the tokens of an expression gives at every level of the precedence ladder: the expression as
 it is reread, with two changes only. AND and OR over more than two operands come back as nested pairs, and a negative
 number literal comes back as the negation of its magnitude. `RereadIsSame` says exactly which expressions come back
 unchanged.
 */
module ExpressionRoundTrip {
  import opened Wrappers
  import Numbers
  import opened NumberText
  import opened Values
  import opened Query
  import opened Tokens
  import opened Lexing
  import opened Unparsing
  import opened Parsing

  // ---- expressions with a text --------------------------------------------------------------------------------

  predicate IsScalarLiteral(e: Expr) {
    e.Literal? && e.value.Some?
  }

  predicate DistinctKeys(fields: seq<Field>) {
    forall i, j :: 0 <= i < j < |fields| ==> fields[i].key != fields[j].key
  }

  /**
   Expressions the unparser renders faithfully: names are not empty, function names (printed as they are) are plain words,
   connectives have operands, IN lists hold scalar literals, and the entries of a map have distinct keys.
   */
  predicate Writable(e: Expr)
    decreases e, 0
  {
    match e
    case Literal(_) => true
    case VariableRef(name) => name != ""
    case PropertyAccess(variable, property) => variable != "" && property != ""
    case Parameter(name) => name != ""
    case Comparison(left, _, right) => Writable(left) && Writable(right)
    case Boolean(_, operands) => operands != [] && AllWritable(operands)
    case IsNull(operand, _) => Writable(operand)
    case In(operand, list) => Writable(operand) && forall i :: 0 <= i < |list| ==> IsScalarLiteral(list[i])
    case Arithmetic(left, _, right) => Writable(left) && Writable(right)
    case UnaryMinus(operand) => Writable(operand)
    case ListLiteral(items) => AllWritable(items)
    case MapLiteral(fields) => DistinctKeys(fields) && FieldsWritable(fields)
    case Index(target, index) => Writable(target) && Writable(index)
    case Call(fname, args, _, _) => IsPlain(fname) && !IsKeyword(fname) && AllWritable(args)
  }

  predicate AllWritable(es: seq<Expr>)
    decreases es, 1
  {
    es == [] || (Writable(es[0]) && AllWritable(es[1..]))
  }

  predicate FieldsWritable(fields: seq<Field>)
    decreases fields, 1
  {
    fields == [] || (fields[0].key != "" && Writable(fields[0].expr) && FieldsWritable(fields[1..]))
  }

  // ---- what comes back ----------------------------------------------------------------------------------------

  function Gather(op: BooleanOp, left: Expr, rest: seq<Expr>): Expr
    decreases |rest|
  {
    if rest == [] then left else Gather(op, Boolean(op, [left, rest[0]]), rest[1..])
  }

  /** The expression its own text is read as. */
  function Reread(e: Expr): Expr
    decreases e, 0
  {
    match e
    case Literal(v) => if IsNegative(v) then UnaryMinus(Literal(Some(Num(Negate(v.value.n))))) else e
    case Comparison(left, op, right) => Comparison(Reread(left), op, Reread(right))
    case Boolean(op, operands) =>
      if operands == [] then e
      else if op.Not? then Boolean(Not, [Reread(operands[0])])
      else Gather(op, Reread(operands[0]), RereadAll(operands[1..]))
    case IsNull(operand, negated) => IsNull(Reread(operand), negated)
    case In(operand, list) => In(Reread(operand), list)
    case Arithmetic(left, op, right) => Arithmetic(Reread(left), op, Reread(right))
    case UnaryMinus(operand) => UnaryMinus(Reread(operand))
    case ListLiteral(items) => ListLiteral(RereadAll(items))
    case MapLiteral(fields) => MapLiteral(RereadFields(fields))
    case Index(target, index) => Index(Reread(target), Reread(index))
    case Call(fname, args, distinct, star) => if star then Call(fname, [], false, true) else Call(fname, RereadAll(args), distinct, false)
    case _ => e
  }

  function RereadAll(es: seq<Expr>): (r: seq<Expr>)
    ensures |r| == |es|
    decreases es, 1
  {
    if es == [] then [] else [Reread(es[0])] + RereadAll(es[1..])
  }

  function RereadFields(fields: seq<Field>): (r: seq<Field>)
    ensures |r| == |fields|
    decreases fields, 1
  {
    if fields == [] then [] else [Field(fields[0].key, Reread(fields[0].expr))] + RereadFields(fields[1..])
  }

  // ---- pieces and their tokens --------------------------------------------------------------------------------

  lemma SpacedSign(s: Symbol, k: Pieces)
    ensures TokensOf(Gap(Sign(s, Gap(k)))) == Cons(Sym(s), TokensOf(k))
  {
    assert TokensOf(Gap(k)) == TokensOf(k);
    assert TokensOf(Sign(s, Gap(k))) == Cons(Sym(s), TokensOf(Gap(k)));
  }

  lemma SpacedWord(sp: Spelling, w: string, k: Pieces)
    ensures TokensOf(Gap(Word(sp, w, Gap(k)))) == Cons(Keyword(w, sp.word(w)), TokensOf(k))
    ensures TokensOf(Word(sp, w, Gap(k))) == Cons(Keyword(w, sp.word(w)), TokensOf(k))
  {
    assert TokensOf(Gap(k)) == TokensOf(k);
    assert TokensOf(Word(sp, w, Gap(k))) == Cons(Keyword(w, sp.word(w)), TokensOf(Gap(k)));
  }

  // ---- the ladder ---------------------------------------------------------------------------------------------

  /** No level tighter than p takes up what follows. */
  predicate Stops(p: Prec, k: TokenList) {
    && !At(k, LParen)
    && (p < POSTFIX ==> !At(k, LBracket) && !At(k, Dot))
    && (p < MULTIPLICATIVE ==> BinaryAt(MULTIPLICATIVE, k).None?)
    && (p < ADDITIVE ==> BinaryAt(ADDITIVE, k).None?)
    && (p <= PREDICATE ==> ComparisonAt(k).None? && !AtWord(k, "IS") && !AtWord(k, "IN"))
    && (p < AND ==> BinaryAt(AND, k).None?)
  }

  /** Nothing that could go on an expression follows. */
  predicate Ends(k: TokenList) {
    Stops(OR, k) && BinaryAt(OR, k).None?
  }

  /** What a level makes of an operand it has read and what follows it. */
  function After(p: Prec, e: Expr, k: TokenList): ParseResult<Expr> {
    if p == POSTFIX then PostfixLoop(e, k)
    else if p == OR || p == AND || p == ADDITIVE || p == MULTIPLICATIVE then Loop(p, e, k)
    else Ok(Parsed(e, k))
  }

  lemma LoopEnds(p: Prec, e: Expr, k: TokenList)
    requires p < POSTFIX && BinaryAt(p, k).None?
    ensures Loop(p, e, k) == Ok(Parsed(e, k))
  {
    hide ParseAt;
  }

  lemma PostfixEnds(e: Expr, k: TokenList)
    requires !At(k, LBracket) && !At(k, Dot)
    ensures PostfixLoop(e, k) == Ok(Parsed(e, k))
  {
    hide ParseAt;
  }

  /** One level down from p nothing more is taken up. */
  lemma NextEnds(p: Prec, e: Expr, k: TokenList)
    requires p < POSTFIX && Stops(p, k)
    ensures After(p + 1, e, k) == Ok(Parsed(e, k))
  {
    hide Loop, PostfixLoop, BinaryAt, ComparisonAt, At, AtWord;
    if p + 1 == POSTFIX {
      PostfixEnds(e, k);
    } else if p + 1 == AND || p + 1 == ADDITIVE || p + 1 == MULTIPLICATIVE {
      LoopEnds(p + 1, e, k);
    }
  }

  lemma EndsAt(p: Prec, e: Expr, k: TokenList)
    requires Ends(k)
    ensures Stops(p, k) && After(p, e, k) == Ok(Parsed(e, k))
  {
    hide Loop, PostfixLoop, BinaryAt, ComparisonAt, At, AtWord;
    if p == POSTFIX {
      PostfixEnds(e, k);
    } else if p == OR || p == AND || p == ADDITIVE || p == MULTIPLICATIVE {
      LoopEnds(p, e, k);
    }
  }

  lemma ParseAtLoop(p: Prec, toks: TokenList, e: Expr, k: TokenList)
    requires p == OR || p == AND || p == ADDITIVE || p == MULTIPLICATIVE
    requires ParseAt(p + 1, toks) == Ok(Parsed(e, k))
    ensures ParseAt(p, toks) == Loop(p, e, k)
  {
    hide Loop, ParseNot, ParseUnary, ParsePredicate, ParsePrimary, PostfixLoop;
  }

  lemma ParseAtOther(p: Prec, toks: TokenList)
    ensures ParseAt(NOT, toks) == ParseNot(toks)
    ensures ParseAt(PREDICATE, toks) == ParsePredicate(toks)
    ensures ParseAt(UNARY, toks) == ParseUnary(toks)
    ensures ParsePrimary(toks).Ok? ==> ParseAt(POSTFIX, toks) == PostfixLoop(ParsePrimary(toks).value.value, ParsePrimary(toks).value.rest)
  {
    hide Loop, ParseNot, ParseUnary, ParsePredicate, ParsePrimary, PostfixLoop;
  }

  lemma PredicateFallsThrough(toks: TokenList, e: Expr, k: TokenList)
    requires ParseAt(ADDITIVE, toks) == Ok(Parsed(e, k)) && Stops(PREDICATE, k)
    ensures ParsePredicate(toks) == Ok(Parsed(e, k))
  {
    hide ParseAt, BinaryAt, At, ComparisonAt;
  }

  lemma NotFallsThrough(toks: TokenList)
    requires !AtWord(toks, "NOT")
    ensures ParseNot(toks) == ParseAt(PREDICATE, toks)
  {
    hide ParseAt;
  }

  lemma UnaryFallsThrough(toks: TokenList)
    requires !At(toks, Dash)
    ensures ParseUnary(toks) == ParseAt(POSTFIX, toks)
  {
    hide ParseAt;
  }

  /** An expression read at one level is read at the next looser one, unless that level has a prefix of its own here. */
  lemma StepUp(p: Prec, toks: TokenList, e: Expr, k: TokenList)
    requires p < POSTFIX && ParseAt(p + 1, toks) == After(p + 1, e, k) && Stops(p, k)
    requires p == NOT ==> !AtWord(toks, "NOT")
    requires p == UNARY ==> !At(toks, Dash)
    ensures ParseAt(p, toks) == After(p, e, k)
  {
    hide ParseAt, Loop, PostfixLoop, ParseNot, ParseUnary, ParsePredicate, Stops, At, AtWord;
    NextEnds(p, e, k);
    ParseAtOther(p, toks);
    if p == NOT {
      NotFallsThrough(toks);
    } else if p == PREDICATE {
      PredicateFallsThrough(toks, e, k);
    } else if p == UNARY {
      UnaryFallsThrough(toks);
    } else {
      ParseAtLoop(p, toks, e, k);
    }
  }

  lemma StopsTighter(p: Prec, q: Prec, k: TokenList)
    requires p <= q && Stops(p, k)
    ensures Stops(q, k)
  {
    hide BinaryAt, ComparisonAt, At, AtWord;
  }

  /** A primary is read at every level. */
  lemma {:induction false} FromPrimary(p: Prec, toks: TokenList, e: Expr, k: TokenList)
    requires ParsePrimary(toks) == Ok(Parsed(e, k)) && Stops(p, k)
    requires !AtWord(toks, "NOT") && !At(toks, Dash)
    ensures ParseAt(p, toks) == After(p, e, k)
    decreases POSTFIX - p
  {
    hide ParseAt, Loop, PostfixLoop, ParsePrimary, Stops, At, AtWord;
    if p == POSTFIX {
      ParseAtOther(p, toks);
    } else {
      StopsTighter(p, p + 1, k);
      FromPrimary(p + 1, toks, e, k);
      StepUp(p, toks, e, k);
    }
  }

  // ---- how an expression's tokens start -----------------------------------------------------------------------

  /** The token can start an expression shown at a level above `min`. */
  predicate Starts(min: Prec, toks: TokenList) {
    && toks.Cons?
    && match toks.head
       case Identifier(_) => true
       case StringToken(_) => true
       case NumberToken(_) => true
       case Keyword(text, _) => (text == "NULL" || text == "TRUE" || text == "FALSE" || (min <= NOT && text == "NOT"))
       case Sym(s) => s == Dollar || s == LParen || s == LBracket || s == LBrace || (min <= UNARY && s == Dash)
  }

  lemma {:induction false} ExprStarts(sp: Spelling, e: Expr, min: Prec, k: Pieces)
    requires Writable(e)
    ensures Starts(min, TokensOf(ShowExpr(sp, e, min, k)))
    ensures ShowExpr(sp, e, min, k).Put?
    decreases e, 2
  {
    hide TokensOf, ShowBare, Writable;
    if Enclosed(sp, e, min) {
      assert TokensOf(Sign(LParen, ShowBare(sp, e, Sign(RParen, k)))) == Cons(Sym(LParen), TokensOf(ShowBare(sp, e, Sign(RParen, k)))) by {
        PutTokens(Sym(LParen), ShowBare(sp, e, Sign(RParen, k)));
      }
    } else {
      BareStarts(sp, e, k);
    }
  }

  lemma PutTokens(t: Token, k: Pieces)
    ensures TokensOf(Put(t, k)) == Cons(t, TokensOf(k))
    ensures TokensOf(Gap(k)) == TokensOf(k)
  {
  }

  lemma BareStarts(sp: Spelling, e: Expr, k: Pieces)
    requires Writable(e)
    ensures Starts(PrecOf(e), TokensOf(ShowBare(sp, e, k)))
    ensures ShowBare(sp, e, k).Put?
    decreases e, 1
  {
    hide ShowExpr, ShowExprs, ShowFields, ShowLiterals, ShowOperands, ShowScalar, Unparsed, IsKeyword, UpperAll, IsPlain;
    match e {
      case Literal(Some(v)) => ScalarStarts(sp, v, k);
      case Comparison(left, op, right) =>
        ExprStarts(sp, left, ADDITIVE, Gap(Sign(ComparisonSymbol(op), Gap(ShowExpr(sp, right, ADDITIVE, k)))));
      case Boolean(op, operands) =>
        if !op.Not? {
          ExprStarts(sp, operands[0], PrecOf(e), ShowOperands(sp, op, operands[1..], k));
        }
      case IsNull(operand, negated) =>
        ExprStarts(sp, operand, ADDITIVE, Gap(Word(sp, "IS", Gap(if negated then Word(sp, "NOT", Gap(Word(sp, "NULL", k))) else Word(sp, "NULL", k)))));
      case In(operand, list) =>
        ExprStarts(sp, operand, ADDITIVE, Gap(Word(sp, "IN", Gap(Sign(LBracket, ShowLiterals(sp, list, Sign(RBracket, k)))))));
      case Arithmetic(left, op, right) =>
        ExprStarts(sp, left, PrecOf(e), Gap(Sign(ArithmeticSymbol(op), Gap(ShowExpr(sp, right, PrecOf(e) + 1, k)))));
      case Index(target, index) =>
        ExprStarts(sp, target, POSTFIX, Sign(LBracket, ShowExpr(sp, index, OR, Sign(RBracket, k))));
        if Dotted(sp, e) {
          ExprStarts(sp, target, POSTFIX, Sign(Dot, Name(index.value.value.s, k)));
        }
      case _ =>
    }
  }

  lemma ScalarStarts(sp: Spelling, v: Scalar, k: Pieces)
    ensures Starts(if IsNegative(Some(v)) then UNARY else POSTFIX, TokensOf(ShowScalar(sp, v, k)))
    ensures ShowScalar(sp, v, k).Put?
  {
    hide Unparsed;
    if v.Num? {
      UnparsedReadsBack(v.n);
    }
  }

  // ---- scalars and names --------------------------------------------------------------------------------------

  lemma ReadScalar(sp: Spelling, v: Scalar, k: Pieces)
    ensures ParseScalar(TokensOf(ShowScalar(sp, v, k))) == Ok(Parsed(v, TokensOf(k)))
  {
    hide Unparsed, ReadDecimal;
    if v.Num? {
      UnparsedReadsBack(v.n);
      if v.n.m < 0 {
        var text := Unparsed(v.n);
        assert TokensOf(ShowScalar(sp, v, k)) == Cons(Sym(Dash), Cons(NumberToken(text[1..]), TokensOf(k))) by {
          PutTokens(NumberToken(text[1..]), k);
        }
        NegateTwice(v.n);
      }
    }
  }

  lemma NegateTwice(n: Numbers.Number)
    ensures Negate(Negate(n)) == n
  {
  }

  lemma NameReadsBack(name: string, k: Pieces)
    ensures ExpectName(TokensOf(Name(name, k))) == Ok(Parsed(name, TokensOf(k)))
  {
    hide IsKeyword, IsPlain, UpperAll;
  }

  lemma ScalarPrimary(sp: Spelling, v: Scalar, k: Pieces)
    requires !IsNegative(Some(v))
    ensures ParsePrimary(TokensOf(ShowScalar(sp, v, k))) == Ok(Parsed(Literal(Some(v)), TokensOf(k)))
  {
    hide Unparsed, ReadDecimal, ParseAt, ParseExprs, ParseFields, ParseNamed;
    match v
    case Num(n) =>
      UnparsedReadsBack(n);
      NumberPrimary(Unparsed(n), n, TokensOf(k));
    case Str(s) => PutTokens(StringToken(s), k);
    case Bool(b) => PutTokens(Keyword("TRUE", sp.word("TRUE")), k); PutTokens(Keyword("FALSE", sp.word("FALSE")), k);
  }

  // ---- primaries ----------------------------------------------------------------------------------------------

  lemma ReadLeaf(sp: Spelling, e: Expr, k: Pieces)
    requires Writable(e) && (e.Literal? || e.VariableRef? || e.PropertyAccess? || e.Parameter?) && PrecOf(e) == POSTFIX
    requires !At(TokensOf(k), LParen) && !At(TokensOf(k), Dot)
    ensures ParsePrimary(TokensOf(ShowBare(sp, e, k))) == Ok(Parsed(e, TokensOf(k)))
    ensures Reread(e) == e
  {
    hide ShowScalar, ParseScalar, ParseAt, ParseExprs, ParseFields, ParseArguments, Name, ExpectName, IsPlain, IsKeyword, UpperAll;
    match e
    case Literal(None) =>
    case Literal(Some(v)) => ScalarPrimary(sp, v, k);
    case VariableRef(name) =>
    case PropertyAccess(variable, property) =>
      PutTokens(Sym(Dot), Name(property, k));
      NameReadsBack(property, k);
    case Parameter(name) =>
      PutTokens(Identifier(name), k);
  }

  // ---- expressions --------------------------------------------------------------------------------------------

  function Rank(e: Expr, p: Prec): nat {
    if PrecOf(e) < p then 20 else PrecOf(e) - p
  }

  /** Parsing the tokens of an expression shown at a level gives, at that level, the expression reread. */
  lemma ReadExpr(sp: Spelling, e: Expr, p: Prec, k: Pieces)
    requires Writable(e) && Stops(p, TokensOf(k)) && (p == POSTFIX && At(TokensOf(k), Dot) ==> Dottable(sp, e))
    ensures ParseAt(p, TokensOf(ShowExpr(sp, e, p, k))) == After(p, Reread(e), TokensOf(k))
    decreases e, 24
  {
    hide ParseAt, ShowBare, Reread, TokensOf, Writable, Stops, After;
    if Enclosed(sp, e, p) {
      ReadParenthesized(sp, e, k);
      ParenStarts(sp, e, k);
      FromPrimary(p, TokensOf(ShowExpr(sp, e, p, k)), Reread(e), TokensOf(k));
    } else {
      if p < POSTFIX {
        NoDot(p, TokensOf(k));
      }
      ReadBareAt(sp, e, p, k);
    }
  }

  lemma {:induction false} ReadBareAt(sp: Spelling, e: Expr, p: Prec, k: Pieces)
    requires Writable(e) && PrecOf(e) >= p && Stops(p, TokensOf(k)) && (At(TokensOf(k), Dot) ==> p == POSTFIX && e.Index?)
    ensures ParseAt(p, TokensOf(ShowBare(sp, e, k))) == After(p, Reread(e), TokensOf(k))
    decreases e, 4 + Rank(e, p)
  {
    hide ParseAt, ShowBare, Reread, TokensOf, Writable, After, Stops;
    if PrecOf(e) > p {
      NoDot(p, TokensOf(k));
      StopsTighter(p, p + 1, TokensOf(k));
      ReadBareAt(sp, e, p + 1, k);
      BareStarts(sp, e, k);
      StepUp(p, TokensOf(ShowBare(sp, e, k)), Reread(e), TokensOf(k));
    } else {
      ReadBare(sp, e, k);
    }
  }

  lemma EndsNoDot(k: TokenList)
    requires Ends(k)
    ensures !At(k, Dot)
  {
  }

  lemma NoDot(p: Prec, k: TokenList)
    requires p < POSTFIX && Stops(p, k)
    ensures !At(k, Dot)
  {
  }

  /** ... and so nothing more is taken up where nothing can follow. */
  lemma ReadWhole(sp: Spelling, e: Expr, p: Prec, k: Pieces)
    requires Writable(e) && Ends(TokensOf(k))
    ensures ParseAt(p, TokensOf(ShowExpr(sp, e, p, k))) == Ok(Parsed(Reread(e), TokensOf(k)))
    decreases e, 30
  {
    hide ParseAt, ShowExpr, Reread, TokensOf, Writable, Ends, Stops, After;
    EndsAt(p, Reread(e), TokensOf(k));
    EndsNoDot(TokensOf(k));
    ReadExpr(sp, e, p, k);
  }

  lemma ClosingSign(s: Symbol, k: Pieces)
    requires s == RParen || s == RBracket || s == RBrace || s == Comma
    ensures TokensOf(Sign(s, k)) == Cons(Sym(s), TokensOf(k)) && Ends(TokensOf(Sign(s, k)))
  {
  }

  lemma ReadParenthesized(sp: Spelling, e: Expr, k: Pieces)
    requires Writable(e)
    ensures ParsePrimary(TokensOf(Sign(LParen, ShowBare(sp, e, Sign(RParen, k))))) == Ok(Parsed(Reread(e), TokensOf(k)))
    decreases e, 20
  {
    hide ParseAt, ShowBare, Reread, TokensOf, Writable, Ends;
    var inside := ShowBare(sp, e, Sign(RParen, k));
    PutTokens(Sym(LParen), inside);
    ClosingSign(RParen, k);
    EndsAt(OR, Reread(e), TokensOf(Sign(RParen, k)));
    ReadBareAt(sp, e, OR, Sign(RParen, k));
  }

  lemma ParenStarts(sp: Spelling, e: Expr, k: Pieces)
    ensures TokensOf(Sign(LParen, ShowBare(sp, e, Sign(RParen, k)))).Cons?
    ensures TokensOf(Sign(LParen, ShowBare(sp, e, Sign(RParen, k)))).head == Sym(LParen)
  {
    hide ShowBare;
  }

  /** An expression shown at its own level. */
  lemma ReadBare(sp: Spelling, e: Expr, k: Pieces)
    requires Writable(e) && Stops(PrecOf(e), TokensOf(k)) && (At(TokensOf(k), Dot) ==> e.Index?)
    ensures ParseAt(PrecOf(e), TokensOf(ShowBare(sp, e, k))) == After(PrecOf(e), Reread(e), TokensOf(k))
    decreases e, 3
  {
    hide ParseAt, ShowBare, Reread, TokensOf, Writable, Stops, Loop, PostfixLoop, At;
    match e
    case Literal(v) => if IsNegative(v) { ReadNegative(sp, e, k); } else { LeafAt(sp, e, k); }
    case VariableRef(_) => LeafAt(sp, e, k);
    case PropertyAccess(_, _) => LeafAt(sp, e, k);
    case Parameter(_) => LeafAt(sp, e, k);
    case Comparison(_, _, _) => ReadComparison(sp, e, k);
    case Boolean(op, _) => if op.Not? { ReadNegation(sp, e, k); } else { ReadConnective(sp, e, k); }
    case IsNull(_, _) => ReadIsNull(sp, e, k);
    case In(_, _) => ReadIn(sp, e, k);
    case Arithmetic(_, _, _) => ReadArithmetic(sp, e, k);
    case UnaryMinus(_) => ReadMinus(sp, e, k);
    case ListLiteral(_) => BracketedAt(sp, e, k);
    case MapLiteral(_) => BracketedAt(sp, e, k);
    case Index(_, _) => ReadIndex(sp, e, k);
    case Call(_, _, _, _) => BracketedAt(sp, e, k);
  }

  lemma LeafAt(sp: Spelling, e: Expr, k: Pieces)
    requires Writable(e) && (e.Literal? || e.VariableRef? || e.PropertyAccess? || e.Parameter?) && PrecOf(e) == POSTFIX
    requires Stops(POSTFIX, TokensOf(k)) && !At(TokensOf(k), Dot)
    ensures ParseAt(POSTFIX, TokensOf(ShowBare(sp, e, k))) == After(POSTFIX, Reread(e), TokensOf(k))
  {
    hide ParseAt, ShowBare, Reread, TokensOf, Writable, ParsePrimary, PostfixLoop;
    ReadLeaf(sp, e, k);
    ParseAtOther(POSTFIX, TokensOf(ShowBare(sp, e, k)));
  }

  lemma ReadNegative(sp: Spelling, e: Expr, k: Pieces)
    requires e.Literal? && IsNegative(e.value) && Stops(UNARY, TokensOf(k))
    ensures ParseAt(UNARY, TokensOf(ShowBare(sp, e, k))) == After(UNARY, Reread(e), TokensOf(k))
  {
    hide ParseAt, ParsePrimary, Unparsed, ReadDecimal, Stops;
    var n := e.value.value.n;
    UnparsedReadsBack(n);
    var text := Unparsed(n);
    var number := Put(NumberToken(text[1..]), k);
    PutTokens(Sym(Dash), number);
    PutTokens(NumberToken(text[1..]), k);
    assert ShowBare(sp, e, k) == Sign(Dash, number);
    NumberPrimary(text[1..], Negate(n), TokensOf(k));
    FromPrimary(UNARY, TokensOf(number), Literal(Some(Num(Negate(n)))), TokensOf(k));
    ParseAtOther(UNARY, TokensOf(ShowBare(sp, e, k)));
  }

  lemma NumberPrimary(text: string, n: Numbers.Number, k: TokenList)
    requires ReadDecimal(text) == Some(n)
    ensures ParsePrimary(Cons(NumberToken(text), k)) == Ok(Parsed(Literal(Some(Num(n))), k))
  {
    hide ParseAt, ReadDecimal;
  }

  lemma ReadComparison(sp: Spelling, e: Expr, k: Pieces)
    requires e.Comparison? && Writable(e) && Stops(PREDICATE, TokensOf(k))
    ensures ParseAt(PREDICATE, TokensOf(ShowBare(sp, e, k))) == Ok(Parsed(Reread(e), TokensOf(k)))
    decreases e, 1
  {
    hide ParseAt, ShowExpr, TokensOf, Stops, BinaryAt, PredicateTail;
    var right := ShowExpr(sp, e.right, ADDITIVE, k);
    var tail := Gap(Sign(ComparisonSymbol(e.cmp), Gap(right)));
    SpacedSign(ComparisonSymbol(e.cmp), right);
    SignStops(ComparisonSymbol(e.cmp), TokensOf(right));
    ReadExpr(sp, e.left, ADDITIVE, tail);
    LoopEnds(ADDITIVE, Reread(e.left), TokensOf(tail));
    StopsTighter(PREDICATE, ADDITIVE, TokensOf(k));
    ReadExpr(sp, e.right, ADDITIVE, k);
    NextEnds(PREDICATE, Reread(e.right), TokensOf(k));
    ParseAtOther(PREDICATE, TokensOf(ShowBare(sp, e, k)));
    ComparisonTail(Reread(e.left), e.cmp, TokensOf(right));
  }

  lemma SignStops(s: Symbol, k: TokenList)
    requires s in {EqSign, NeqSign, LtSign, LteSign, GtSign, GteSign}
    ensures Stops(ADDITIVE, Cons(Sym(s), k)) && BinaryAt(ADDITIVE, Cons(Sym(s), k)).None?
  {
  }

  lemma ComparisonTail(left: Expr, op: ComparisonOp, k: TokenList)
    ensures PredicateTail(left, Cons(Sym(ComparisonSymbol(op)), k))
         == var right := ParseAt(ADDITIVE, k);
            if right.Err? then Err(right.error) else Ok(Parsed(Comparison(left, op, right.value.value), right.value.rest))
  {
    hide ParseAt;
  }

  lemma WordStops(sp: Spelling, w: string, k: TokenList)
    requires w in {"IS", "IN"}
    ensures Stops(ADDITIVE, Cons(Keyword(w, sp.word(w)), k)) && BinaryAt(ADDITIVE, Cons(Keyword(w, sp.word(w)), k)).None?
  {
  }

  lemma ReadIsNull(sp: Spelling, e: Expr, k: Pieces)
    requires e.IsNull? && Writable(e)
    ensures ParseAt(PREDICATE, TokensOf(ShowBare(sp, e, k))) == Ok(Parsed(Reread(e), TokensOf(k)))
    decreases e, 1
  {
    hide ParseAt, ShowExpr, TokensOf, Stops, BinaryAt, PredicateTail;
    var end := if e.negated then Word(sp, "NOT", Gap(Word(sp, "NULL", k))) else Word(sp, "NULL", k);
    var tail := Gap(Word(sp, "IS", Gap(end)));
    SpacedWord(sp, "IS", end);
    SpacedWord(sp, "NOT", Word(sp, "NULL", k));
    PutTokens(Keyword("NULL", sp.word("NULL")), k);
    WordStops(sp, "IS", TokensOf(end));
    ReadExpr(sp, e.operand, ADDITIVE, tail);
    LoopEnds(ADDITIVE, Reread(e.operand), TokensOf(tail));
    ParseAtOther(PREDICATE, TokensOf(ShowBare(sp, e, k)));
    IsNullTail(sp, Reread(e.operand), e.negated, TokensOf(k));
  }

  lemma IsNullTail(sp: Spelling, left: Expr, negated: bool, k: TokenList)
    ensures PredicateTail(left, Cons(Keyword("IS", sp.word("IS")), if negated then Cons(Keyword("NOT", sp.word("NOT")), Cons(Keyword("NULL", sp.word("NULL")), k)) else Cons(Keyword("NULL", sp.word("NULL")), k)))
         == Ok(Parsed(IsNull(left, negated), k))
  {
    hide ParseAt, ParseLiteralList;
  }

  lemma {:induction false} ReadLiterals(sp: Spelling, es: seq<Expr>, k: Pieces)
    requires es != [] && forall i :: 0 <= i < |es| ==> IsScalarLiteral(es[i])
    requires !At(TokensOf(k), Comma)
    ensures ParseLiterals(TokensOf(ShowLiterals(sp, es, k))) == Ok(Parsed(es, TokensOf(k)))
    decreases |es|
  {
    hide ShowScalar, ParseScalar, TokensOf;
    assert IsScalarLiteral(es[0]);
    if |es| == 1 {
      ReadScalar(sp, es[0].value.value, k);
      assert es == [Literal(Some(es[0].value.value))];
    } else {
      var more := ShowLiterals(sp, es[1..], k);
      ReadScalar(sp, es[0].value.value, Sign(Comma, Gap(more)));
      PutTokens(Sym(Comma), Gap(more));
      PutTokens(Sym(Comma), more);
      ReadLiterals(sp, es[1..], k);
      assert es == [Literal(Some(es[0].value.value))] + es[1..];
    }
  }

  lemma LiteralsStart(sp: Spelling, es: seq<Expr>, k: Pieces)
    requires es != [] && IsScalarLiteral(es[0])
    ensures Starts(UNARY, TokensOf(ShowLiterals(sp, es, k)))
  {
    hide ShowScalar, TokensOf;
    ScalarStarts(sp, es[0].value.value, if |es| == 1 then k else Sign(Comma, Gap(ShowLiterals(sp, es[1..], k))));
  }

  lemma ReadLiteralList(sp: Spelling, list: seq<Expr>, k: Pieces)
    requires forall i :: 0 <= i < |list| ==> IsScalarLiteral(list[i])
    ensures ParseLiteralList(TokensOf(Sign(LBracket, ShowLiterals(sp, list, Sign(RBracket, k))))) == Ok(Parsed(list, TokensOf(k)))
  {
    hide ShowLiterals, ParseLiterals, TokensOf, Ends;
    var closed := Sign(RBracket, k);
    PutTokens(Sym(LBracket), ShowLiterals(sp, list, closed));
    ClosingSign(RBracket, k);
    if list == [] {
      NoLiterals(sp, closed);
    } else {
      assert IsScalarLiteral(list[0]);
      LiteralsStart(sp, list, closed);
      ReadLiterals(sp, list, closed);
    }
  }

  lemma NoLiterals(sp: Spelling, k: Pieces)
    ensures ShowLiterals(sp, [], k) == k
  {
  }

  lemma ReadIn(sp: Spelling, e: Expr, k: Pieces)
    requires e.In? && Writable(e)
    ensures ParseAt(PREDICATE, TokensOf(ShowBare(sp, e, k))) == Ok(Parsed(Reread(e), TokensOf(k)))
    decreases e, 1
  {
    hide ParseAt, ShowExpr, TokensOf, Stops, BinaryAt, PredicateTail, ParseLiteralList, ShowLiterals;
    var list := Sign(LBracket, ShowLiterals(sp, e.list, Sign(RBracket, k)));
    var tail := Gap(Word(sp, "IN", Gap(list)));
    SpacedWord(sp, "IN", list);
    WordStops(sp, "IN", TokensOf(list));
    ReadExpr(sp, e.operand, ADDITIVE, tail);
    LoopEnds(ADDITIVE, Reread(e.operand), TokensOf(tail));
    ParseAtOther(PREDICATE, TokensOf(ShowBare(sp, e, k)));
    ReadLiteralList(sp, e.list, k);
    InTail(sp, Reread(e.operand), TokensOf(list));
  }

  lemma InTail(sp: Spelling, left: Expr, k: TokenList)
    requires ParseLiteralList(k).Ok?
    ensures PredicateTail(left, Cons(Keyword("IN", sp.word("IN")), k)) == Ok(Parsed(In(left, ParseLiteralList(k).value.value), ParseLiteralList(k).value.rest))
  {
    hide ParseAt, ParseLiteralList;
  }

  lemma ReadNegation(sp: Spelling, e: Expr, k: Pieces)
    requires e.Boolean? && e.bop.Not? && Writable(e) && Stops(NOT, TokensOf(k))
    ensures ParseAt(NOT, TokensOf(ShowBare(sp, e, k))) == Ok(Parsed(Reread(e), TokensOf(k)))
    decreases e, 1
  {
    hide ParseAt, ShowExpr, TokensOf, Stops;
    var operand := ShowExpr(sp, e.operands[0], NOT, k);
    SpacedWord(sp, "NOT", operand);
    ReadExpr(sp, e.operands[0], NOT, k);
    ParseAtOther(NOT, TokensOf(ShowBare(sp, e, k)));
  }

  lemma ReadMinus(sp: Spelling, e: Expr, k: Pieces)
    requires e.UnaryMinus? && Writable(e) && Stops(UNARY, TokensOf(k))
    ensures ParseAt(UNARY, TokensOf(ShowBare(sp, e, k))) == Ok(Parsed(Reread(e), TokensOf(k)))
    decreases e, 1
  {
    hide ParseAt, ShowExpr, TokensOf, Stops;
    var operand := ShowExpr(sp, e.operand, POSTFIX, k);
    PutTokens(Sym(Dash), operand);
    NoDot(UNARY, TokensOf(k));
    StopsTighter(UNARY, POSTFIX, TokensOf(k));
    ReadExpr(sp, e.operand, POSTFIX, k);
    ExprStarts(sp, e.operand, POSTFIX, k);
    StepUp(UNARY, TokensOf(operand), Reread(e.operand), TokensOf(k));
    ParseAtOther(UNARY, TokensOf(ShowBare(sp, e, k)));
  }

  lemma ReadArithmetic(sp: Spelling, e: Expr, k: Pieces)
    requires e.Arithmetic? && Writable(e) && Stops(PrecOf(e), TokensOf(k))
    ensures ParseAt(PrecOf(e), TokensOf(ShowBare(sp, e, k))) == Loop(PrecOf(e), Reread(e), TokensOf(k))
    decreases e, 1
  {
    hide ParseAt, ShowExpr, TokensOf, Stops, BinaryAt, Loop;
    var p := PrecOf(e);
    var right := ShowExpr(sp, e.right, p + 1, k);
    var tail := Gap(Sign(ArithmeticSymbol(e.aop), Gap(right)));
    SpacedSign(ArithmeticSymbol(e.aop), right);
    ArithmeticStops(e.aop, TokensOf(right));
    ReadExpr(sp, e.left, p, tail);
    StopsTighter(p, p + 1, TokensOf(k));
    ReadExpr(sp, e.right, p + 1, k);
    NextEnds(p, Reread(e.right), TokensOf(k));
    LoopOnce(p, Reread(e.left), Numeric(e.aop), TokensOf(tail));
  }

  lemma ArithmeticStops(op: ArithmeticOp, k: TokenList)
    ensures var p := if op.Add? || op.Sub? then ADDITIVE else MULTIPLICATIVE;
            Stops(p, Cons(Sym(ArithmeticSymbol(op)), k)) && BinaryAt(p, Cons(Sym(ArithmeticSymbol(op)), k)) == Some(Numeric(op))
  {
  }

  lemma LoopOnce(p: Prec, left: Expr, op: BinaryOp, k: TokenList)
    requires p < POSTFIX && BinaryAt(p, k) == Some(op) && ParseAt(p + 1, k.tail).Ok?
    ensures var right := ParseAt(p + 1, k.tail).value;
            Loop(p, left, k) == Loop(p, op.Apply(left, right.value), right.rest)
  {
    hide ParseAt;
  }

  lemma ConnectiveStops(sp: Spelling, op: BooleanOp, k: TokenList)
    requires !op.Not?
    ensures var p, toks := BooleanPrec(op), Cons(Keyword(BooleanWord(op), sp.word(BooleanWord(op))), k);
            Stops(p, toks) && BinaryAt(p, toks) == Some(Logical(op)) && forall e :: After(p + 1, e, toks) == Ok(Parsed(e, toks))
  {
    hide Loop;
    var p, toks := BooleanPrec(op), Cons(Keyword(BooleanWord(op), sp.word(BooleanWord(op))), k);
    forall e ensures After(p + 1, e, toks) == Ok(Parsed(e, toks)) {
      NextEnds(p, e, toks);
    }
  }

  lemma ReadConnective(sp: Spelling, e: Expr, k: Pieces)
    requires e.Boolean? && !e.bop.Not? && Writable(e) && Stops(PrecOf(e), TokensOf(k))
    ensures ParseAt(PrecOf(e), TokensOf(ShowBare(sp, e, k))) == Loop(PrecOf(e), Reread(e), TokensOf(k))
    decreases e, 1
  {
    hide ParseAt, ShowExpr, ShowOperands, TokensOf, Stops, BinaryAt, Loop, RereadAll, Gather;
    var rest := e.operands[1..];
    OperandsStop(sp, e.bop, rest, k);
    ReadExpr(sp, e.operands[0], PrecOf(e), ShowOperands(sp, e.bop, rest, k));
    ReadOperands(sp, e.bop, Reread(e.operands[0]), rest, k);
  }

  /** What follows an operand does not bind tighter than the connective. */
  lemma OperandsStop(sp: Spelling, op: BooleanOp, operands: seq<Expr>, k: Pieces)
    requires !op.Not? && Stops(BooleanPrec(op), TokensOf(k))
    ensures Stops(BooleanPrec(op), TokensOf(ShowOperands(sp, op, operands, k)))
  {
    hide ShowExpr, TokensOf, Stops, BinaryAt, After;
    if operands != [] {
      var shown := ShowExpr(sp, operands[0], BooleanPrec(op) + 1, ShowOperands(sp, op, operands[1..], k));
      SpacedWord(sp, BooleanWord(op), shown);
      ConnectiveStops(sp, op, TokensOf(shown));
    }
  }

  lemma {:induction false} ReadOperands(sp: Spelling, op: BooleanOp, left: Expr, operands: seq<Expr>, k: Pieces)
    requires !op.Not? && AllWritable(operands) && Stops(BooleanPrec(op), TokensOf(k))
    ensures Loop(BooleanPrec(op), left, TokensOf(ShowOperands(sp, op, operands, k)))
         == Loop(BooleanPrec(op), Gather(op, left, RereadAll(operands)), TokensOf(k))
    decreases operands, 1
  {
    hide ParseAt, ShowExpr, TokensOf, Stops, BinaryAt, Loop, Reread, Writable, After;
    if operands != [] {
      var p := BooleanPrec(op);
      var more := ShowOperands(sp, op, operands[1..], k);
      var shown := ShowExpr(sp, operands[0], p + 1, more);
      SpacedWord(sp, BooleanWord(op), shown);
      ConnectiveStops(sp, op, TokensOf(shown));
      OperandsStop(sp, op, operands[1..], k);
      StopsTighter(p, p + 1, TokensOf(more));
      ReadExpr(sp, operands[0], p + 1, more);
      NextEnds(p, Reread(operands[0]), TokensOf(more));
      LoopOnce(p, left, Logical(op), TokensOf(ShowOperands(sp, op, operands, k)));
      ReadOperands(sp, op, Boolean(op, [left, Reread(operands[0])]), operands[1..], k);
      assert RereadAll(operands)[1..] == RereadAll(operands[1..]);
    }
  }

  lemma ReadIndex(sp: Spelling, e: Expr, k: Pieces)
    requires e.Index? && Writable(e) && Stops(POSTFIX, TokensOf(k))
    ensures ParseAt(POSTFIX, TokensOf(ShowBare(sp, e, k))) == PostfixLoop(Reread(e), TokensOf(k))
    decreases e, 1
  {
    hide ParseAt, ShowExpr, TokensOf, Ends;
    if Dotted(sp, e) {
      ReadDotted(sp, e, k);
    } else {
      var closed := Sign(RBracket, k);
      var index := ShowExpr(sp, e.index, OR, closed);
      PutTokens(Sym(LBracket), index);
      ClosingSign(RBracket, k);
      ReadExpr(sp, e.target, POSTFIX, Sign(LBracket, index));
      ReadWhole(sp, e.index, OR, closed);
    }
  }

  lemma ReadDotted(sp: Spelling, e: Expr, k: Pieces)
    requires Dotted(sp, e) && Writable(e) && Stops(POSTFIX, TokensOf(k))
    ensures ParseAt(POSTFIX, TokensOf(ShowBare(sp, e, k))) == PostfixLoop(Reread(e), TokensOf(k))
    decreases e, 0
  {
    hide ParseAt, ShowExpr, TokensOf, Name, ExpectName;
    var name := e.index.value.value.s;
    PutTokens(Sym(Dot), Name(name, k));
    ReadExpr(sp, e.target, POSTFIX, Sign(Dot, Name(name, k)));
    NameReadsBack(name, k);
  }

  // ---- brackets -----------------------------------------------------------------------------------------------

  lemma BracketedAt(sp: Spelling, e: Expr, k: Pieces)
    requires Writable(e) && (e.ListLiteral? || e.MapLiteral? || e.Call?) && Stops(POSTFIX, TokensOf(k))
    ensures ParseAt(POSTFIX, TokensOf(ShowBare(sp, e, k))) == After(POSTFIX, Reread(e), TokensOf(k))
    decreases e, 2
  {
    hide ParseAt, ShowBare, Reread, TokensOf, Writable, ParsePrimary, PostfixLoop, Stops;
    match e {
      case ListLiteral(_) => ReadList(sp, e, k);
      case MapLiteral(_) => ReadMap(sp, e, k);
      case Call(_, _, _, _) => ReadCall(sp, e, k);
    }
    ParseAtOther(POSTFIX, TokensOf(ShowBare(sp, e, k)));
  }

  lemma ExprsStart(sp: Spelling, es: seq<Expr>, k: Pieces)
    requires es != [] && AllWritable(es)
    ensures Starts(OR, TokensOf(ShowExprs(sp, es, k)))
  {
    hide ShowExpr, TokensOf, Writable, Starts;
    ExprStarts(sp, es[0], OR, if |es| == 1 then k else Sign(Comma, Gap(ShowExprs(sp, es[1..], k))));
  }

  lemma {:induction false} ReadExprs(sp: Spelling, es: seq<Expr>, k: Pieces)
    requires es != [] && AllWritable(es) && Ends(TokensOf(k)) && !At(TokensOf(k), Comma)
    ensures ParseExprs(TokensOf(ShowExprs(sp, es, k))) == Ok(Parsed(RereadAll(es), TokensOf(k)))
    decreases es, 1
  {
    hide ParseAt, ShowExpr, TokensOf, Reread, Writable, Ends;
    if |es| == 1 {
      ReadWhole(sp, es[0], OR, k);
      assert RereadAll(es) == [Reread(es[0])] + RereadAll(es[1..]) == [Reread(es[0])];
    } else {
      var more := ShowExprs(sp, es[1..], k);
      ClosingSign(Comma, Gap(more));
      PutTokens(Sym(Comma), more);
      ReadWhole(sp, es[0], OR, Sign(Comma, Gap(more)));
      ReadExprs(sp, es[1..], k);
    }
  }

  lemma NoExprs(sp: Spelling, k: Pieces)
    ensures ShowExprs(sp, [], k) == k && ShowFields(sp, [], k) == k && RereadAll([]) == []
  {
  }

  lemma ReadList(sp: Spelling, e: Expr, k: Pieces)
    requires e.ListLiteral? && Writable(e)
    ensures ParsePrimary(TokensOf(ShowBare(sp, e, k))) == Ok(Parsed(Reread(e), TokensOf(k)))
    decreases e, 0
  {
    hide ParseAt, ShowExprs, ParseExprs, TokensOf, RereadAll, Ends;
    var closed := Sign(RBracket, k);
    PutTokens(Sym(LBracket), ShowExprs(sp, e.items, closed));
    ClosingSign(RBracket, k);
    if e.items == [] {
      NoExprs(sp, closed);
    } else {
      ExprsStart(sp, e.items, closed);
      ReadExprs(sp, e.items, closed);
    }
  }

  lemma ReadCall(sp: Spelling, e: Expr, k: Pieces)
    requires e.Call? && Writable(e)
    ensures ParsePrimary(TokensOf(ShowBare(sp, e, k))) == Ok(Parsed(Reread(e), TokensOf(k)))
    decreases e, 1
  {
    hide ParseAt, ShowExprs, ParseArguments, TokensOf, RereadAll, IsPlain, IsKeyword, UpperAll;
    var closed := Sign(RParen, k);
    var args := if e.star then Sign(Star, closed)
                else if e.distinct then Word(sp, "DISTINCT", Gap(ShowExprs(sp, e.args, closed)))
                else ShowExprs(sp, e.args, closed);
    PutTokens(Sym(LParen), args);
    PutTokens(Identifier(e.fname), Sign(LParen, args));
    ReadArguments(sp, e, k);
  }

  lemma ReadArguments(sp: Spelling, e: Expr, k: Pieces)
    requires e.Call? && Writable(e)
    ensures ParseArguments(e.fname, TokensOf(if e.star then Sign(Star, Sign(RParen, k))
                                             else if e.distinct then Word(sp, "DISTINCT", Gap(ShowExprs(sp, e.args, Sign(RParen, k))))
                                             else ShowExprs(sp, e.args, Sign(RParen, k)))) == Ok(Parsed(Reread(e), TokensOf(k)))
    decreases e, 0
  {
    hide ParseAt, ShowExprs, ParseExprs, TokensOf, RereadAll, IsPlain, IsKeyword, UpperAll, Ends;
    var closed := Sign(RParen, k);
    ClosingSign(RParen, k);
    if e.star {
      PutTokens(Sym(Star), closed);
    } else {
      SpacedWord(sp, "DISTINCT", ShowExprs(sp, e.args, closed));
      if e.args == [] {
        NoExprs(sp, closed);
      } else {
        ExprsStart(sp, e.args, closed);
        ReadExprs(sp, e.args, closed);
      }
    }
  }

  lemma {:induction false} SetNewField(fields: seq<Field>, key: string, e: Expr)
    requires forall i :: 0 <= i < |fields| ==> fields[i].key != key
    ensures SetField(fields, key, e) == fields + [Field(key, e)]
  {
    if fields != [] {
      SetNewField(fields[1..], key, e);
    }
  }

  lemma {:induction false} ReadFields(sp: Spelling, done: seq<Field>, fields: seq<Field>, k: Pieces)
    requires fields != [] && FieldsWritable(fields) && Ends(TokensOf(k)) && !At(TokensOf(k), Comma)
    requires DistinctKeys(done + fields)
    ensures ParseFields(done, TokensOf(ShowFields(sp, fields, k))) == Ok(Parsed(done + RereadFields(fields), TokensOf(k)))
    decreases fields, 1
  {
    hide ParseAt, ShowExpr, TokensOf, Reread, Writable, Ends, Name, SetField;
    var f := fields[0];
    var tail := if |fields| == 1 then k else Sign(Comma, Gap(ShowFields(sp, fields[1..], k)));
    var shown := ShowExpr(sp, f.expr, OR, tail);
    if |fields| > 1 {
      ClosingSign(Comma, Gap(ShowFields(sp, fields[1..], k)));
      PutTokens(Sym(Comma), ShowFields(sp, fields[1..], k));
    }
    NameReadsBack(f.key, Sign(Colon, Gap(shown)));
    PutTokens(Sym(Colon), Gap(shown));
    PutTokens(Sym(Colon), shown);
    ReadWhole(sp, f.expr, OR, tail);
    var next := Field(f.key, Reread(f.expr));
    NewKey(done, fields);
    SetNewField(done, f.key, Reread(f.expr));
    if |fields| == 1 {
      assert RereadFields(fields) == [next] + RereadFields(fields[1..]) == [next];
    } else {
      KeysAfter(done, fields, Reread(f.expr));
      ReadFields(sp, done + [next], fields[1..], k);
      assert done + [next] + RereadFields(fields[1..]) == done + RereadFields(fields);
    }
  }

  lemma NewKey(done: seq<Field>, fields: seq<Field>)
    requires fields != [] && DistinctKeys(done + fields)
    ensures forall i :: 0 <= i < |done| ==> done[i].key != fields[0].key
  {
    forall i | 0 <= i < |done| ensures done[i].key != fields[0].key {
      assert (done + fields)[i] == done[i] && (done + fields)[|done|] == fields[0];
    }
  }

  lemma KeysAfter(done: seq<Field>, fields: seq<Field>, e: Expr)
    requires fields != [] && DistinctKeys(done + fields)
    ensures DistinctKeys(done + [Field(fields[0].key, e)] + fields[1..])
  {
    var was, now := done + fields, done + [Field(fields[0].key, e)] + fields[1..];
    assert forall i :: 0 <= i < |now| ==> now[i].key == was[i].key;
  }

  lemma FieldsStart(sp: Spelling, fields: seq<Field>, k: Pieces)
    requires fields != []
    ensures !At(TokensOf(ShowFields(sp, fields, k)), RBrace)
  {
    hide ShowExpr, IsPlain, IsKeyword;
  }

  lemma ReadMap(sp: Spelling, e: Expr, k: Pieces)
    requires e.MapLiteral? && Writable(e)
    ensures ParsePrimary(TokensOf(ShowBare(sp, e, k))) == Ok(Parsed(Reread(e), TokensOf(k)))
    decreases e, 0
  {
    hide ParseAt, ShowFields, ParseFields, TokensOf, Ends, RereadFields, FieldsWritable, ParseScalar, ParseExprs, ParseNamed, Stops;
    var closed := Sign(RBrace, k);
    PutTokens(Sym(LBrace), ShowFields(sp, e.fields, closed));
    ClosingSign(RBrace, k);
    if e.fields == [] {
      NoExprs(sp, closed);
    } else {
      FieldsStart(sp, e.fields, closed);
      assert [] + e.fields == e.fields;
      ReadFields(sp, [], e.fields, closed);
      assert [] + RereadFields(e.fields) == RereadFields(e.fields);
    }
  }

  // ---- what comes back unchanged ------------------------------------------------------------------------------

  /** AND and OR join two operands, NOT takes one, no number literal is negative, and a starred call has nothing else. */
  predicate Stable(e: Expr)
    decreases e, 0
  {
    match e
    case Literal(v) => !IsNegative(v)
    case Comparison(left, _, right) => Stable(left) && Stable(right)
    case Boolean(op, operands) => |operands| == (if op.Not? then 1 else 2) && AllStable(operands)
    case IsNull(operand, _) => Stable(operand)
    case In(operand, _) => Stable(operand)
    case Arithmetic(left, _, right) => Stable(left) && Stable(right)
    case UnaryMinus(operand) => Stable(operand)
    case ListLiteral(items) => AllStable(items)
    case MapLiteral(fields) => FieldsStable(fields)
    case Index(target, index) => Stable(target) && Stable(index)
    case Call(_, args, distinct, star) => AllStable(args) && (star ==> args == [] && !distinct)
    case _ => true
  }

  predicate AllStable(es: seq<Expr>)
    decreases es, 1
  {
    es == [] || (Stable(es[0]) && AllStable(es[1..]))
  }

  predicate FieldsStable(fields: seq<Field>)
    decreases fields, 1
  {
    fields == [] || (Stable(fields[0].expr) && FieldsStable(fields[1..]))
  }

  lemma {:induction false} GatherIsStable(op: BooleanOp, left: Expr, rest: seq<Expr>)
    requires !op.Not? && Stable(left) && AllStable(rest)
    ensures Stable(Gather(op, left, rest))
    decreases |rest|
  {
    if rest != [] {
      var pair := [left, rest[0]];
      assert pair[1..] == [rest[0]] && pair[1..][1..] == [];
      assert AllStable(pair[1..]);
      GatherIsStable(op, Boolean(op, pair), rest[1..]);
    }
  }

  lemma {:induction false} RereadIsStable(e: Expr)
    requires Writable(e)
    ensures Stable(Reread(e))
    decreases e, 0
  {
    hide IsPlain, IsKeyword, DistinctKeys;
    match e
    case Literal(v) =>
    case Comparison(left, _, right) => RereadIsStable(left); RereadIsStable(right);
    case Boolean(op, operands) =>
      RereadIsStable(operands[0]);
      if op.Not? {
        var single := [Reread(operands[0])];
        assert single[1..] == [] && AllStable(single[1..]) && AllStable(single);
      } else {
        AllRereadStable(operands[1..]);
        GatherIsStable(op, Reread(operands[0]), RereadAll(operands[1..]));
      }
    case IsNull(operand, _) => RereadIsStable(operand);
    case In(operand, _) => RereadIsStable(operand);
    case Arithmetic(left, _, right) => RereadIsStable(left); RereadIsStable(right);
    case UnaryMinus(operand) => RereadIsStable(operand);
    case ListLiteral(items) => AllRereadStable(items);
    case MapLiteral(fields) => FieldsRereadStable(fields);
    case Index(target, index) => RereadIsStable(target); RereadIsStable(index);
    case Call(_, args, _, _) => AllRereadStable(args);
    case _ =>
  }

  lemma {:induction false} AllRereadStable(es: seq<Expr>)
    requires AllWritable(es)
    ensures AllStable(RereadAll(es))
    decreases es, 1
  {
    if es != [] {
      RereadIsStable(es[0]);
      AllRereadStable(es[1..]);
      assert RereadAll(es)[1..] == RereadAll(es[1..]);
    }
  }

  lemma {:induction false} FieldsRereadStable(fields: seq<Field>)
    requires FieldsWritable(fields)
    ensures FieldsStable(RereadFields(fields))
    decreases fields, 1
  {
    if fields != [] {
      RereadIsStable(fields[0].expr);
      FieldsRereadStable(fields[1..]);
      assert RereadFields(fields)[1..] == RereadFields(fields[1..]);
    }
  }

  lemma {:induction false} StableIsSame(e: Expr)
    requires Stable(e)
    ensures Reread(e) == e
    decreases e, 0
  {
    match e
    case Comparison(left, _, right) => StableIsSame(left); StableIsSame(right);
    case Boolean(op, operands) =>
      StableIsSame(operands[0]);
      if op.Not? {
        assert operands == [operands[0]];
      } else {
        AllStableSame(operands[1..]);
        assert operands[1..] == [operands[1]] && operands[1..][1..] == [];
        assert Gather(op, operands[0], operands[1..]) == Gather(op, Boolean(op, [operands[0], operands[1]]), []);
        assert operands == [operands[0], operands[1]];
      }
    case IsNull(operand, _) => StableIsSame(operand);
    case In(operand, _) => StableIsSame(operand);
    case Arithmetic(left, _, right) => StableIsSame(left); StableIsSame(right);
    case UnaryMinus(operand) => StableIsSame(operand);
    case ListLiteral(items) => AllStableSame(items);
    case MapLiteral(fields) => FieldsStableSame(fields);
    case Index(target, index) => StableIsSame(target); StableIsSame(index);
    case Call(_, args, _, _) => AllStableSame(args);
    case _ =>
  }

  lemma {:induction false} AllStableSame(es: seq<Expr>)
    requires AllStable(es)
    ensures RereadAll(es) == es
    decreases es, 1
  {
    if es != [] {
      StableIsSame(es[0]);
      AllStableSame(es[1..]);
    }
  }

  lemma {:induction false} FieldsStableSame(fields: seq<Field>)
    requires FieldsStable(fields)
    ensures RereadFields(fields) == fields
    decreases fields, 1
  {
    if fields != [] {
      StableIsSame(fields[0].expr);
      FieldsStableSame(fields[1..]);
    }
  }

  /** Exactly the stable expressions come back from their own text unchanged. */
  lemma RereadIsSame(e: Expr)
    requires Writable(e)
    ensures Reread(e) == e <==> Stable(e)
  {
    hide Writable, Stable, Reread;
    RereadIsStable(e);
    if Stable(e) {
      StableIsSame(e);
    }
  }

  /** -1 is read as the negation of 1. */
  lemma NegativeLiteralChanges()
    ensures Writable(Literal(Some(Num(Numbers.Decimal(-1, 0)))))
    ensures Reread(Literal(Some(Num(Numbers.Decimal(-1, 0))))) == UnaryMinus(Literal(Some(Num(Numbers.Decimal(1, 0)))))
  {
  }
}
