/** No token of a rendered query runs into the next one, so its text reads back as its tokens. */
module CleanText {
  import opened Wrappers
  import Numbers
  import opened NumberText
  import opened Values
  import opened Query
  import opened Tokens
  import opened Lexing
  import opened Unparsing
  import opened ExpressionRoundTrip

  // ---- single tokens ------------------------------------------------------------------------------------------

  predicate AllUpper(s: string) {
    forall i :: 0 <= i < |s| ==> 'A' <= s[i] <= 'Z'
  }

  lemma {:induction false} UpperIsSame(s: string)
    requires AllUpper(s)
    ensures UpperAll(s) == s && AllIdentParts(s)
  {
    if s != "" {
      UpperIsSame(s[1..]);
    }
  }

  lemma WordIsToken(sp: Spelling, w: string)
    requires w in KEYWORDS
    ensures IsToken(Keyword(w, sp.word(w)))
  {
    assert AllUpper(w) && w != "";
    assert KeepsWord(sp, w);
    UpperIsSame(w);
    UpperIsSame(w[1..]);
  }

  lemma {:induction false} DigitsAreNumber(s: string)
    requires AllDigits(s)
    ensures NumberShape(s)
  {
    if s != "" {
      DigitsAreNumber(s[1..]);
    }
  }

  lemma {:induction false} FractionIsNumber(whole: string, fraction: string)
    requires AllDigits(whole) && AllDigits(fraction) && fraction != ""
    ensures NumberShape(whole + ("." + fraction))
  {
    if whole == "" {
      assert whole + ("." + fraction) == "." + fraction;
      assert ("." + fraction)[1..] == fraction;
      DigitsAreNumber(fraction);
    } else {
      FractionIsNumber(whole[1..], fraction);
      assert (whole + ("." + fraction))[1..] == whole[1..] + ("." + fraction);
    }
  }

  lemma ReadableIsToken(text: string)
    requires ReadDecimal(text).Some?
    ensures IsToken(NumberToken(text))
  {
    hide NumberShape, Normalize;
    var dot := IndexOf(text, '.');
    if dot == |text| {
      DigitsAreNumber(text);
    } else {
      FractionIsNumber(text[..dot], text[dot + 1..]);
      assert text == text[..dot] + ("." + text[dot + 1..]);
    }
  }

  lemma CountIsToken(n: nat)
    ensures IsToken(NumberToken(Digits(n)))
  {
    DigitsAreNumber(Digits(n));
  }

  lemma NameIsToken(name: string)
    requires name != ""
    ensures IsToken(NameToken(name))
  {
  }

  // ---- pieces -------------------------------------------------------------------------------------------------

  /** Ends with nothing that runs into what precedes it. */
  predicate Closes(k: Pieces) {
    k.Done? || k.Gap? || (k.Put? && k.token in {Sym(RParen), Sym(RBracket), Sym(RBrace), Sym(Comma), Sym(LBracket)})
  }

  predicate Tidy(k: Pieces) {
    Clean(k) && Closes(k)
  }

  /** Not a sign that could be the first half of a longer one. */
  predicate IsPlainToken(t: Token) {
    t != Sym(Dash) && t != Sym(Plus) && t != Sym(LtSign) && t != Sym(GtSign)
  }

  lemma PutTidy(t: Token, k: Pieces)
    requires IsToken(t) && IsPlainToken(t) && Tidy(k)
    ensures Clean(Put(t, k))
  {
    hide IsToken;
  }

  lemma SignClean(s: Symbol, k: Pieces)
    requires Clean(k) && IsPlainToken(Sym(s))
    ensures Clean(Sign(s, k))
    ensures Closes(Sign(s, k)) <==> s in {RParen, RBracket, RBrace, Comma, LBracket}
  {
  }

  lemma GapTidy(k: Pieces)
    requires Clean(k)
    ensures Tidy(Gap(k))
  {
  }

  lemma WordClean(sp: Spelling, w: string, k: Pieces)
    requires w in KEYWORDS && Tidy(k)
    ensures Clean(Word(sp, w, k))
  {
    hide IsToken;
    WordIsToken(sp, w);
    PutTidy(Keyword(w, sp.word(w)), k);
  }

  /** A sign between spaces. */
  lemma SpacedClean(s: Symbol, k: Pieces)
    requires Clean(k)
    ensures Tidy(Gap(Sign(s, Gap(k))))
  {
    assert Clean(Sign(s, Gap(k)));
  }

  lemma SpacedWordClean(sp: Spelling, w: string, k: Pieces)
    requires w in KEYWORDS && Clean(k)
    ensures Tidy(Gap(Word(sp, w, Gap(k)))) && Clean(Word(sp, w, Gap(k)))
  {
    hide IsToken;
    GapTidy(k);
    WordClean(sp, w, Gap(k));
  }

  lemma NameClean(name: string, k: Pieces)
    requires name != "" && Tidy(k)
    ensures Clean(Name(name, k)) && Clean(Ident(name, k))
  {
    hide IsToken, NameToken;
    NameIsToken(name);
    assert IsToken(Identifier(name)) by { IdentifierIsToken(name); }
    assert IsPlainToken(NameToken(name)) by { NameIsPlainToken(name); }
    PutTidy(NameToken(name), k);
    PutTidy(Identifier(name), k);
  }

  lemma IdentifierIsToken(name: string)
    requires name != ""
    ensures IsToken(Identifier(name))
  {
  }

  lemma NameIsPlainToken(name: string)
    ensures IsPlainToken(NameToken(name))
  {
    hide IsPlain, IsKeyword, UpperAll;
  }

  /** A name before a sign other than a word or number. */
  lemma NameThenSign(t: Token, s: Symbol, k: Pieces)
    requires IsToken(t) && (t.Identifier? || t.Keyword?) && Clean(Sign(s, k))
    ensures Clean(Put(t, Sign(s, k)))
  {
    hide IsToken, IsPlain, IsKeyword;
  }

  lemma ScalarClean(sp: Spelling, v: Scalar, k: Pieces)
    requires Tidy(k)
    ensures Clean(ShowScalar(sp, v, k))
  {
    hide Unparsed, ReadDecimal, IsToken, Clean;
    match v
    case Str(s) => StringTidy(s, k);
    case Bool(b) => WordClean(sp, "TRUE", k); WordClean(sp, "FALSE", k);
    case Num(n) =>
      UnparsedReadsBack(n);
      if n.m < 0 {
        var text := Unparsed(n)[1..];
        ReadableIsToken(text);
        PutTidy(NumberToken(text), k);
        DashThen(NumberToken(text), k);
      } else {
        ReadableIsToken(Unparsed(n));
        PutTidy(NumberToken(Unparsed(n)), k);
      }
  }

  lemma StringTidy(s: string, k: Pieces)
    requires Tidy(k)
    ensures Clean(Put(StringToken(s), k))
  {
  }

  lemma DashThen(t: Token, k: Pieces)
    requires Clean(Put(t, k)) && t != Sym(GtSign) && t != Sym(GteSign)
    ensures Clean(Sign(Dash, Put(t, k)))
  {
    hide IsToken;
    assert Fits(Sym(Dash), t);
    assert IsToken(Sym(Dash)) by { DashIsToken(); }
  }

  lemma DashIsToken()
    ensures IsToken(Sym(Dash))
  {
  }

  // ---- expressions --------------------------------------------------------------------------------------------

  lemma {:induction false} ExprClean(sp: Spelling, e: Expr, min: Prec, k: Pieces)
    requires Writable(e) && Tidy(k)
    ensures Clean(ShowExpr(sp, e, min, k))
    decreases e, 4
  {
    hide Clean, Closes, Writable, ShowBare;
    if Enclosed(sp, e, min) {
      SignClean(RParen, k);
      BareClean(sp, e, Sign(RParen, k));
      SignClean(LParen, ShowBare(sp, e, Sign(RParen, k)));
    } else {
      BareClean(sp, e, k);
    }
  }

  lemma BareClean(sp: Spelling, e: Expr, k: Pieces)
    requires Writable(e) && Tidy(k)
    ensures Clean(ShowBare(sp, e, k))
    decreases e, 3
  {
    hide Clean, Closes, Tidy, ShowExpr, ShowScalar, ShowExprs, ShowFields, ShowLiterals, ShowOperands, IsPlain, IsKeyword, DistinctKeys, NameToken;
    match e
    case Literal(None) => WordClean(sp, "NULL", k);
    case Literal(Some(v)) => ScalarClean(sp, v, k);
    case VariableRef(name) => NameClean(name, k);
    case PropertyAccess(variable, property) =>
      NameClean(property, k);
      DotClean(variable, Name(property, k));
    case Parameter(name) =>
      NameClean(name, k);
      SignClean(Dollar, Ident(name, k));
    case Comparison(left, op, right) =>
      ExprClean(sp, right, ADDITIVE, k);
      SpacedClean(ComparisonSymbol(op), ShowExpr(sp, right, ADDITIVE, k));
      ExprClean(sp, left, ADDITIVE, Gap(Sign(ComparisonSymbol(op), Gap(ShowExpr(sp, right, ADDITIVE, k)))));
    case Boolean(op, operands) =>
      if op.Not? {
        ExprClean(sp, operands[0], NOT, k);
        SpacedWordClean(sp, "NOT", ShowExpr(sp, operands[0], NOT, k));
      } else {
        OperandsClean(sp, op, operands[1..], k);
        ExprClean(sp, operands[0], PrecOf(e), ShowOperands(sp, op, operands[1..], k));
      }
    case IsNull(operand, negated) =>
      WordClean(sp, "NULL", k);
      SpacedWordClean(sp, "NOT", Word(sp, "NULL", k));
      var end := if negated then Word(sp, "NOT", Gap(Word(sp, "NULL", k))) else Word(sp, "NULL", k);
      SpacedWordClean(sp, "IS", end);
      ExprClean(sp, operand, ADDITIVE, Gap(Word(sp, "IS", Gap(end))));
    case In(operand, list) => InClean(sp, e, k);
    case Arithmetic(left, op, right) =>
      ExprClean(sp, right, PrecOf(e) + 1, k);
      SpacedClean(ArithmeticSymbol(op), ShowExpr(sp, right, PrecOf(e) + 1, k));
      ExprClean(sp, left, PrecOf(e), Gap(Sign(ArithmeticSymbol(op), Gap(ShowExpr(sp, right, PrecOf(e) + 1, k)))));
    case UnaryMinus(operand) =>
      ExprClean(sp, operand, POSTFIX, k);
      DashBefore(sp, operand, k);
    case ListLiteral(items) =>
      SignTidy(RBracket, k);
      ExprsClean(sp, items, Sign(RBracket, k));
      SignClean(LBracket, ShowExprs(sp, items, Sign(RBracket, k)));
    case MapLiteral(fields) =>
      SignTidy(RBrace, k);
      FieldsClean(sp, fields, Sign(RBrace, k));
      SignClean(LBrace, ShowFields(sp, fields, Sign(RBrace, k)));
    case Index(target, index) =>
      if Dotted(sp, e) {
        NameClean(index.value.value.s, k);
      }
      TidyIsClean(k);
      IndexClean(sp, e, k);
    case Call(_, _, _, _) => CallClean(sp, e, k);
  }

  lemma IndexClean(sp: Spelling, e: Expr, k: Pieces)
    requires e.Index? && Writable(e) && Clean(k)
    requires Dotted(sp, e) ==> Clean(Name(e.index.value.value.s, k))
    ensures Clean(ShowBare(sp, e, k))
    decreases e, 1
  {
    hide Clean, Closes, Tidy, ShowExpr;
    if Dotted(sp, e) {
      SignClean(Dot, Name(e.index.value.value.s, k));
      DottedClean(sp, e.target, Name(e.index.value.value.s, k));
    } else {
      SignTidyAfter(RBracket, k);
      ExprClean(sp, e.index, OR, Sign(RBracket, k));
      SignTidyAfter(LBracket, ShowExpr(sp, e.index, OR, Sign(RBracket, k)));
      ExprClean(sp, e.target, POSTFIX, Sign(LBracket, ShowExpr(sp, e.index, OR, Sign(RBracket, k))));
    }
  }

  /** Before a dot. */
  lemma DottedClean(sp: Spelling, e: Expr, k: Pieces)
    requires Writable(e) && Dottable(sp, e) && Clean(Sign(Dot, k)) && Clean(k)
    ensures Clean(ShowExpr(sp, e, POSTFIX, Sign(Dot, k)))
    decreases e, 4
  {
    hide Clean, Closes, Tidy, ShowBare, NameToken;
    if Enclosed(sp, e, POSTFIX) {
      SignTidyAfter(RParen, Sign(Dot, k));
      BareClean(sp, e, Sign(RParen, Sign(Dot, k)));
      SignClean(LParen, ShowBare(sp, e, Sign(RParen, Sign(Dot, k))));
    } else {
      if Dotted(sp, e) {
        NameThenDot(e.index.value.value.s, k);
      }
      IndexClean(sp, e, Sign(Dot, k));
    }
  }

  lemma NameIsWord(name: string)
    ensures NameToken(name).Identifier? || NameToken(name).Keyword?
  {
  }

  lemma NameThenDot(name: string, k: Pieces)
    requires name != "" && Clean(k)
    ensures Clean(Name(name, Sign(Dot, k)))
  {
    hide IsToken, IsPlain, IsKeyword, NameToken;
    SignClean(Dot, k);
    NameIsToken(name);
    NameIsWord(name);
    NameThenSign(NameToken(name), Dot, k);
  }

  lemma SignTidy(s: Symbol, k: Pieces)
    requires Tidy(k) && s in {RParen, RBracket, RBrace, Comma, LBracket}
    ensures Tidy(Sign(s, k))
  {
    SignClean(s, k);
  }

  lemma SignTidyAfter(s: Symbol, k: Pieces)
    requires Clean(k) && s in {RParen, RBracket, RBrace, Comma, LBracket}
    ensures Tidy(Sign(s, k))
  {
    SignClean(s, k);
  }

  /** A comma and a space. */
  lemma CommaTidy(k: Pieces)
    requires Clean(k)
    ensures Tidy(Sign(Comma, Gap(k)))
  {
    SignClean(Comma, Gap(k));
  }

  lemma DotClean(variable: string, k: Pieces)
    requires variable != "" && Clean(k)
    ensures Clean(Ident(variable, Sign(Dot, k)))
  {
    hide IsToken, IsPlain, IsKeyword;
    SignClean(Dot, k);
    IdentifierIsToken(variable);
    NameThenSign(Identifier(variable), Dot, k);
  }

  lemma DashBefore(sp: Spelling, e: Expr, k: Pieces)
    requires Writable(e) && Clean(ShowExpr(sp, e, POSTFIX, k))
    ensures Clean(Sign(Dash, ShowExpr(sp, e, POSTFIX, k)))
  {
    hide Clean, ShowExpr, Writable, TokensOf;
    ExprStarts(sp, e, POSTFIX, k);
    var shown := ShowExpr(sp, e, POSTFIX, k);
    PutTokens(shown.token, shown.rest);
    DashThen(shown.token, shown.rest);
  }

  lemma {:induction false} OperandsClean(sp: Spelling, op: BooleanOp, operands: seq<Expr>, k: Pieces)
    requires !op.Not? && AllWritable(operands) && Tidy(k)
    ensures Tidy(ShowOperands(sp, op, operands, k))
    decreases operands, 5
  {
    hide Clean, Closes, Tidy, ShowExpr, Writable;
    if operands != [] {
      var more := ShowOperands(sp, op, operands[1..], k);
      OperandsClean(sp, op, operands[1..], k);
      ExprClean(sp, operands[0], BooleanPrec(op) + 1, more);
      SpacedWordClean(sp, BooleanWord(op), ShowExpr(sp, operands[0], BooleanPrec(op) + 1, more));
    }
  }

  lemma {:induction false} ExprsClean(sp: Spelling, es: seq<Expr>, k: Pieces)
    requires AllWritable(es) && Tidy(k)
    ensures Clean(ShowExprs(sp, es, k))
    decreases es, 5
  {
    hide Clean, Closes, ShowExpr, Writable;
    if |es| == 1 {
      ExprClean(sp, es[0], OR, k);
    } else if es != [] {
      ExprsClean(sp, es[1..], k);
      CommaTidy(ShowExprs(sp, es[1..], k));
      ExprClean(sp, es[0], OR, Sign(Comma, Gap(ShowExprs(sp, es[1..], k))));
    }
  }

  lemma {:induction false} LiteralsClean(sp: Spelling, es: seq<Expr>, k: Pieces)
    requires (forall i :: 0 <= i < |es| ==> IsScalarLiteral(es[i])) && Tidy(k)
    ensures Clean(ShowLiterals(sp, es, k))
    decreases |es|
  {
    hide Clean, Closes, ShowScalar;
    if es != [] {
      assert IsScalarLiteral(es[0]);
      if |es| == 1 {
        ScalarClean(sp, es[0].value.value, k);
      } else {
        LiteralsClean(sp, es[1..], k);
        CommaTidy(ShowLiterals(sp, es[1..], k));
        ScalarClean(sp, es[0].value.value, Sign(Comma, Gap(ShowLiterals(sp, es[1..], k))));
      }
    }
  }

  lemma InClean(sp: Spelling, e: Expr, k: Pieces)
    requires e.In? && Writable(e) && Tidy(k)
    ensures Clean(ShowBare(sp, e, k))
    decreases e, 2
  {
    hide Clean, Closes, Tidy, ShowExpr, ShowLiterals;
    SignTidy(RBracket, k);
    LiteralsClean(sp, e.list, Sign(RBracket, k));
    var list := Sign(LBracket, ShowLiterals(sp, e.list, Sign(RBracket, k)));
    SignClean(LBracket, ShowLiterals(sp, e.list, Sign(RBracket, k)));
    SpacedWordClean(sp, "IN", list);
    ExprClean(sp, e.operand, ADDITIVE, Gap(Word(sp, "IN", Gap(list))));
  }

  lemma CallClean(sp: Spelling, e: Expr, k: Pieces)
    requires e.Call? && Writable(e) && Tidy(k)
    ensures Clean(ShowBare(sp, e, k))
    decreases e, 2
  {
    hide Clean, Closes, Tidy, ShowExpr, ShowExprs, IsPlain, IsKeyword, UpperAll;
    var closed := Sign(RParen, k);
    SignTidy(RParen, k);
    SignClean(Star, closed);
    ExprsClean(sp, e.args, closed);
    SpacedWordClean(sp, "DISTINCT", ShowExprs(sp, e.args, closed));
    var args := if e.star then Sign(Star, closed)
                else if e.distinct then Word(sp, "DISTINCT", Gap(ShowExprs(sp, e.args, closed)))
                else ShowExprs(sp, e.args, closed);
    assert Clean(closed) by { TidyIsClean(closed); }
    SignClean(Star, closed);
    SignClean(LParen, args);
    FunctionNameIsToken(e.fname);
    NameThenSign(Identifier(e.fname), LParen, args);
  }

  lemma TidyIsClean(k: Pieces)
    requires Tidy(k)
    ensures Clean(k)
  {
  }

  lemma FunctionNameIsToken(name: string)
    requires IsPlain(name)
    ensures IsToken(Identifier(name))
  {
  }

  lemma {:induction false} FieldsClean(sp: Spelling, fields: seq<Field>, k: Pieces)
    requires FieldsWritable(fields) && Tidy(k)
    ensures Clean(ShowFields(sp, fields, k))
    decreases fields, 5
  {
    hide Clean, Closes, ShowExpr, Writable, NameToken;
    if fields != [] {
      var tail := if |fields| == 1 then k else Sign(Comma, Gap(ShowFields(sp, fields[1..], k)));
      if |fields| > 1 {
        FieldsClean(sp, fields[1..], k);
        CommaTidy(ShowFields(sp, fields[1..], k));
      }
      ExprClean(sp, fields[0].expr, OR, tail);
      KeyClean(fields[0].key, ShowExpr(sp, fields[0].expr, OR, tail));
    }
  }

  /** A key, a colon and a space. */
  lemma KeyClean(key: string, k: Pieces)
    requires key != "" && Clean(k)
    ensures Clean(Name(key, Sign(Colon, Gap(k))))
  {
    hide IsToken, IsPlain, IsKeyword, UpperAll;
    GapTidy(k);
    SignClean(Colon, Gap(k));
    NameIsToken(key);
    NameThenSign(NameToken(key), Colon, Gap(k));
  }
}
