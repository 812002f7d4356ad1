/**
 The parser as it runs: a cursor over the tokens that every accept and expect advances, and loops that build the lists.
 Each method reads what the parsing function of its name reads from the tokens left, and leaves the cursor where that
 function's rest begins.
 */
module Parser {
  import opened Wrappers
  import opened NumberText
  import opened Values
  import opened Query
  import opened Tokens
  import opened Unparsing
  import opened Parsing
  import opened Lexing
  import opened Lexer
  import opened QueryRoundTrip

  /** The tokens from a position on. */
  function From(tokens: seq<Token>, i: nat): (r: TokenList)
    requires i <= |tokens|
    ensures r.Length() == |tokens| - i
    decreases |tokens| - i
  {
    if i == |tokens| then Nil else Cons(tokens[i], From(tokens, i + 1))
  }

  function Prepended<T>(items: seq<T>, more: ParseResult<seq<T>>): ParseResult<seq<T>> {
    match more
    case Ok(p) => Ok(Parsed(items + p.value, p.rest))
    case Err(e) => Err(e)
  }

  /** A comma-separated list of which some items have been read. */
  function ListTail<T>(items: seq<T>, toks: TokenList, parse: TokenList -> ParseResult<seq<T>>): ParseResult<seq<T>> {
    if At(toks, Comma) then Prepended(items, parse(toks.tail)) else Ok(Parsed(items, toks))
  }

  /** One more item. */
  lemma ListTailGrows<T>(items: seq<T>, item: T, toks: TokenList, parse: TokenList -> ParseResult<seq<T>>)
    ensures Prepended(items, ListTail([item], toks, parse)) == ListTail(items + [item], toks, parse)
  {
    if At(toks, Comma) && parse(toks.tail).Ok? {
      assert items + ([item] + parse(toks.tail).value.value) == items + [item] + parse(toks.tail).value.value;
    }
  }

  lemma NothingPrepended<T>(more: ParseResult<seq<T>>)
    ensures Prepended([], more) == more
  {
    if more.Ok? {
      assert [] + more.value.value == more.value.value;
    }
  }

  lemma PrependedTwice<T>(items: seq<T>, item: T, more: ParseResult<seq<T>>)
    ensures Prepended(items, Prepended([item], more)) == Prepended(items + [item], more)
  {
    if more.Ok? {
      assert items + ([item] + more.value.value) == items + [item] + more.value.value;
    }
  }

  /** One more step. */
  lemma OneMoreStep(steps: seq<Step>, s: Step)
    ensures RelsOf(steps + [s]) == RelsOf(steps) + [s.rel]
    ensures NodesOf(steps + [s]) == NodesOf(steps) + [s.node]
  {
  }

  /** The clause that was announced, if one was, and those after it. */
  function ClausesAfter(next: Option<ParseResult<Clause>>, toks: TokenList): ParseResult<seq<Clause>> {
    match next
    case None => Ok(Parsed([], toks))
    case Some(parsed) =>
      var first :- parsed;
      Prepended([first.value], ParseClauses(first.rest))
  }

  lemma {:induction false} ClausesByFirst(toks: TokenList)
    ensures ParseClauses(toks) == ClausesAfter(ParseClause(toks), toks)
  {
    hide ParseClause, ClausePathsValid;
  }

  class CypherParser {
    const tokens: seq<Token>
    var index: nat

    ghost predicate Valid()
      reads this
    {
      index <= |tokens|
    }

    /** The tokens left. */
    ghost function Rest(): TokenList
      reads this
      requires Valid()
    {
      From(tokens, index)
    }

    /** The method did what the function did. */
    ghost predicate Did<T>(spec: ParseResult<T>, r: Result<T, SyntaxError>)
      reads this
    {
      Valid() && match spec
                 case Ok(p) => r == Ok(p.value) && Rest() == p.rest
                 case Err(e) => r == Err(e) && e.left <= |tokens|
    }

    constructor (tokens: seq<Token>)
      ensures this.tokens == tokens && index == 0
    {
      this.tokens, index := tokens, 0;
    }

    // ---- the cursor -------------------------------------------------------------------------------------------

    method Peek(s: Symbol) returns (r: bool)
      requires Valid()
      ensures r == At(Rest(), s)
    {
      r := index < |tokens| && tokens[index] == Sym(s);
    }

    method PeekWord(w: string) returns (r: bool)
      requires Valid()
      ensures r == AtWord(Rest(), w)
    {
      r := index < |tokens| && tokens[index].Keyword? && tokens[index].text == w;
    }

    method PeekIdentifier() returns (r: bool)
      requires Valid()
      ensures r == AtIdentifier(Rest())
    {
      r := index < |tokens| && tokens[index].Identifier?;
    }

    method PeekNumber() returns (r: bool)
      requires Valid()
      ensures r == AtNumber(Rest())
    {
      r := index < |tokens| && tokens[index].NumberToken?;
    }

    method Accept(s: Symbol) returns (r: bool)
      requires Valid()
      modifies this
      ensures Valid() && r == At(old(Rest()), s) && Rest() == if r then old(Rest()).tail else old(Rest())
      ensures index == old(index) + if r then 1 else 0
    {
      r := Peek(s);
      if r {
        index := index + 1;
      }
    }

    method AcceptWord(w: string) returns (r: bool)
      requires Valid()
      modifies this
      ensures Valid() && r == AtWord(old(Rest()), w) && Rest() == if r then old(Rest()).tail else old(Rest())
      ensures index == old(index) + if r then 1 else 0
    {
      r := PeekWord(w);
      if r {
        index := index + 1;
      }
    }

    method Advance() returns (t: Token)
      requires Valid() && index < |tokens|
      modifies this
      ensures Valid() && index == old(index) + 1 && t == old(Rest()).head && Rest() == old(Rest()).tail
    {
      t := tokens[index];
      index := index + 1;
    }

    method Complain<T>(complaint: Complaint) returns (r: Result<T, SyntaxError>)
      requires Valid()
      ensures r == Err(SyntaxError(complaint, Rest().Length()))
    {
      r := Err(SyntaxError(complaint, |tokens| - index));
    }

    method Expect(s: Symbol) returns (r: Result<(), SyntaxError>)
      requires Valid()
      modifies this
      ensures Valid()
      ensures match Parsing.Expect(s, old(Rest()))
              case Ok(rest) => r == Ok(()) && Rest() == rest
              case Err(e) => r == Err(e) && e.left <= |tokens|
    {
      var ok := Accept(s);
      if ok {
        return Ok(());
      }
      r := Complain(ExpectedSymbol(s));
    }

    method ExpectWord(w: string) returns (r: Result<(), SyntaxError>)
      requires Valid()
      modifies this
      ensures Valid()
      ensures match Parsing.ExpectWord(w, old(Rest()))
              case Ok(rest) => r == Ok(()) && Rest() == rest
              case Err(e) => r == Err(e) && e.left <= |tokens|
    {
      var ok := AcceptWord(w);
      if ok {
        return Ok(());
      }
      r := Complain(ExpectedKeyword(w));
    }

    method ExpectIdentifier() returns (r: Result<string, SyntaxError>)
      requires Valid()
      modifies this
      ensures Did(Parsing.ExpectIdentifier(old(Rest())), r)
    {
      var here := PeekIdentifier();
      if !here {
        r := Complain(ExpectedIdentifier);
        return;
      }
      var t := Advance();
      r := Ok(t.text);
    }

    method ExpectName() returns (r: Result<string, SyntaxError>)
      requires Valid()
      modifies this
      ensures Did(Parsing.ExpectName(old(Rest())), r)
    {
      if index < |tokens| && tokens[index].Keyword? {
        var t := Advance();
        return Ok(t.raw);
      }
      r := ExpectIdentifier();
    }

    method ReadNumber(negative: bool) returns (r: Result<Scalar, SyntaxError>)
      requires Valid()
      modifies this
      ensures Did(ReadNumberToken(negative, old(Rest())), r)
    {
      hide ReadDecimal, Negate;
      var here := PeekNumber();
      if !here {
        r := Complain(ExpectedNumber);
        return;
      }
      var n := ReadDecimal(tokens[index].text);
      if n.None? {
        r := Complain(NotANumber);
        return;
      }
      index := index + 1;
      r := Ok(Num(if negative then Negate(n.value) else n.value));
    }

    method ScalarLiteral() returns (r: Result<Scalar, SyntaxError>)
      requires Valid()
      modifies this
      ensures Did(ParseScalar(old(Rest())), r)
    {
      hide ReadNumberToken;
      var dash := Accept(Dash);
      if dash {
        r := ReadNumber(true);
        return;
      }
      if index < |tokens| && tokens[index].StringToken? {
        var t := Advance();
        return Ok(Str(t.text));
      }
      var number := PeekNumber();
      if number {
        r := ReadNumber(false);
        return;
      }
      var yes := PeekWord("TRUE");
      var no := PeekWord("FALSE");
      if yes || no {
        var t := Advance();
        return Ok(Bool(t.text == "TRUE"));
      }
      r := Complain(ExpectedLiteral);
    }

    // ---- expressions ------------------------------------------------------------------------------------------

    /** The operator of a level, if one is next. */
    method TryBinary(p: Prec) returns (op: Option<BinaryOp>)
      requires Valid()
      modifies this
      ensures Valid() && op == BinaryAt(p, old(Rest())) && Rest() == if op.Some? then old(Rest()).tail else old(Rest())
      ensures index == old(index) + if op.Some? then 1 else 0
    {
      op := BinaryAt(p, if index < |tokens| then Cons(tokens[index], Nil) else Nil);
      if op.Some? {
        index := index + 1;
      }
    }

    method TryComparison() returns (op: Option<ComparisonOp>)
      requires Valid()
      modifies this
      ensures Valid() && op == ComparisonAt(old(Rest())) && Rest() == if op.Some? then old(Rest()).tail else old(Rest())
      ensures index == old(index) + if op.Some? then 1 else 0
    {
      op := ComparisonAt(if index < |tokens| then Cons(tokens[index], Nil) else Nil);
      if op.Some? {
        index := index + 1;
      }
    }

    method Expression() returns (r: Result<Expr, SyntaxError>)
      requires Valid()
      modifies this
      ensures Did(ParseAt(OR, old(Rest())), r)
      decreases |tokens| - index, 31
    {
      r := Level(OR);
    }

    /** An expression of a level: a loop over its operators, or the form of its own the level has. */
    method Level(p: Prec) returns (r: Result<Expr, SyntaxError>)
      requires Valid()
      modifies this
      ensures Did(ParseAt(p, old(Rest())), r)
      decreases |tokens| - index, 30 - 3 * p
    {
      hide BinaryAt, ParseNot, ParsePredicate, ParseUnary, ParsePrimary, PostfixLoop, Loop;
      if p == NOT {
        r := NotLevel();
      } else if p == PREDICATE {
        r := Predicate();
      } else if p == UNARY {
        r := Unary();
      } else if p == POSTFIX {
        var primary :- Primary();
        r := Postfix(primary);
      } else {
        var left :- Level(p + 1);
        r := Operands(p, left);
      }
    }

    /** More operands of the level's operator, gathered to the left. */
    method Operands(p: Prec, first: Expr) returns (r: Result<Expr, SyntaxError>)
      requires Valid() && p < POSTFIX
      modifies this
      ensures Did(Loop(p, first, old(Rest())), r)
      decreases |tokens| - index, 30 - 3 * p
    {
      hide BinaryAt, ParseAt;
      var left := first;
      ghost var start, whole := index, Loop(p, first, Rest());
      while true
        invariant Valid() && index >= start && whole == Loop(p, left, Rest())
        decreases |tokens| - index
      {
        var op := TryBinary(p);
        if op.None? {
          return Ok(left);
        }
        var right :- Level(p + 1);
        left := op.value.Apply(left, right);
      }
    }

    method NotLevel() returns (r: Result<Expr, SyntaxError>)
      requires Valid()
      modifies this
      ensures Did(ParseNot(old(Rest())), r)
      decreases |tokens| - index, 20
    {
      hide ParseAt;
      var negated := AcceptWord("NOT");
      if negated {
        var operand :- Level(NOT);
        return Ok(Boolean(Not, [operand]));
      }
      r := Level(PREDICATE);
    }

    method Predicate() returns (r: Result<Expr, SyntaxError>)
      requires Valid()
      modifies this
      ensures Did(ParsePredicate(old(Rest())), r)
      decreases |tokens| - index, 17
    {
      hide ParseAt, PredicateTail;
      var left :- Level(ADDITIVE);
      r := AfterOperand(left);
    }

    method AfterOperand(left: Expr) returns (r: Result<Expr, SyntaxError>)
      requires Valid()
      modifies this
      ensures Did(PredicateTail(left, old(Rest())), r)
      decreases |tokens| - index, 17
    {
      hide ParseAt, ComparisonAt, ParseLiteralList;
      var cmp := TryComparison();
      if cmp.Some? {
        var right :- Level(ADDITIVE);
        return Ok(Comparison(left, cmp.value, right));
      }
      var isNull := AcceptWord("IS");
      if isNull {
        var negated := AcceptWord("NOT");
        var _ :- ExpectWord("NULL");
        return Ok(IsNull(left, negated));
      }
      var inList := AcceptWord("IN");
      if inList {
        var list :- LiteralList();
        return Ok(In(left, list));
      }
      r := Ok(left);
    }

    method LiteralList() returns (r: Result<seq<Expr>, SyntaxError>)
      requires Valid()
      modifies this
      ensures Did(ParseLiteralList(old(Rest())), r)
    {
      hide ParseLiterals;
      var _ :- Expect(LBracket);
      var items: seq<Expr> := [];
      var empty := Peek(RBracket);
      if !empty {
        items :- Literals();
      }
      var _ :- Expect(RBracket);
      r := Ok(items);
    }

    method Literals() returns (r: Result<seq<Expr>, SyntaxError>)
      requires Valid()
      modifies this
      ensures Did(ParseLiterals(old(Rest())), r)
    {
      hide ParseScalar;
      ghost var start, whole := index, ParseLiterals(Rest());
      var first :- ScalarLiteral();
      var items := [Literal(Some(first))];
      while true
        invariant Valid() && index > start && whole == ListTail(items, Rest(), ParseLiterals)
        decreases |tokens| - index
      {
        var more := Accept(Comma);
        if !more {
          return Ok(items);
        }
        var next :- ScalarLiteral();
        ListTailGrows(items, Literal(Some(next)), Rest(), ParseLiterals);
        items := items + [Literal(Some(next))];
      }
    }

    method Unary() returns (r: Result<Expr, SyntaxError>)
      requires Valid()
      modifies this
      ensures Did(ParseUnary(old(Rest())), r)
      decreases |tokens| - index, 8
    {
      hide ParseAt;
      var minus := Accept(Dash);
      if minus {
        var operand :- Level(UNARY);
        return Ok(UnaryMinus(operand));
      }
      r := Level(POSTFIX);
    }

    method Postfix(primary: Expr) returns (r: Result<Expr, SyntaxError>)
      requires Valid()
      modifies this
      ensures Did(PostfixLoop(primary, old(Rest())), r)
      decreases |tokens| - index, 5
    {
      hide ParseAt, Parsing.ExpectName;
      var e := primary;
      ghost var start, whole := index, PostfixLoop(primary, Rest());
      while true
        invariant Valid() && index >= start && whole == PostfixLoop(e, Rest())
        decreases |tokens| - index
      {
        var bracket := Accept(LBracket);
        if bracket {
          var at :- Expression();
          var _ :- Expect(RBracket);
          e := Index(e, at);
        } else {
          var dot := Accept(Dot);
          if !dot {
            return Ok(e);
          }
          var name :- ExpectName();
          e := Index(e, Literal(Some(Str(name))));
        }
      }
    }

    method Primary() returns (r: Result<Expr, SyntaxError>)
      requires Valid()
      modifies this
      ensures Did(ParsePrimary(old(Rest())), r)
      decreases |tokens| - index, 5
    {
      hide ParseAt, ParseExprs, ParseFields, ParseNamed, ParseScalar, Parsing.ExpectIdentifier;
      var dollar := Accept(Dollar);
      if dollar {
        var name :- ExpectIdentifier();
        return Ok(Parameter(name));
      }
      var paren := Accept(LParen);
      if paren {
        var inner :- Expression();
        var _ :- Expect(RParen);
        return Ok(inner);
      }
      var bracket := Accept(LBracket);
      if bracket {
        var items :- Items(RBracket);
        return Ok(ListLiteral(items));
      }
      var brace := Accept(LBrace);
      if brace {
        r := MapEntries();
        return;
      }
      var isNull := AcceptWord("NULL");
      if isNull {
        return Ok(Literal(None));
      }
      var identifier := PeekIdentifier();
      if identifier {
        var t := Advance();
        r := AfterName(t.text);
        return;
      }
      var v :- ScalarLiteral();
      r := Ok(Literal(Some(v)));
    }

    /** The expressions up to a closing symbol, of which there may be none. */
    method Items(close: Symbol) returns (r: Result<seq<Expr>, SyntaxError>)
      requires Valid()
      modifies this
      ensures Did(Closed(close, if At(old(Rest()), close) then Ok(Parsed([], old(Rest()))) else ParseExprs(old(Rest()))), r)
      decreases |tokens| - index, 33
    {
      hide ParseExprs;
      var items: seq<Expr> := [];
      var empty := Peek(close);
      if !empty {
        items :- Expressions();
      }
      var _ :- Expect(close);
      r := Ok(items);
    }

    method MapEntries() returns (r: Result<Expr, SyntaxError>)
      requires Valid()
      modifies this
      ensures Did(AsMap(Closed(RBrace, if At(old(Rest()), RBrace) then Ok(Parsed([], old(Rest()))) else ParseFields([], old(Rest())))), r)
      decreases |tokens| - index, 30
    {
      hide ParseFields;
      var fields: seq<Field> := [];
      var empty := Peek(RBrace);
      if !empty {
        fields :- Fields();
      }
      var _ :- Expect(RBrace);
      r := Ok(MapLiteral(fields));
    }

    method AfterName(name: string) returns (r: Result<Expr, SyntaxError>)
      requires Valid()
      modifies this
      ensures Did(ParseNamed(name, old(Rest())), r)
      decreases |tokens| - index, 5
    {
      hide ParseArguments, Parsing.ExpectName;
      var dot := Accept(Dot);
      if dot {
        var property :- ExpectName();
        return Ok(PropertyAccess(name, property));
      }
      var paren := Accept(LParen);
      if paren {
        r := Arguments(name);
        return;
      }
      r := Ok(VariableRef(name));
    }

    method Arguments(name: string) returns (r: Result<Expr, SyntaxError>)
      requires Valid()
      modifies this
      ensures Did(ParseArguments(name, old(Rest())), r)
      decreases |tokens| - index, 34
    {
      hide ParseExprs;
      var star := Accept(Star);
      if star {
        var _ :- Expect(RParen);
        return Ok(Call(name, [], false, true));
      }
      var distinct := AcceptWord("DISTINCT");
      var args :- Items(RParen);
      r := Ok(Call(name, args, distinct, false));
    }

    method Expressions() returns (r: Result<seq<Expr>, SyntaxError>)
      requires Valid()
      modifies this
      ensures Did(ParseExprs(old(Rest())), r)
      decreases |tokens| - index, 32
    {
      hide ParseAt;
      ghost var start, whole := index, ParseExprs(Rest());
      var first :- Level(OR);
      var items := [first];
      while true
        invariant Valid() && index > start && whole == ListTail(items, Rest(), ParseExprs)
        decreases |tokens| - index
      {
        var more := Accept(Comma);
        if !more {
          return Ok(items);
        }
        var next :- Level(OR);
        ListTailGrows(items, next, Rest(), ParseExprs);
        items := items + [next];
      }
    }

    method Fields() returns (r: Result<seq<Field>, SyntaxError>)
      requires Valid()
      modifies this
      ensures Did(ParseFields([], old(Rest())), r)
      decreases |tokens| - index, 29
    {
      hide ParseAt, Parsing.ExpectName, SetField;
      ghost var start, whole := index, ParseFields([], Rest());
      var fields: seq<Field> := [];
      while true
        invariant Valid() && index >= start && whole == ParseFields(fields, Rest())
        decreases |tokens| - index
      {
        var key :- ExpectName();
        var _ :- Expect(Colon);
        var e :- Expression();
        fields := SetField(fields, key, e);
        var more := Accept(Comma);
        if !more {
          return Ok(fields);
        }
      }
    }

    // ---- patterns ---------------------------------------------------------------------------------------------

    /** A map of scalars; a repeated key keeps its first place and its last value. */
    method PropMap() returns (r: Result<seq<Property>, SyntaxError>)
      requires Valid()
      modifies this
      ensures Did(ParsePropMap(old(Rest())), r)
    {
      hide ParseProperties;
      var _ :- Expect(LBrace);
      var properties: seq<Property> := [];
      var empty := Peek(RBrace);
      if !empty {
        properties :- Properties();
      }
      var _ :- Expect(RBrace);
      r := Ok(properties);
    }

    method Properties() returns (r: Result<seq<Property>, SyntaxError>)
      requires Valid()
      modifies this
      ensures Did(ParseProperties([], old(Rest())), r)
    {
      hide ParseScalar, Parsing.ExpectName, SetScalar;
      ghost var start, whole := index, ParseProperties([], Rest());
      var properties: seq<Property> := [];
      while true
        invariant Valid() && index >= start && whole == ParseProperties(properties, Rest())
        decreases |tokens| - index
      {
        ghost var here := index;
        var key :- ExpectName();
        var _ :- Expect(Colon);
        var v :- ScalarLiteral();
        properties := SetScalar(properties, key, v);
        var more := Accept(Comma);
        if !more {
          return Ok(properties);
        }
      }
    }

    method OptionalProps() returns (r: Result<seq<Property>, SyntaxError>)
      requires Valid()
      modifies this
      ensures Did(ParseOptionalProps(old(Rest())), r)
    {
      hide ParsePropMap;
      var here := Peek(LBrace);
      if here {
        r := PropMap();
      } else {
        r := Ok([]);
      }
    }

    method QualifiedLabel() returns (r: Result<string, SyntaxError>)
      requires Valid()
      modifies this
      ensures Did(ParseLabel(old(Rest())), r)
    {
      hide Parsing.ExpectName;
      var text :- ExpectName();
      ghost var start, whole := index, LabelLoop(text, Rest());
      while true
        invariant Valid() && index >= start && whole == LabelLoop(text, Rest())
        decreases |tokens| - index
      {
        var dot := Accept(Dot);
        if !dot {
          return Ok(text);
        }
        var next :- ExpectName();
        text := text + "." + next;
      }
    }

    method OptionalVariable() returns (variable: Option<string>)
      requires Valid()
      modifies this
      ensures Valid() && variable == ParseOptionalVariable(old(Rest())).value && Rest() == ParseOptionalVariable(old(Rest())).rest
    {
      var here := PeekIdentifier();
      if !here {
        return None;
      }
      var t := Advance();
      variable := Some(t.text);
    }

    method OptionalLabel() returns (r: Result<Option<string>, SyntaxError>)
      requires Valid()
      modifies this
      ensures Did(ParseOptionalLabel(old(Rest())), r)
    {
      hide ParseLabel;
      var colon := Accept(Colon);
      if !colon {
        return Ok(None);
      }
      var text :- QualifiedLabel();
      r := Ok(Some(text));
    }

    method Node() returns (r: Result<NodePattern, SyntaxError>)
      requires Valid()
      modifies this
      ensures Did(ParseNode(old(Rest())), r)
    {
      hide ParseOptionalVariable, ParseOptionalLabel, ParseOptionalProps;
      var _ :- Expect(LParen);
      var variable := OptionalVariable();
      var text :- OptionalLabel();
      var properties :- OptionalProps();
      var _ :- Expect(RParen);
      r := Ok(NodePattern(variable, text, properties));
    }

    method HopCount() returns (r: Result<nat, SyntaxError>)
      requires Valid()
      modifies this
      ensures Did(ParseHopCount(old(Rest())), r)
    {
      hide AllDigits, ValueOf;
      var here := PeekNumber();
      if !here {
        r := Complain(ExpectedNumber);
        return;
      }
      var t := Advance();
      if !AllDigits(t.text) {
        r := Complain(ExpectedHopCount);
        return;
      }
      r := Ok(ValueOf(t.text));
    }

    method OptionalCount() returns (r: Result<Option<nat>, SyntaxError>)
      requires Valid()
      modifies this
      ensures Did(ParseOptionalCount(old(Rest())), r)
    {
      hide ParseHopCount;
      var here := PeekNumber();
      if !here {
        return Ok(None);
      }
      var n :- HopCount();
      r := Ok(Some(n));
    }

    method ReadHops() returns (r: Result<Hops, SyntaxError>)
      requires Valid()
      modifies this
      ensures Did(ParseHops(old(Rest())), r)
    {
      hide ParseOptionalCount;
      var min :- OptionalCount();
      var max := min;
      var ranged := Accept(Dot);
      if ranged {
        var _ :- Expect(Dot);
        max :- OptionalCount();
      }
      r := Ok(Hops(Some(if min.Some? then min.value else 1), max));
    }

    method OptionalType() returns (r: Result<Option<string>, SyntaxError>)
      requires Valid()
      modifies this
      ensures Did(ParseOptionalType(old(Rest())), r)
    {
      hide Parsing.ExpectName;
      var colon := Accept(Colon);
      if !colon {
        return Ok(None);
      }
      var text :- ExpectName();
      r := Ok(Some(text));
    }

    method OptionalHops() returns (r: Result<Hops, SyntaxError>)
      requires Valid()
      modifies this
      ensures Did(ParseOptionalHops(old(Rest())), r)
    {
      hide ParseHops;
      var star := Accept(Star);
      if star {
        r := ReadHops();
      } else {
        r := Ok(Hops(None, None));
      }
    }

    method Detail() returns (r: Result<RelPattern, SyntaxError>)
      requires Valid()
      modifies this
      ensures Did(ParseDetail(old(Rest())), r)
    {
      hide ParseOptionalVariable, ParseOptionalType, ParseOptionalHops, ParseOptionalProps;
      var bracket := Accept(LBracket);
      if !bracket {
        return Ok(RelPattern(None, None, Undirected, [], None, None));
      }
      var variable := OptionalVariable();
      var relType :- OptionalType();
      var hops :- OptionalHops();
      var properties :- OptionalProps();
      var _ :- Expect(RBracket);
      r := Ok(RelPattern(variable, relType, Undirected, properties, hops.min, hops.max));
    }

    method Rel() returns (r: Result<RelPattern, SyntaxError>)
      requires Valid()
      modifies this
      ensures Did(ParseRel(old(Rest())), r)
    {
      hide ParseDetail;
      var incoming := Accept(ArrowLeft);
      if !incoming {
        var _ :- Expect(Dash);
      }
      var rel :- Detail();
      var outgoing := Accept(ArrowRight);
      if !outgoing {
        var _ :- Expect(Dash);
      }
      if incoming && outgoing {
        r := Complain(BothArrowheads);
        return;
      }
      var direction := if incoming then Incoming else if outgoing then Outgoing else Undirected;
      if !HopRangeOk(rel) {
        r := Complain(InvalidHopRange);
        return;
      }
      r := Ok(rel.(direction := direction));
    }

    /** A node and the relationships and nodes that follow it. */
    method Path() returns (r: Result<PatternPath, SyntaxError>)
      requires Valid()
      modifies this
      ensures Did(ParsePath(old(Rest())), r)
    {
      hide ParseNode, ParseSteps;
      var pathVariable: Option<string> := None;
      assert index < |tokens| ==> Rest().tail == From(tokens, index + 1);
      if index + 1 < |tokens| && tokens[index].Identifier? && tokens[index + 1] == Sym(EqSign) {
        pathVariable := Some(tokens[index].text);
        index := index + 2;
      }
      var first :- Node();
      var steps :- Steps();
      r := Ok(PatternPath([first] + steps.1, steps.0, pathVariable));
    }

    /** The relationships and the nodes after the first. */
    method Steps() returns (r: Result<(seq<RelPattern>, seq<NodePattern>), SyntaxError>)
      requires Valid()
      modifies this
      ensures Did(InTwo(ParseSteps(old(Rest()))), r)
    {
      hide ParseNode, ParseRel;
      ghost var start, whole, steps: seq<Step> := index, ParseSteps(Rest()), [];
      var rels, nodes := [], [];
      NothingPrepended(whole);
      while true
        invariant Valid() && index >= start && whole == Prepended(steps, ParseSteps(Rest()))
        invariant rels == RelsOf(steps) && nodes == NodesOf(steps)
        decreases |tokens| - index
      {
        var dash, arrow := PeekEither(Dash, ArrowLeft);
        if !dash && !arrow {
          assert steps + [] == steps;
          return Ok((rels, nodes));
        }
        var rel :- Rel();
        var node :- Node();
        PrependedTwice(steps, Step(rel, node), ParseSteps(Rest()));
        OneMoreStep(steps, Step(rel, node));
        rels, nodes, steps := rels + [rel], nodes + [node], steps + [Step(rel, node)];
      }
    }

    method PeekEither(s: Symbol, t: Symbol) returns (first: bool, second: bool)
      requires Valid()
      ensures first == At(Rest(), s) && second == At(Rest(), t)
    {
      first := Peek(s);
      second := Peek(t);
    }

    method WritePath() returns (r: Result<PatternPath, SyntaxError>)
      requires Valid()
      modifies this
      ensures Did(ParseWritePath(old(Rest())), r)
    {
      hide ParsePath;
      var path :- Path();
      for i := 0 to |path.rels|
        invariant forall j :: 0 <= j < i ==> path.rels[j].properties == []
      {
        if path.rels[i].properties != [] {
          r := Complain(RelPropsNotAllowed);
          return;
        }
      }
      r := Ok(path);
    }

    /** The path of a writing clause, or of a reading one. */
    method PathFor(write: bool) returns (r: Result<PatternPath, SyntaxError>)
      requires Valid()
      modifies this
      ensures Did(if write then ParseWritePath(old(Rest())) else ParsePath(old(Rest())), r)
    {
      hide ParsePath, ParseWritePath;
      if write {
        r := WritePath();
      } else {
        r := Path();
      }
    }

    method Paths(write: bool) returns (r: Result<seq<PatternPath>, SyntaxError>)
      requires Valid()
      modifies this
      ensures Did(ParsePaths(write, old(Rest())), r)
    {
      hide ParsePath, ParseWritePath;
      ghost var start, whole, parse := index, ParsePaths(write, Rest()), toks => ParsePaths(write, toks);
      var first :- PathFor(write);
      var paths := [first];
      while true
        invariant Valid() && index > start && whole == ListTail(paths, Rest(), parse)
        decreases |tokens| - index
      {
        var more := Accept(Comma);
        if !more {
          return Ok(paths);
        }
        var next :- PathFor(write);
        ListTailGrows(paths, next, Rest(), parse);
        paths := paths + [next];
      }
    }

    // ---- clauses ----------------------------------------------------------------------------------------------

    method Optional(word: string) returns (r: Result<Option<Expr>, SyntaxError>)
      requires Valid()
      modifies this
      ensures Did(ParseOptional(word, old(Rest())), r)
    {
      hide ParseAt;
      var here := AcceptWord(word);
      if !here {
        return Ok(None);
      }
      var e :- Expression();
      r := Ok(Some(e));
    }

    method MatchClause() returns (r: Result<Clause, SyntaxError>)
      requires Valid()
      modifies this
      ensures Did(ParseMatch(old(Rest())), r)
    {
      hide ParsePaths, ParseOptional;
      var optional := AcceptWord("OPTIONAL");
      var _ :- ExpectWord("MATCH");
      var paths :- Paths(false);
      var where :- Optional("WHERE");
      r := Ok(Match(paths, where, optional));
    }

    method UnwindClause() returns (r: Result<Clause, SyntaxError>)
      requires Valid()
      modifies this
      ensures Did(ParseUnwind(old(Rest())), r)
    {
      hide ParseAt;
      var _ :- ExpectWord("UNWIND");
      var e :- Expression();
      var _ :- ExpectWord("AS");
      var variable :- ExpectIdentifier();
      r := Ok(Unwind(e, variable));
    }

    method OneSetItem() returns (r: Result<SetItem, SyntaxError>)
      requires Valid()
      modifies this
      ensures Did(ParseSetItem(old(Rest())), r)
    {
      hide ParseAt, Parsing.ExpectName;
      var variable :- ExpectIdentifier();
      var merges := Accept(PlusEq);
      if merges {
        var e :- Expression();
        return Ok(SetItem(variable, None, e, MergeMap));
      }
      var equals := Accept(EqSign);
      if equals {
        var e :- Expression();
        return Ok(SetItem(variable, None, e, Replace));
      }
      var _ :- Expect(Dot);
      var property :- ExpectName();
      var _ :- Expect(EqSign);
      var e :- Expression();
      r := Ok(SetItem(variable, Some(property), e, SetProperty));
    }

    method SetItems() returns (r: Result<seq<SetItem>, SyntaxError>)
      requires Valid()
      modifies this
      ensures Did(ParseSetItems(old(Rest())), r)
    {
      hide ParseSetItem;
      ghost var start, whole := index, ParseSetItems(Rest());
      var first :- OneSetItem();
      var items := [first];
      while true
        invariant Valid() && index > start && whole == ListTail(items, Rest(), ParseSetItems)
        decreases |tokens| - index
      {
        var more := Accept(Comma);
        if !more {
          return Ok(items);
        }
        var next :- OneSetItem();
        ListTailGrows(items, next, Rest(), ParseSetItems);
        items := items + [next];
      }
    }

    method SetWords() returns (r: Result<seq<SetItem>, SyntaxError>)
      requires Valid()
      modifies this
      ensures Did(ParseSetWords(old(Rest())), r)
    {
      hide ParseSetItems;
      var _ :- ExpectWord("SET");
      r := SetItems();
    }

    method PeekOn() returns (r: bool)
      requires Valid()
      ensures r == AtOn(Rest())
    {
      var here := PeekIdentifier();
      r := here && UpperAll(tokens[index].text) == "ON";
    }

    /** ON CREATE and ON MATCH actions, gathered under the one or the other. */
    method Ons() returns (r: Result<OnActions, SyntaxError>)
      requires Valid()
      modifies this
      ensures Did(ParseOns(OnActions([], []), old(Rest())), r)
    {
      hide ParseSetWords, AtOn;
      ghost var start, whole := index, ParseOns(OnActions([], []), Rest());
      var onCreate: seq<SetItem>, onMatch: seq<SetItem> := [], [];
      while true
        invariant Valid() && index >= start && whole == ParseOns(OnActions(onCreate, onMatch), Rest())
        decreases |tokens| - index
      {
        var on := PeekOn();
        if !on {
          return Ok(OnActions(onCreate, onMatch));
        }
        assert index < |tokens| by { AtOnHasToken(Rest()); }
        index := index + 1;
        var create := AcceptWord("CREATE");
        if !create {
          var matches := AcceptWord("MATCH");
          if !matches {
            r := Complain(OnNeedsCreateOrMatch);
            return;
          }
        }
        var items :- SetWords();
        if create {
          onCreate := onCreate + items;
        } else {
          onMatch := onMatch + items;
        }
      }
    }

    method MergeClause() returns (r: Result<Clause, SyntaxError>)
      requires Valid()
      modifies this
      ensures Did(ParseMerge(old(Rest())), r)
    {
      hide ParseWritePath, ParseOns;
      var _ :- ExpectWord("MERGE");
      var path :- WritePath();
      var actions :- Ons();
      r := Ok(Merge(path, actions.onCreate, actions.onMatch));
    }

    method DeleteClause() returns (r: Result<Clause, SyntaxError>)
      requires Valid()
      modifies this
      ensures Did(ParseDelete(old(Rest())), r)
    {
      hide ParseExprs;
      var detach := AcceptWord("DETACH");
      var _ :- ExpectWord("DELETE");
      var targets :- Expressions();
      r := Ok(Delete(targets, detach));
    }

    method RemoveItem() returns (r: Result<PropertyRef, SyntaxError>)
      requires Valid()
      modifies this
      ensures Did(OneRef(old(Rest())), r)
    {
      hide Parsing.ExpectName, Parsing.ExpectIdentifier;
      var variable :- ExpectIdentifier();
      var _ :- Expect(Dot);
      var property :- ExpectName();
      r := Ok(PropertyRef(variable, property));
    }

    method Refs() returns (r: Result<seq<PropertyRef>, SyntaxError>)
      requires Valid()
      modifies this
      ensures Did(ParseRefs(old(Rest())), r)
    {
      hide Parsing.ExpectName, Parsing.ExpectIdentifier;
      ghost var start, whole := index, ParseRefs(Rest());
      var first :- RemoveItem();
      var items := [first];
      while true
        invariant Valid() && index > start && whole == ListTail(items, Rest(), ParseRefs)
        decreases |tokens| - index
      {
        var more := Accept(Comma);
        if !more {
          return Ok(items);
        }
        var next :- RemoveItem();
        ListTailGrows(items, next, Rest(), ParseRefs);
        items := items + [next];
      }
    }

    method CreateClause() returns (r: Result<Clause, SyntaxError>)
      requires Valid()
      modifies this
      ensures Did(ParseCreate(old(Rest())), r)
    {
      hide ParsePaths;
      var _ :- ExpectWord("CREATE");
      var paths :- Paths(true);
      r := Ok(Create(paths));
    }

    method SetClause() returns (r: Result<Clause, SyntaxError>)
      requires Valid()
      modifies this
      ensures Did(ParseSet(old(Rest())), r)
    {
      hide ParseSetWords;
      var items :- SetWords();
      r := Ok(Clause.SetClause(items));
    }

    method RemoveClause() returns (r: Result<Clause, SyntaxError>)
      requires Valid()
      modifies this
      ensures Did(ParseRemove(old(Rest())), r)
    {
      hide ParseRefs;
      var _ :- ExpectWord("REMOVE");
      var refs :- Refs();
      r := Ok(Remove(refs));
    }

    /** The clause the next word announces; nothing when it announces none. */
    method OneClause() returns (r: Option<Result<Clause, SyntaxError>>)
      requires Valid()
      modifies this
      ensures Valid() && match ParseClause(old(Rest()))
                         case None => r == None && Rest() == old(Rest())
                         case Some(parsed) => r.Some? && Did(parsed, r.value)
    {
      hide ParseMatch, ParseUnwind, ParseCreate, ParseMerge, ParseSet, ParseDelete, ParseRemove;
      var word := if index < |tokens| && tokens[index].Keyword? then tokens[index].text else "";
      if word == "MATCH" || word == "OPTIONAL" {
        var c := MatchClause();
        r := Some(c);
      } else if word == "UNWIND" {
        var c := UnwindClause();
        r := Some(c);
      } else if word == "CREATE" {
        var c := CreateClause();
        r := Some(c);
      } else if word == "MERGE" {
        var c := MergeClause();
        r := Some(c);
      } else if word == "SET" {
        var c := SetClause();
        r := Some(c);
      } else if word == "DELETE" || word == "DETACH" {
        var c := DeleteClause();
        r := Some(c);
      } else if word == "REMOVE" {
        var c := RemoveClause();
        r := Some(c);
      } else {
        r := None;
      }
    }

    method ReadingClauses() returns (r: Result<seq<Clause>, SyntaxError>)
      requires Valid()
      modifies this
      ensures Did(ParseClauses(old(Rest())), r)
    {
      hide ParseClause, ParseClauses, ClausePathsValid, From;
      ghost var start, whole := index, ParseClauses(Rest());
      var clauses: seq<Clause> := [];
      NothingPrepended(whole);
      while true
        invariant Valid() && index >= start && whole == Prepended(clauses, ParseClauses(Rest()))
        decreases |tokens| - index
      {
        ClausesByFirst(Rest());
        var next := OneClause();
        if next.None? {
          assert clauses + [] == clauses;
          return Ok(clauses);
        }
        var clause :- next.value;
        PrependedTwice(clauses, clause, ParseClauses(Rest()));
        clauses := clauses + [clause];
      }
    }

    // ---- projections and parts --------------------------------------------------------------------------------

    method OneReturnItem() returns (r: Result<ReturnItem, SyntaxError>)
      requires Valid()
      modifies this
      ensures Did(ParseReturnItem(old(Rest())), r)
    {
      hide ParseAt;
      var e :- Expression();
      var named := AcceptWord("AS");
      if !named {
        return Ok(ReturnItem(e, None));
      }
      var alias :- ExpectIdentifier();
      r := Ok(ReturnItem(e, Some(alias)));
    }

    method ReturnItems() returns (r: Result<seq<ReturnItem>, SyntaxError>)
      requires Valid()
      modifies this
      ensures Did(ParseReturnItems(old(Rest())), r)
    {
      hide ParseReturnItem;
      ghost var start, whole := index, ParseReturnItems(Rest());
      var first :- OneReturnItem();
      var items := [first];
      while true
        invariant Valid() && index > start && whole == ListTail(items, Rest(), ParseReturnItems)
        decreases |tokens| - index
      {
        var more := Accept(Comma);
        if !more {
          return Ok(items);
        }
        var next :- OneReturnItem();
        ListTailGrows(items, next, Rest(), ParseReturnItems);
        items := items + [next];
      }
    }

    method OneSort() returns (r: Result<SortItem, SyntaxError>)
      requires Valid()
      modifies this
      ensures Did(ParseSort(old(Rest())), r)
    {
      hide ParseAt;
      var e :- Expression();
      var descending := AcceptWord("DESC");
      if !descending {
        var _ := AcceptWord("ASC");
      }
      r := Ok(SortItem(e, descending));
    }

    method Sorts() returns (r: Result<seq<SortItem>, SyntaxError>)
      requires Valid()
      modifies this
      ensures Did(ParseSorts(old(Rest())), r)
    {
      hide ParseSort;
      ghost var start, whole := index, ParseSorts(Rest());
      var first :- OneSort();
      var keys := [first];
      while true
        invariant Valid() && index > start && whole == ListTail(keys, Rest(), ParseSorts)
        decreases |tokens| - index
      {
        var more := Accept(Comma);
        if !more {
          return Ok(keys);
        }
        var next :- OneSort();
        ListTailGrows(keys, next, Rest(), ParseSorts);
        keys := keys + [next];
      }
    }

    method OrderBy() returns (r: Result<Option<seq<SortItem>>, SyntaxError>)
      requires Valid()
      modifies this
      ensures Did(ParseOrder(old(Rest())), r)
    {
      hide ParseSorts;
      var here := AcceptWord("ORDER");
      if !here {
        return Ok(None);
      }
      var _ :- ExpectWord("BY");
      var keys :- Sorts();
      r := Ok(Some(keys));
    }

    method ProjectionWhere(isReturn: bool) returns (r: Result<Option<Expr>, SyntaxError>)
      requires Valid()
      modifies this
      ensures Did(ParseProjectionWhere(isReturn, old(Rest())), r)
    {
      hide ParseOptional;
      var here := PeekWord("WHERE");
      if here && isReturn {
        r := Complain(ReturnWhereNotAllowed);
        return;
      }
      r := Optional("WHERE");
    }

    method OneProjection() returns (r: Result<Projection, SyntaxError>)
      requires Valid()
      modifies this
      ensures Did(ParseProjection(old(Rest())), r)
    {
      hide ParseReturnItems, ParseProjectionWhere, ParseOrder, ParseOptional;
      var isReturn := AcceptWord("RETURN");
      if !isReturn {
        var isWith := AcceptWord("WITH");
        if !isWith {
          r := Complain(ExpectedProjection);
          return;
        }
      }
      var distinct := AcceptWord("DISTINCT");
      var items :- ReturnItems();
      var where :- ProjectionWhere(isReturn);
      var orderBy :- OrderBy();
      var skip :- Optional("SKIP");
      var limit :- Optional("LIMIT");
      var late := PeekWord("WHERE");
      if late {
        r := Complain(if isReturn then ReturnWhereNotAllowed else MisplacedWithWhere);
        return;
      }
      r := Ok(Projection(items, distinct, orderBy, skip, limit, isReturn, where));
    }

    method PeekProjection() returns (r: bool)
      requires Valid()
      ensures r == AtProjection(Rest())
    {
      var return_ := PeekWord("RETURN");
      var with_ := PeekWord("WITH");
      r := return_ || with_;
    }

    /** The parts of a query, up to its RETURN or to a part that writes and returns nothing. */
    method Parts() returns (r: Result<seq<QueryPart>, SyntaxError>)
      requires Valid()
      modifies this
      ensures Did(ParseParts(old(Rest())), r)
    {
      hide ParseClauses, ParseProjection, AtProjection;
      ghost var start, whole := index, ParseParts(Rest());
      var parts: seq<QueryPart> := [];
      NothingPrepended(whole);
      while true
        invariant Valid() && index >= start && whole == Prepended(parts, ParseParts(Rest()))
        decreases |tokens| - index
      {
        var reading :- ReadingClauses();
        var projects := PeekProjection();
        if reading != [] && reading[|reading| - 1].IsWriting() && !projects {
          return Ok(parts + [QueryPart(reading, None)]);
        }
        var projection :- OneProjection();
        var part := QueryPart(reading, Some(projection));
        if projection.isReturn {
          return Ok(parts + [part]);
        }
        PrependedTwice(parts, part, ParseParts(Rest()));
        parts := parts + [part];
      }
    }
  }

  lemma AtOnHasToken(toks: TokenList)
    requires AtOn(toks)
    ensures toks.Length() > 0
  {
  }

  function InTwo(steps: ParseResult<seq<Step>>): ParseResult<(seq<RelPattern>, seq<NodePattern>)> {
    var p :- steps;
    Ok(Parsed((RelsOf(p.value), NodesOf(p.value)), p.rest))
  }

  /** One variable and property, as REMOVE names it. */
  function OneRef(toks: TokenList): ParseResult<PropertyRef> {
    var variable :- Parsing.ExpectIdentifier(toks);
    var dot :- Parsing.Expect(Dot, variable.rest);
    var property :- Parsing.ExpectName(dot);
    Ok(Parsed(PropertyRef(variable.value, property.value), property.rest))
  }

  /** The query a whole list of tokens spells. */
  method ParseQuery(tokens: seq<Token>) returns (r: Result<QueryModel, SyntaxError>)
    ensures r == Parse(From(tokens, 0)) && (r.Err? ==> r.error.left <= |tokens|)
  {
    hide ParseParts;
    var parser := new CypherParser(tokens);
    var parts :- parser.Parts();
    if parser.index < |tokens| {
      r := parser.Complain(ExpectedEnd);
      return;
    }
    r := Ok(QueryModel(parts));
  }

  /** What was read, and the closing symbol after it. */
  function Closed<T>(close: Symbol, inner: ParseResult<T>): ParseResult<T> {
    var p :- inner;
    var rest :- Parsing.Expect(close, p.rest);
    Ok(Parsed(p.value, rest))
  }

  function AsMap(fields: ParseResult<seq<Field>>): ParseResult<Expr> {
    var p :- fields;
    Ok(Parsed(MapLiteral(p.value), p.rest))
  }

  // ---- from the text ------------------------------------------------------------------------------------------

  /** A complaint is placed at the token the parser had come to. */
  datatype ReadFailure = LexFailed(failure: Failure) | ParseFailed(complaint: Complaint, line: nat, column: nat)

  /** Tokens with positions: all are tokens but the last, which is the end of the file. */
  predicate EndsWithEof(placed: seq<Placed>) {
    && placed != [] && placed[|placed| - 1].token.None?
    && forall i :: 0 <= i < |placed| - 1 ==> placed[i].token.Some?
  }

  lemma {:induction false} PlacedEndsWithEof(s: string, i: nat)
    requires i <= |s| && PlacedFrom(s, i).Ok?
    ensures EndsWithEof(PlacedFrom(s, i).value)
    decreases |s| - i
  {
    hide Next, SkipSpace, LineAt, ColumnAt;
    var start := StartOf(s, SkipSpace(s[i..]));
    if start < |s| {
      PlacedEndsWithEof(s, StartOf(s, Next(s[start..]).value.rest));
    }
  }

  lemma {:induction false} BareIsFrom(placed: seq<Placed>, tokens: seq<Token>, k: nat)
    requires EndsWithEof(placed) && |tokens| == |placed| - 1 && k <= |tokens|
    requires forall i :: 0 <= i < |tokens| ==> tokens[i] == placed[i].token.value
    ensures Bare(placed[k..]) == From(tokens, k)
    decreases |tokens| - k
  {
    if k < |tokens| {
      BareIsFrom(placed, tokens, k + 1);
      assert placed[k..][1..] == placed[k + 1..];
    }
  }

  function Misread(e: SyntaxError, at: Placed): ReadFailure {
    ParseFailed(e.complaint, at.line, at.column)
  }

  /** Lexing and parsing are reading: a query, or the fault where the lexer found it, or the parser's complaint at its token. */
  method Read(text: string) returns (r: Result<QueryModel, ReadFailure>)
    ensures match ReadQuery(text)
            case Ok(model) => r == Ok(model)
            case Err(LexFault(e)) => e.left <= |text| && r == Err(LexFailed(Failure(e.fault, LineAt(text, |text| - e.left), ColumnAt(text, |text| - e.left))))
            case Err(SyntaxFault(e)) =>
              && PlacedFrom(text, 0).Ok? && e.left < |PlacedFrom(text, 0).value|
              && r == Err(Misread(e, PlacedFrom(text, 0).value[|PlacedFrom(text, 0).value| - 1 - e.left]))
  {
    hide Parse, Lex, PlacedFrom, LineAt, ColumnAt;
    var lexer := new CypherLexer(text);
    var lexed := lexer.Tokenize();
    assert text[0..] == text;
    PlacedAreLexed(text, 0);
    if lexed.Err? {
      return Err(LexFailed(lexed.error));
    }
    var placed := lexed.value;
    PlacedEndsWithEof(text, 0);
    var tokens := seq(|placed| - 1, i requires 0 <= i < |placed| - 1 => placed[i].token.value);
    assert placed[0..] == placed;
    BareIsFrom(placed, tokens, 0);
    var parsed := ParseQuery(tokens);
    if parsed.Err? {
      return Err(Misread(parsed.error, placed[|placed| - 1 - parsed.error.left]));
    }
    r := Ok(parsed.value);
  }
}
