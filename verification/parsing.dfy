/**
 Recursive descent over the tokens still to be read. Every function gives what it read and the tokens that are left, or
 the error and how many tokens were left when it was raised.
 */
module Parsing {
  import opened Wrappers
  import opened NumberText
  import Numbers
  import opened Values
  import opened Query
  import opened Tokens
  import opened Unparsing

  datatype Complaint =
    | ExpectedSymbol(symbol: Symbol)
    | ExpectedIdentifier
    | ExpectedKeyword(word: string)
    | ExpectedLiteral
    | ExpectedHopCount
    | ExpectedNumber
    | ExpectedEnd
    | ExpectedProjection
    | NotANumber
    | BothArrowheads
    | InvalidHopRange
    | RelPropsNotAllowed
    | OnNeedsCreateOrMatch
    | ReturnWhereNotAllowed
    | MisplacedWithWhere

  datatype SyntaxError = SyntaxError(complaint: Complaint, left: nat)

  datatype Parsed<+T> = Parsed(value: T, rest: TokenList)

  type ParseResult<+T> = Result<Parsed<T>, SyntaxError>

  // ---- single tokens ------------------------------------------------------------------------------------------

  predicate At(toks: TokenList, s: Symbol) {
    toks.Cons? && toks.head == Sym(s)
  }

  predicate AtWord(toks: TokenList, w: string) {
    toks.Cons? && toks.head.Keyword? && toks.head.text == w
  }

  predicate AtIdentifier(toks: TokenList) {
    toks.Cons? && toks.head.Identifier?
  }

  predicate AtNumber(toks: TokenList) {
    toks.Cons? && toks.head.NumberToken?
  }

  function Fail<T>(complaint: Complaint, toks: TokenList): ParseResult<T> {
    Err(SyntaxError(complaint, toks.Length()))
  }

  function Expect(s: Symbol, toks: TokenList): (r: Result<TokenList, SyntaxError>)
    ensures r.Ok? ==> r.value.Length() < toks.Length()
  {
    if At(toks, s) then Ok(toks.tail) else Err(SyntaxError(ExpectedSymbol(s), toks.Length()))
  }

  function ExpectWord(w: string, toks: TokenList): (r: Result<TokenList, SyntaxError>)
    ensures r.Ok? ==> r.value.Length() < toks.Length()
  {
    if AtWord(toks, w) then Ok(toks.tail) else Err(SyntaxError(ExpectedKeyword(w), toks.Length()))
  }

  function ExpectIdentifier(toks: TokenList): (r: ParseResult<string>)
    ensures r.Ok? ==> r.value.rest.Length() < toks.Length()
  {
    if AtIdentifier(toks) then Ok(Parsed(toks.head.text, toks.tail)) else Fail(ExpectedIdentifier, toks)
  }

  /** A position where a keyword spelling is just a name. */
  function ExpectName(toks: TokenList): (r: ParseResult<string>)
    ensures r.Ok? ==> r.value.rest.Length() < toks.Length()
  {
    if toks.Cons? && toks.head.Keyword? then Ok(Parsed(toks.head.raw, toks.tail)) else ExpectIdentifier(toks)
  }

  function ReadNumberToken(negative: bool, toks: TokenList): (r: ParseResult<Scalar>)
    ensures r.Ok? ==> r.value.rest.Length() < toks.Length()
  {
    if !AtNumber(toks) then Fail(ExpectedNumber, toks)
    else
      match ReadDecimal(toks.head.text)
      case None => Fail(NotANumber, toks)
      case Some(n) => Ok(Parsed(Num(if negative then Negate(n) else n), toks.tail))
  }

  function ParseScalar(toks: TokenList): (r: ParseResult<Scalar>)
    ensures r.Ok? ==> r.value.rest.Length() < toks.Length()
  {
    if At(toks, Dash) then ReadNumberToken(true, toks.tail)
    else if toks.Cons? && toks.head.StringToken? then Ok(Parsed(Str(toks.head.text), toks.tail))
    else if AtNumber(toks) then ReadNumberToken(false, toks)
    else if AtWord(toks, "TRUE") || AtWord(toks, "FALSE") then Ok(Parsed(Bool(toks.head.text == "TRUE"), toks.tail))
    else Fail(ExpectedLiteral, toks)
  }

  // ---- expressions --------------------------------------------------------------------------------------------

  datatype BinaryOp = Logical(bop: BooleanOp) | Numeric(aop: ArithmeticOp) {
    function Apply(left: Expr, right: Expr): Expr {
      match this
      case Logical(op) => Boolean(op, [left, right])
      case Numeric(op) => Arithmetic(left, op, right)
    }
  }

  /** The left-associative operator of this level at the head of the tokens. */
  function BinaryAt(p: Prec, toks: TokenList): Option<BinaryOp> {
    if toks.Nil? then None
    else if p == OR then (if AtWord(toks, "OR") then Some(Logical(Or)) else None)
    else if p == AND then (if AtWord(toks, "AND") then Some(Logical(And)) else None)
    else if p == ADDITIVE then
      (if At(toks, Plus) then Some(Numeric(Add)) else if At(toks, Dash) then Some(Numeric(Sub)) else None)
    else if p == MULTIPLICATIVE then
      (if At(toks, Star) then Some(Numeric(Mul)) else if At(toks, Slash) then Some(Numeric(Div))
       else if At(toks, Percent) then Some(Numeric(Mod)) else None)
    else None
  }

  function ComparisonAt(toks: TokenList): Option<ComparisonOp> {
    if At(toks, EqSign) then Some(Eq)
    else if At(toks, NeqSign) then Some(Neq)
    else if At(toks, LtSign) then Some(Lt)
    else if At(toks, LteSign) then Some(Lte)
    else if At(toks, GtSign) then Some(Gt)
    else if At(toks, GteSign) then Some(Gte)
    else None
  }

  /** An expression whose top-level form binds at least as tightly as `p`. */
  function ParseAt(p: Prec, toks: TokenList): (r: ParseResult<Expr>)
    ensures r.Ok? ==> r.value.rest.Length() < toks.Length()
    decreases toks.Length(), 30 - 3 * p
  {
    if p == NOT then ParseNot(toks)
    else if p == PREDICATE then ParsePredicate(toks)
    else if p == UNARY then ParseUnary(toks)
    else if p == POSTFIX then
      var primary :- ParsePrimary(toks);
      PostfixLoop(primary.value, primary.rest)
    else
      var left :- ParseAt(p + 1, toks);
      Loop(p, left.value, left.rest)
  }

  /** More operands of the level's operator, gathered to the left. */
  function Loop(p: Prec, left: Expr, toks: TokenList): (r: ParseResult<Expr>)
    requires p < POSTFIX
    ensures r.Ok? ==> r.value.rest.Length() <= toks.Length()
    decreases toks.Length(), 30 - 3 * p
  {
    match BinaryAt(p, toks)
    case None => Ok(Parsed(left, toks))
    case Some(op) =>
      var right :- ParseAt(p + 1, toks.tail);
      Loop(p, op.Apply(left, right.value), right.rest)
  }

  function ParseNot(toks: TokenList): (r: ParseResult<Expr>)
    ensures r.Ok? ==> r.value.rest.Length() < toks.Length()
    decreases toks.Length(), 20
  {
    if AtWord(toks, "NOT") then
      var operand :- ParseAt(NOT, toks.tail);
      Ok(Parsed(Boolean(Not, [operand.value]), operand.rest))
    else ParseAt(PREDICATE, toks)
  }

  function ParsePredicate(toks: TokenList): (r: ParseResult<Expr>)
    ensures r.Ok? ==> r.value.rest.Length() < toks.Length()
    decreases toks.Length(), 17
  {
    var left :- ParseAt(ADDITIVE, toks);
    PredicateTail(left.value, left.rest)
  }

  /** What may follow the first operand of a predicate. */
  function PredicateTail(left: Expr, toks: TokenList): (r: ParseResult<Expr>)
    ensures r.Ok? ==> r.value.rest.Length() <= toks.Length()
    decreases toks.Length(), 17
  {
    var cmp := ComparisonAt(toks);
    if cmp.Some? then
      var right :- ParseAt(ADDITIVE, toks.tail);
      Ok(Parsed(Comparison(left, cmp.value, right.value), right.rest))
    else if AtWord(toks, "IS") then
      var negated := AtWord(toks.tail, "NOT");
      var rest :- ExpectWord("NULL", if negated then toks.tail.tail else toks.tail);
      Ok(Parsed(IsNull(left, negated), rest))
    else if AtWord(toks, "IN") then
      var list :- ParseLiteralList(toks.tail);
      Ok(Parsed(In(left, list.value), list.rest))
    else Ok(Parsed(left, toks))
  }

  function ParseLiteralList(toks: TokenList): (r: ParseResult<seq<Expr>>)
    ensures r.Ok? ==> r.value.rest.Length() < toks.Length()
  {
    var open :- Expect(LBracket, toks);
    var items :- if At(open, RBracket) then Ok(Parsed([], open)) else ParseLiterals(open);
    var rest :- Expect(RBracket, items.rest);
    Ok(Parsed(items.value, rest))
  }

  function ParseLiterals(toks: TokenList): (r: ParseResult<seq<Expr>>)
    ensures r.Ok? ==> r.value.rest.Length() < toks.Length()
    decreases toks.Length()
  {
    var first :- ParseScalar(toks);
    if !At(first.rest, Comma) then Ok(Parsed([Literal(Some(first.value))], first.rest))
    else
      var more :- ParseLiterals(first.rest.tail);
      Ok(Parsed([Literal(Some(first.value))] + more.value, more.rest))
  }

  function ParseUnary(toks: TokenList): (r: ParseResult<Expr>)
    ensures r.Ok? ==> r.value.rest.Length() < toks.Length()
    decreases toks.Length(), 8
  {
    if At(toks, Dash) then
      var operand :- ParseAt(UNARY, toks.tail);
      Ok(Parsed(UnaryMinus(operand.value), operand.rest))
    else ParseAt(POSTFIX, toks)
  }

  function PostfixLoop(e: Expr, toks: TokenList): (r: ParseResult<Expr>)
    ensures r.Ok? ==> r.value.rest.Length() <= toks.Length()
    decreases toks.Length(), 5
  {
    if At(toks, LBracket) then
      var index :- ParseAt(OR, toks.tail);
      var rest :- Expect(RBracket, index.rest);
      PostfixLoop(Index(e, index.value), rest)
    else if At(toks, Dot) then
      var name :- ExpectName(toks.tail);
      PostfixLoop(Index(e, Literal(Some(Str(name.value)))), name.rest)
    else Ok(Parsed(e, toks))
  }

  function ParsePrimary(toks: TokenList): (r: ParseResult<Expr>)
    ensures r.Ok? ==> r.value.rest.Length() < toks.Length()
    decreases toks.Length(), 5
  {
    if At(toks, Dollar) then
      var name :- ExpectIdentifier(toks.tail);
      Ok(Parsed(Parameter(name.value), name.rest))
    else if At(toks, LParen) then
      var inner :- ParseAt(OR, toks.tail);
      var rest :- Expect(RParen, inner.rest);
      Ok(Parsed(inner.value, rest))
    else if At(toks, LBracket) then
      var items :- if At(toks.tail, RBracket) then Ok(Parsed([], toks.tail)) else ParseExprs(toks.tail);
      var rest :- Expect(RBracket, items.rest);
      Ok(Parsed(ListLiteral(items.value), rest))
    else if At(toks, LBrace) then
      var fields :- if At(toks.tail, RBrace) then Ok(Parsed([], toks.tail)) else ParseFields([], toks.tail);
      var rest :- Expect(RBrace, fields.rest);
      Ok(Parsed(MapLiteral(fields.value), rest))
    else if AtWord(toks, "NULL") then Ok(Parsed(Literal(None), toks.tail))
    else if AtIdentifier(toks) then ParseNamed(toks.head.text, toks.tail)
    else
      var v :- ParseScalar(toks);
      Ok(Parsed(Literal(Some(v.value)), v.rest))
  }

  /** A property access, a call or a variable, after its name. */
  function ParseNamed(name: string, toks: TokenList): (r: ParseResult<Expr>)
    ensures r.Ok? ==> r.value.rest.Length() <= toks.Length()
    decreases toks.Length(), 5
  {
    if At(toks, Dot) then
      var property :- ExpectName(toks.tail);
      Ok(Parsed(PropertyAccess(name, property.value), property.rest))
    else if At(toks, LParen) then ParseArguments(name, toks.tail)
    else Ok(Parsed(VariableRef(name), toks))
  }

  function ParseArguments(name: string, toks: TokenList): (r: ParseResult<Expr>)
    ensures r.Ok? ==> r.value.rest.Length() < toks.Length()
    decreases toks.Length(), 29
  {
    if At(toks, Star) then
      var rest :- Expect(RParen, toks.tail);
      Ok(Parsed(Call(name, [], false, true), rest))
    else
      var distinct := AtWord(toks, "DISTINCT");
      var start := if distinct then toks.tail else toks;
      var args :- if At(start, RParen) then Ok(Parsed([], start)) else ParseExprs(start);
      var rest :- Expect(RParen, args.rest);
      Ok(Parsed(Call(name, args.value, distinct, false), rest))
  }

  function ParseExprs(toks: TokenList): (r: ParseResult<seq<Expr>>)
    ensures r.Ok? ==> r.value.rest.Length() < toks.Length()
    decreases toks.Length(), 28
  {
    var first :- ParseAt(OR, toks);
    if !At(first.rest, Comma) then Ok(Parsed([first.value], first.rest))
    else
      var more :- ParseExprs(first.rest.tail);
      Ok(Parsed([first.value] + more.value, more.rest))
  }

  /** A repeated key keeps its place and takes the later value. */
  function SetField(fields: seq<Field>, key: string, e: Expr): seq<Field> {
    if fields == [] then [Field(key, e)]
    else if fields[0].key == key then [Field(key, e)] + fields[1..]
    else [fields[0]] + SetField(fields[1..], key, e)
  }

  function ParseFields(fields: seq<Field>, toks: TokenList): (r: ParseResult<seq<Field>>)
    ensures r.Ok? ==> r.value.rest.Length() < toks.Length()
    decreases toks.Length(), 28
  {
    var key :- ExpectName(toks);
    var start :- Expect(Colon, key.rest);
    var e :- ParseAt(OR, start);
    var set_ := SetField(fields, key.value, e.value);
    if At(e.rest, Comma) then ParseFields(set_, e.rest.tail) else Ok(Parsed(set_, e.rest))
  }

  // ---- patterns -----------------------------------------------------------------------------------------------

  function SetScalar(properties: seq<Property>, key: string, v: Scalar): seq<Property> {
    if properties == [] then [Property(key, v)]
    else if properties[0].key == key then [Property(key, v)] + properties[1..]
    else [properties[0]] + SetScalar(properties[1..], key, v)
  }

  function ParseProperties(properties: seq<Property>, toks: TokenList): (r: ParseResult<seq<Property>>)
    ensures r.Ok? ==> r.value.rest.Length() < toks.Length()
    decreases toks.Length()
  {
    var key :- ExpectName(toks);
    var start :- Expect(Colon, key.rest);
    var v :- ParseScalar(start);
    var set_ := SetScalar(properties, key.value, v.value);
    if At(v.rest, Comma) then ParseProperties(set_, v.rest.tail) else Ok(Parsed(set_, v.rest))
  }

  function ParsePropMap(toks: TokenList): (r: ParseResult<seq<Property>>)
    ensures r.Ok? ==> r.value.rest.Length() < toks.Length()
  {
    var open :- Expect(LBrace, toks);
    var properties :- if At(open, RBrace) then Ok(Parsed([], open)) else ParseProperties([], open);
    var rest :- Expect(RBrace, properties.rest);
    Ok(Parsed(properties.value, rest))
  }

  function ParseOptionalProps(toks: TokenList): (r: ParseResult<seq<Property>>)
    ensures r.Ok? ==> r.value.rest.Length() <= toks.Length()
  {
    if At(toks, LBrace) then ParsePropMap(toks) else Ok(Parsed([], toks))
  }

  function ParseLabel(toks: TokenList): (r: ParseResult<string>)
    ensures r.Ok? ==> r.value.rest.Length() < toks.Length()
    decreases toks.Length()
  {
    var first :- ExpectName(toks);
    LabelLoop(first.value, first.rest)
  }

  function LabelLoop(labelName: string, toks: TokenList): (r: ParseResult<string>)
    ensures r.Ok? ==> r.value.rest.Length() <= toks.Length()
    decreases toks.Length()
  {
    if !At(toks, Dot) then Ok(Parsed(labelName, toks))
    else
      var next :- ExpectName(toks.tail);
      LabelLoop(labelName + "." + next.value, next.rest)
  }

  function ParseOptionalVariable(toks: TokenList): (r: Parsed<Option<string>>)
    ensures r.rest.Length() <= toks.Length()
  {
    if AtIdentifier(toks) then Parsed(Some(toks.head.text), toks.tail) else Parsed(None, toks)
  }

  function ParseOptionalLabel(toks: TokenList): (r: ParseResult<Option<string>>)
    ensures r.Ok? ==> r.value.rest.Length() <= toks.Length()
  {
    if !At(toks, Colon) then Ok(Parsed(None, toks))
    else
      var labelName :- ParseLabel(toks.tail);
      Ok(Parsed(Some(labelName.value), labelName.rest))
  }

  function ParseNode(toks: TokenList): (r: ParseResult<NodePattern>)
    ensures r.Ok? ==> r.value.rest.Length() < toks.Length()
  {
    var open :- Expect(LParen, toks);
    var variable := ParseOptionalVariable(open);
    var labelName :- ParseOptionalLabel(variable.rest);
    var properties :- ParseOptionalProps(labelName.rest);
    var rest :- Expect(RParen, properties.rest);
    Ok(Parsed(NodePattern(variable.value, labelName.value, properties.value), rest))
  }

  datatype Hops = Hops(min: Option<nat>, max: Option<nat>)

  function ParseHopCount(toks: TokenList): (r: ParseResult<nat>)
    ensures r.Ok? ==> r.value.rest.Length() < toks.Length()
  {
    if !AtNumber(toks) then Fail(ExpectedNumber, toks)
    else if !AllDigits(toks.head.text) then Fail(ExpectedHopCount, toks.tail)
    else Ok(Parsed(ValueOf(toks.head.text), toks.tail))
  }

  function ParseOptionalCount(toks: TokenList): (r: ParseResult<Option<nat>>)
    ensures r.Ok? ==> r.value.rest.Length() <= toks.Length()
  {
    if !AtNumber(toks) then Ok(Parsed(None, toks))
    else
      var n :- ParseHopCount(toks);
      Ok(Parsed(Some(n.value), n.rest))
  }

  /** After the star: an optional minimum, and an optional range with an optional maximum. */
  function ParseHops(toks: TokenList): (r: ParseResult<Hops>)
    ensures r.Ok? ==> r.value.rest.Length() <= toks.Length()
  {
    var min :- ParseOptionalCount(toks);
    var atLeast := if min.value.Some? then min.value.value else 1;
    if !At(min.rest, Dot) then Ok(Parsed(Hops(Some(atLeast), min.value), min.rest))
    else
      var dots :- Expect(Dot, min.rest.tail);
      var max :- ParseOptionalCount(dots);
      Ok(Parsed(Hops(Some(atLeast), max.value), max.rest))
  }

  function ParseOptionalType(toks: TokenList): (r: ParseResult<Option<string>>)
    ensures r.Ok? ==> r.value.rest.Length() <= toks.Length()
  {
    if !At(toks, Colon) then Ok(Parsed(None, toks))
    else
      var relType :- ExpectName(toks.tail);
      Ok(Parsed(Some(relType.value), relType.rest))
  }

  function ParseOptionalHops(toks: TokenList): (r: ParseResult<Hops>)
    ensures r.Ok? ==> r.value.rest.Length() <= toks.Length()
  {
    if At(toks, Star) then ParseHops(toks.tail) else Ok(Parsed(Hops(None, None), toks))
  }

  /** What the brackets of a relationship say; the direction is still open. */
  function ParseDetail(toks: TokenList): (r: ParseResult<RelPattern>)
    ensures r.Ok? ==> r.value.rest.Length() <= toks.Length()
  {
    if !At(toks, LBracket) then Ok(Parsed(RelPattern(None, None, Undirected, [], None, None), toks))
    else
      var variable := ParseOptionalVariable(toks.tail);
      var relType :- ParseOptionalType(variable.rest);
      var hops :- ParseOptionalHops(relType.rest);
      var properties :- ParseOptionalProps(hops.rest);
      var rest :- Expect(RBracket, properties.rest);
      Ok(Parsed(RelPattern(variable.value, relType.value, Undirected, properties.value, hops.value.min, hops.value.max), rest))
  }

  predicate HopRangeOk(rel: RelPattern) {
    rel.minHops.Some? && rel.maxHops.Some? ==> rel.minHops.value <= rel.maxHops.value
  }

  function ParseRel(toks: TokenList): (r: ParseResult<RelPattern>)
    ensures r.Ok? ==> r.value.rest.Length() < toks.Length()
  {
    var incoming := At(toks, ArrowLeft);
    var start :- if incoming then Ok(toks.tail) else Expect(Dash, toks);
    var rel :- ParseDetail(start);
    var outgoing := At(rel.rest, ArrowRight);
    var rest :- if outgoing then Ok(rel.rest.tail) else Expect(Dash, rel.rest);
    if incoming && outgoing then Fail(BothArrowheads, rest)
    else
      var direction := if incoming then Incoming else if outgoing then Outgoing else Undirected;
      if !HopRangeOk(rel.value) then Fail(InvalidHopRange, rest)
      else Ok(Parsed(rel.value.(direction := direction), rest))
  }

  datatype Step = Step(rel: RelPattern, node: NodePattern)

  function ParseSteps(toks: TokenList): (r: ParseResult<seq<Step>>)
    ensures r.Ok? ==> r.value.rest.Length() <= toks.Length()
    decreases toks.Length()
  {
    if !At(toks, Dash) && !At(toks, ArrowLeft) then Ok(Parsed([], toks))
    else
      var rel :- ParseRel(toks);
      var node :- ParseNode(rel.rest);
      var more :- ParseSteps(node.rest);
      Ok(Parsed([Step(rel.value, node.value)] + more.value, more.rest))
  }

  function RelsOf(steps: seq<Step>): (r: seq<RelPattern>)
    ensures |r| == |steps|
  {
    seq(|steps|, i requires 0 <= i < |steps| => steps[i].rel)
  }

  function NodesOf(steps: seq<Step>): (r: seq<NodePattern>)
    ensures |r| == |steps|
  {
    seq(|steps|, i requires 0 <= i < |steps| => steps[i].node)
  }

  function ParsePath(toks: TokenList): (r: ParseResult<PatternPath>)
    ensures r.Ok? ==> r.value.rest.Length() < toks.Length() && r.value.value.Valid()
  {
    var named := AtIdentifier(toks) && At(toks.tail, EqSign);
    var start := if named then toks.tail.tail else toks;
    var first :- ParseNode(start);
    var steps :- ParseSteps(first.rest);
    Ok(Parsed(PatternPath([first.value] + NodesOf(steps.value), RelsOf(steps.value), if named then Some(toks.head.text) else None), steps.rest))
  }

  predicate HasRelProps(path: PatternPath) {
    exists r :: r in path.rels && r.properties != []
  }

  /** The path of a CREATE or MERGE: its relationships carry no properties. */
  function ParseWritePath(toks: TokenList): (r: ParseResult<PatternPath>)
    ensures r.Ok? ==> r.value.rest.Length() < toks.Length() && r.value.value.Valid()
  {
    var path :- ParsePath(toks);
    if HasRelProps(path.value) then Fail(RelPropsNotAllowed, path.rest) else Ok(path)
  }

  function ParsePaths(write: bool, toks: TokenList): (r: ParseResult<seq<PatternPath>>)
    ensures r.Ok? ==> r.value.rest.Length() < toks.Length() && forall p :: p in r.value.value ==> p.Valid()
    decreases toks.Length()
  {
    var first :- if write then ParseWritePath(toks) else ParsePath(toks);
    if !At(first.rest, Comma) then Ok(Parsed([first.value], first.rest))
    else
      var more :- ParsePaths(write, first.rest.tail);
      Ok(Parsed([first.value] + more.value, more.rest))
  }

  // ---- clauses ------------------------------------------------------------------------------------------------

  /** WORD expression, when the word is next. */
  function ParseOptional(word: string, toks: TokenList): (r: ParseResult<Option<Expr>>)
    ensures r.Ok? ==> r.value.rest.Length() <= toks.Length()
  {
    if !AtWord(toks, word) then Ok(Parsed(None, toks))
    else
      var e :- ParseAt(OR, toks.tail);
      Ok(Parsed(Some(e.value), e.rest))
  }

  function ParseMatch(toks: TokenList): (r: ParseResult<Clause>)
    ensures r.Ok? ==> r.value.rest.Length() < toks.Length() && ClausePathsValid(r.value.value)
  {
    var optional := AtWord(toks, "OPTIONAL");
    var start :- ExpectWord("MATCH", if optional then toks.tail else toks);
    var paths :- ParsePaths(false, start);
    var where :- ParseOptional("WHERE", paths.rest);
    Ok(Parsed(Match(paths.value, where.value, optional), where.rest))
  }

  function ParseUnwind(toks: TokenList): (r: ParseResult<Clause>)
    ensures r.Ok? ==> r.value.rest.Length() < toks.Length() && ClausePathsValid(r.value.value)
  {
    var start :- ExpectWord("UNWIND", toks);
    var e :- ParseAt(OR, start);
    var named :- ExpectWord("AS", e.rest);
    var variable :- ExpectIdentifier(named);
    Ok(Parsed(Unwind(e.value, variable.value), variable.rest))
  }

  function ParseSetItem(toks: TokenList): (r: ParseResult<SetItem>)
    ensures r.Ok? ==> r.value.rest.Length() < toks.Length()
  {
    var variable :- ExpectIdentifier(toks);
    if At(variable.rest, PlusEq) then
      var e :- ParseAt(OR, variable.rest.tail);
      Ok(Parsed(SetItem(variable.value, None, e.value, MergeMap), e.rest))
    else if At(variable.rest, EqSign) then
      var e :- ParseAt(OR, variable.rest.tail);
      Ok(Parsed(SetItem(variable.value, None, e.value, Replace), e.rest))
    else
      var dot :- Expect(Dot, variable.rest);
      var property :- ExpectName(dot);
      var equals :- Expect(EqSign, property.rest);
      var e :- ParseAt(OR, equals);
      Ok(Parsed(SetItem(variable.value, Some(property.value), e.value, SetProperty), e.rest))
  }

  function ParseSetItems(toks: TokenList): (r: ParseResult<seq<SetItem>>)
    ensures r.Ok? ==> r.value.rest.Length() < toks.Length()
    decreases toks.Length()
  {
    var first :- ParseSetItem(toks);
    if !At(first.rest, Comma) then Ok(Parsed([first.value], first.rest))
    else
      var more :- ParseSetItems(first.rest.tail);
      Ok(Parsed([first.value] + more.value, more.rest))
  }

  /** SET and its items. */
  function ParseSetWords(toks: TokenList): (r: ParseResult<seq<SetItem>>)
    ensures r.Ok? ==> r.value.rest.Length() < toks.Length()
  {
    var start :- ExpectWord("SET", toks);
    ParseSetItems(start)
  }

  datatype OnActions = OnActions(onCreate: seq<SetItem>, onMatch: seq<SetItem>)

  /** ON is a contextual word: only here can an identifier follow a pattern. */
  predicate AtOn(toks: TokenList) {
    AtIdentifier(toks) && UpperAll(toks.head.text) == "ON"
  }

  /** Repeated ON actions accumulate in source order. */
  function ParseOns(actions: OnActions, toks: TokenList): (r: ParseResult<OnActions>)
    ensures r.Ok? ==> r.value.rest.Length() <= toks.Length()
    decreases toks.Length()
  {
    if !AtOn(toks) then Ok(Parsed(actions, toks))
    else if AtWord(toks.tail, "CREATE") then
      var items :- ParseSetWords(toks.tail.tail);
      assert toks.Length() == 1 + toks.tail.Length() && items.rest.Length() < toks.tail.Length();
      ParseOns(actions.(onCreate := actions.onCreate + items.value), items.rest)
    else if AtWord(toks.tail, "MATCH") then
      var items :- ParseSetWords(toks.tail.tail);
      assert toks.Length() == 1 + toks.tail.Length() && items.rest.Length() < toks.tail.Length();
      ParseOns(actions.(onMatch := actions.onMatch + items.value), items.rest)
    else Fail(OnNeedsCreateOrMatch, toks.tail)
  }

  function ParseMerge(toks: TokenList): (r: ParseResult<Clause>)
    ensures r.Ok? ==> r.value.rest.Length() < toks.Length() && ClausePathsValid(r.value.value)
  {
    var start :- ExpectWord("MERGE", toks);
    var path :- ParseWritePath(start);
    var actions :- ParseOns(OnActions([], []), path.rest);
    Ok(Parsed(Merge(path.value, actions.value.onCreate, actions.value.onMatch), actions.rest))
  }

  function ParseDelete(toks: TokenList): (r: ParseResult<Clause>)
    ensures r.Ok? ==> r.value.rest.Length() < toks.Length() && ClausePathsValid(r.value.value)
  {
    var detach := AtWord(toks, "DETACH");
    var start :- ExpectWord("DELETE", if detach then toks.tail else toks);
    var targets :- ParseExprs(start);
    Ok(Parsed(Delete(targets.value, detach), targets.rest))
  }

  function ParseRefs(toks: TokenList): (r: ParseResult<seq<PropertyRef>>)
    ensures r.Ok? ==> r.value.rest.Length() < toks.Length()
    decreases toks.Length()
  {
    var variable :- ExpectIdentifier(toks);
    var dot :- Expect(Dot, variable.rest);
    var property :- ExpectName(dot);
    var first := PropertyRef(variable.value, property.value);
    if !At(property.rest, Comma) then Ok(Parsed([first], property.rest))
    else
      var more :- ParseRefs(property.rest.tail);
      Ok(Parsed([first] + more.value, more.rest))
  }

  function ParseCreate(toks: TokenList): (r: ParseResult<Clause>)
    ensures r.Ok? ==> r.value.rest.Length() < toks.Length() && ClausePathsValid(r.value.value)
  {
    var start :- ExpectWord("CREATE", toks);
    var paths :- ParsePaths(true, start);
    Ok(Parsed(Create(paths.value), paths.rest))
  }

  function ParseSet(toks: TokenList): (r: ParseResult<Clause>)
    ensures r.Ok? ==> r.value.rest.Length() < toks.Length() && ClausePathsValid(r.value.value)
  {
    var items :- ParseSetWords(toks);
    Ok(Parsed(SetClause(items.value), items.rest))
  }

  function ParseRemove(toks: TokenList): (r: ParseResult<Clause>)
    ensures r.Ok? ==> r.value.rest.Length() < toks.Length() && ClausePathsValid(r.value.value)
  {
    var start :- ExpectWord("REMOVE", toks);
    var refs :- ParseRefs(start);
    Ok(Parsed(Remove(refs.value), refs.rest))
  }

  /** The clause the next word announces, if one does. */
  function ParseClause(toks: TokenList): (r: Option<ParseResult<Clause>>)
    ensures r.Some? && r.value.Ok? ==> r.value.value.rest.Length() < toks.Length() && ClausePathsValid(r.value.value.value)
  {
    if AtWord(toks, "MATCH") || AtWord(toks, "OPTIONAL") then Some(ParseMatch(toks))
    else if AtWord(toks, "UNWIND") then Some(ParseUnwind(toks))
    else if AtWord(toks, "CREATE") then Some(ParseCreate(toks))
    else if AtWord(toks, "MERGE") then Some(ParseMerge(toks))
    else if AtWord(toks, "SET") then Some(ParseSet(toks))
    else if AtWord(toks, "DELETE") || AtWord(toks, "DETACH") then Some(ParseDelete(toks))
    else if AtWord(toks, "REMOVE") then Some(ParseRemove(toks))
    else None
  }

  function ParseClauses(toks: TokenList): (r: ParseResult<seq<Clause>>)
    ensures r.Ok? ==> r.value.rest.Length() <= toks.Length() && forall c :: c in r.value.value ==> ClausePathsValid(c)
    decreases toks.Length()
  {
    match ParseClause(toks)
    case None => Ok(Parsed([], toks))
    case Some(parsed) =>
      var first :- parsed;
      var more :- ParseClauses(first.rest);
      Ok(Parsed([first.value] + more.value, more.rest))
  }

  // ---- projections and parts ----------------------------------------------------------------------------------

  function ParseReturnItem(toks: TokenList): (r: ParseResult<ReturnItem>)
    ensures r.Ok? ==> r.value.rest.Length() < toks.Length()
  {
    var e :- ParseAt(OR, toks);
    if !AtWord(e.rest, "AS") then Ok(Parsed(ReturnItem(e.value, None), e.rest))
    else
      var alias :- ExpectIdentifier(e.rest.tail);
      Ok(Parsed(ReturnItem(e.value, Some(alias.value)), alias.rest))
  }

  function ParseReturnItems(toks: TokenList): (r: ParseResult<seq<ReturnItem>>)
    ensures r.Ok? ==> r.value.rest.Length() < toks.Length()
    decreases toks.Length()
  {
    var first :- ParseReturnItem(toks);
    if !At(first.rest, Comma) then Ok(Parsed([first.value], first.rest))
    else
      var more :- ParseReturnItems(first.rest.tail);
      Ok(Parsed([first.value] + more.value, more.rest))
  }

  function ParseSort(toks: TokenList): (r: ParseResult<SortItem>)
    ensures r.Ok? ==> r.value.rest.Length() < toks.Length()
  {
    var e :- ParseAt(OR, toks);
    var descending := AtWord(e.rest, "DESC");
    Ok(Parsed(SortItem(e.value, descending), if descending || AtWord(e.rest, "ASC") then e.rest.tail else e.rest))
  }

  function ParseSorts(toks: TokenList): (r: ParseResult<seq<SortItem>>)
    ensures r.Ok? ==> r.value.rest.Length() < toks.Length()
    decreases toks.Length()
  {
    var first :- ParseSort(toks);
    if !At(first.rest, Comma) then Ok(Parsed([first.value], first.rest))
    else
      var more :- ParseSorts(first.rest.tail);
      Ok(Parsed([first.value] + more.value, more.rest))
  }

  function ParseOrder(toks: TokenList): (r: ParseResult<Option<seq<SortItem>>>)
    ensures r.Ok? ==> r.value.rest.Length() <= toks.Length()
  {
    if !AtWord(toks, "ORDER") then Ok(Parsed(None, toks))
    else
      var start :- ExpectWord("BY", toks.tail);
      var keys :- ParseSorts(start);
      Ok(Parsed(Some(keys.value), keys.rest))
  }

  /** WHERE comes after the items of a WITH and never after a RETURN. */
  function ParseProjectionWhere(isReturn: bool, toks: TokenList): (r: ParseResult<Option<Expr>>)
    ensures r.Ok? ==> r.value.rest.Length() <= toks.Length()
  {
    if AtWord(toks, "WHERE") && isReturn then Fail(ReturnWhereNotAllowed, toks) else ParseOptional("WHERE", toks)
  }

  predicate AtProjection(toks: TokenList) {
    AtWord(toks, "RETURN") || AtWord(toks, "WITH")
  }

  function ParseProjection(toks: TokenList): (r: ParseResult<Projection>)
    ensures r.Ok? ==> r.value.rest.Length() < toks.Length()
  {
    if !AtProjection(toks) then Fail(ExpectedProjection, toks)
    else
      var isReturn := AtWord(toks, "RETURN");
      var distinct := AtWord(toks.tail, "DISTINCT");
      var items :- ParseReturnItems(if distinct then toks.tail.tail else toks.tail);
      var where :- ParseProjectionWhere(isReturn, items.rest);
      var orderBy :- ParseOrder(where.rest);
      var skip :- ParseOptional("SKIP", orderBy.rest);
      var limit :- ParseOptional("LIMIT", skip.rest);
      if AtWord(limit.rest, "WHERE") then Fail(if isReturn then ReturnWhereNotAllowed else MisplacedWithWhere, limit.rest)
      else Ok(Parsed(Projection(items.value, distinct, orderBy.value, skip.value, limit.value, isReturn, where.value), limit.rest))
  }

  function ParseParts(toks: TokenList): (r: ParseResult<seq<QueryPart>>)
    ensures r.Ok? ==> r.value.rest.Length() <= toks.Length() && forall p :: p in r.value.value ==> PartPathsValid(p)
    decreases toks.Length()
  {
    var reading :- ParseClauses(toks);
    var clauses := reading.value;
    if clauses != [] && clauses[|clauses| - 1].IsWriting() && !AtProjection(reading.rest) then
      Ok(Parsed([QueryPart(clauses, None)], reading.rest))
    else
      var projection :- ParseProjection(reading.rest);
      var part := QueryPart(clauses, Some(projection.value));
      if projection.value.isReturn then Ok(Parsed([part], projection.rest))
      else
        var more :- ParseParts(projection.rest);
        Ok(Parsed([part] + more.value, more.rest))
  }

  function Parse(toks: TokenList): Result<QueryModel, SyntaxError> {
    var parts :- ParseParts(toks);
    if parts.rest.Cons? then Err(SyntaxError(ExpectedEnd, parts.rest.Length()))
    else Ok(QueryModel(parts.value))
  }
}
