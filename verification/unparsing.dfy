/**
 Rendering a query model as text. A text is built as pieces (see Lexing.Pieces), each function taking the pieces that
 follow, so that the same definition gives the text (`Lexing.TextOf`) and the tokens it is meant to be read as.
 */
module Unparsing {
  import opened Wrappers
  import opened NumberText
  import opened Values
  import opened Query
  import opened Tokens
  import opened Lexing

  /** Binding strength of an expression's top-level form (higher binds tighter). */
  type Prec = p: nat | 1 <= p <= 8 witness 1

  const OR: Prec := 1
  const AND: Prec := 2
  const NOT: Prec := 3
  const PREDICATE: Prec := 4
  const ADDITIVE: Prec := 5
  const MULTIPLICATIVE: Prec := 6
  const UNARY: Prec := 7
  const POSTFIX: Prec := 8

  // ---- spellings ----------------------------------------------------------------------------------------------

  /**
   How a query is spelled where the language leaves a choice: how a keyword and the word ON are written, which expressions
   have parentheses they do not need, which indexes by a text are written with a dot, which hops as a range with an open
   start, which relationships with empty brackets, which ascending sort keys with ASC, which ON actions one by one, and which
   MERGE with ON MATCH first.
   */
  datatype Style = Style(word: string -> string, on: string, wrapped: Expr -> bool, dotted: Expr -> bool, ranged: RelPattern -> bool,
                         bracketed: RelPattern -> bool, asc: SortItem -> bool, singly: seq<SetItem> -> bool, matchFirst: Clause -> bool)

  /** A keyword stays that keyword. */
  predicate KeepsWord(s: Style, w: string) {
    UpperAll(s.word(w)) == UpperAll(w) && (IsPlain(w) ==> IsPlain(s.word(w)))
  }

  ghost predicate StyleOk(s: Style) {
    (forall w :: KeepsWord(s, w)) && IsOn(s.on)
  }

  predicate IsOn(w: string) {
    UpperAll(w) == "ON" && IsPlain(w)
  }

  type Spelling = s: Style | StyleOk(s) ghost witness PlainStyle()

  /** The choices of the unparser. */
  function PlainStyle(): Style {
    Style((w: string) => w, "ON", (e: Expr) => false, (e: Expr) => false, (r: RelPattern) => false, (r: RelPattern) => false,
          (key: SortItem) => false, (items: seq<SetItem>) => false, (c: Clause) => false)
  }

  const PLAIN: Spelling := PlainStyle()

  // ---- names and scalars --------------------------------------------------------------------------------------

  function Word(sp: Spelling, w: string, k: Pieces): Pieces {
    Put(Keyword(w, sp.word(w)), k)
  }

  function Sign(s: Symbol, k: Pieces): Pieces {
    Put(Sym(s), k)
  }

  function Ident(name: string, k: Pieces): Pieces {
    Put(Identifier(name), k)
  }

  /** A name position accepts keyword spellings, so only a name that is not plain needs backticks. */
  function Name(name: string, k: Pieces): Pieces {
    Put(NameToken(name), k)
  }

  function NameToken(name: string): Token {
    if IsPlain(name) && IsKeyword(name) then Keyword(UpperAll(name), name) else Identifier(name)
  }

  function ShowScalar(sp: Spelling, v: Scalar, k: Pieces): Pieces {
    match v
    case Str(s) => Put(StringToken(s), k)
    case Bool(b) => if b then Word(sp, "TRUE", k) else Word(sp, "FALSE", k)
    case Num(n) =>
      var text := Unparsed(n);
      if n.m < 0 && text != "" then Sign(Dash, Put(NumberToken(text[1..]), k)) else Put(NumberToken(text), k)
  }

  // ---- expressions --------------------------------------------------------------------------------------------

  predicate IsNegative(v: Option<Scalar>) {
    v.Some? && v.value.Num? && v.value.n.m < 0
  }

  function PrecOf(e: Expr): Prec {
    match e
    case Boolean(Or, _) => OR
    case Boolean(And, _) => AND
    case Boolean(Not, _) => NOT
    case Comparison(_, _, _) => PREDICATE
    case IsNull(_, _) => PREDICATE
    case In(_, _) => PREDICATE
    case Arithmetic(_, op, _) => if op.Add? || op.Sub? then ADDITIVE else MULTIPLICATIVE
    case UnaryMinus(_) => UNARY
    case Literal(v) => if IsNegative(v) then UNARY else POSTFIX
    case _ => POSTFIX
  }

  function ComparisonSymbol(op: ComparisonOp): Symbol {
    match op
    case Eq => EqSign
    case Neq => NeqSign
    case Lt => LtSign
    case Lte => LteSign
    case Gt => GtSign
    case Gte => GteSign
  }

  function ArithmeticSymbol(op: ArithmeticOp): Symbol {
    match op
    case Add => Plus
    case Sub => Dash
    case Mul => Star
    case Div => Slash
    case Mod => Percent
  }

  predicate Enclosed(sp: Spelling, e: Expr, min: Prec) {
    PrecOf(e) < min || sp.wrapped(e)
  }

  /** What a dot may follow without being part of it. */
  predicate Dottable(sp: Spelling, e: Expr) {
    Enclosed(sp, e, POSTFIX) || e.Index?
  }

  /** An index by a text, written with a dot. */
  predicate Dotted(sp: Spelling, e: Expr) {
    && e.Index? && sp.dotted(e) && Dottable(sp, e.target)
    && e.index.Literal? && e.index.value.Some? && e.index.value.value.Str? && e.index.value.value.s != ""
  }

  /** Parenthesized when the expression binds looser than its context requires. */
  function ShowExpr(sp: Spelling, e: Expr, min: Prec, k: Pieces): Pieces
    decreases e, 2
  {
    if Enclosed(sp, e, min) then Sign(LParen, ShowBare(sp, e, Sign(RParen, k))) else ShowBare(sp, e, k)
  }

  function ShowBare(sp: Spelling, e: Expr, k: Pieces): Pieces
    decreases e, 1
  {
    match e
    case Literal(None) => Word(sp, "NULL", k)
    case Literal(Some(v)) => ShowScalar(sp, v, k)
    case VariableRef(name) => Ident(name, k)
    case PropertyAccess(variable, property) => Ident(variable, Sign(Dot, Name(property, k)))
    case Parameter(name) => Sign(Dollar, Ident(name, k))
    case Comparison(left, op, right) =>
      ShowExpr(sp, left, ADDITIVE, Gap(Sign(ComparisonSymbol(op), Gap(ShowExpr(sp, right, ADDITIVE, k)))))
    case Boolean(op, operands) =>
      if operands == [] then k
      else if op.Not? then Word(sp, "NOT", Gap(ShowExpr(sp, operands[0], NOT, k)))
      else ShowExpr(sp, operands[0], PrecOf(e), ShowOperands(sp, op, operands[1..], k))
    case IsNull(operand, negated) =>
      ShowExpr(sp, operand, ADDITIVE, Gap(Word(sp, "IS", Gap(if negated then Word(sp, "NOT", Gap(Word(sp, "NULL", k))) else Word(sp, "NULL", k)))))
    case In(operand, list) =>
      ShowExpr(sp, operand, ADDITIVE, Gap(Word(sp, "IN", Gap(Sign(LBracket, ShowLiterals(sp, list, Sign(RBracket, k)))))))
    case Arithmetic(left, op, right) =>
      ShowExpr(sp, left, PrecOf(e), Gap(Sign(ArithmeticSymbol(op), Gap(ShowExpr(sp, right, PrecOf(e) + 1, k)))))
    case UnaryMinus(operand) => Sign(Dash, ShowExpr(sp, operand, POSTFIX, k))
    case ListLiteral(items) => Sign(LBracket, ShowExprs(sp, items, Sign(RBracket, k)))
    case MapLiteral(fields) => Sign(LBrace, ShowFields(sp, fields, Sign(RBrace, k)))
    case Index(target, index) =>
      if Dotted(sp, e) then ShowExpr(sp, target, POSTFIX, Sign(Dot, Name(index.value.value.s, k)))
      else ShowExpr(sp, target, POSTFIX, Sign(LBracket, ShowExpr(sp, index, OR, Sign(RBracket, k))))
    case Call(fname, args, distinct, star) =>
      if star then Name(fname, Sign(LParen, Sign(Star, Sign(RParen, k))))
      else if distinct then Name(fname, Sign(LParen, Word(sp, "DISTINCT", Gap(ShowExprs(sp, args, Sign(RParen, k))))))
      else Name(fname, Sign(LParen, ShowExprs(sp, args, Sign(RParen, k))))
  }

  function BooleanWord(op: BooleanOp): string {
    if op.And? then "AND" else if op.Or? then "OR" else "NOT"
  }

  function BooleanPrec(op: BooleanOp): Prec {
    if op.Or? then OR else if op.And? then AND else NOT
  }

  /** Operands after the first bind strictly tighter than the operator, which keeps it left-associative. */
  function ShowOperands(sp: Spelling, op: BooleanOp, operands: seq<Expr>, k: Pieces): Pieces
    decreases operands, 3
  {
    if operands == [] then k
    else Gap(Word(sp, BooleanWord(op), Gap(ShowExpr(sp, operands[0], BooleanPrec(op) + 1, ShowOperands(sp, op, operands[1..], k)))))
  }

  function ShowExprs(sp: Spelling, es: seq<Expr>, k: Pieces): Pieces
    decreases es, 3
  {
    if es == [] then k
    else ShowExpr(sp, es[0], OR, if |es| == 1 then k else Sign(Comma, Gap(ShowExprs(sp, es[1..], k))))
  }

  /** The items of an IN list, which are scalar literals. */
  function ShowLiterals(sp: Spelling, es: seq<Expr>, k: Pieces): Pieces
    decreases es, 3
  {
    if es == [] then k
    else
      var tail := if |es| == 1 then k else Sign(Comma, Gap(ShowLiterals(sp, es[1..], k)));
      match es[0]
      case Literal(Some(v)) => ShowScalar(sp, v, tail)
      case _ => tail
  }

  function ShowFields(sp: Spelling, fields: seq<Field>, k: Pieces): Pieces
    decreases fields, 3
  {
    if fields == [] then k
    else Name(fields[0].key, Sign(Colon, Gap(ShowExpr(sp, fields[0].expr, OR,
                                                     if |fields| == 1 then k else Sign(Comma, Gap(ShowFields(sp, fields[1..], k)))))))
  }

  // ---- patterns -----------------------------------------------------------------------------------------------

  function ShowProperties(sp: Spelling, properties: seq<Property>, k: Pieces): Pieces
    decreases |properties|
  {
    if properties == [] then k
    else Name(properties[0].key, Sign(Colon, Gap(ShowScalar(sp, properties[0].value,
                                                           if |properties| == 1 then k else Sign(Comma, Gap(ShowProperties(sp, properties[1..], k)))))))
  }

  function ShowPropMap(sp: Spelling, properties: seq<Property>, k: Pieces): Pieces {
    Sign(LBrace, ShowProperties(sp, properties, Sign(RBrace, k)))
  }

  function ShowVariable(sp: Spelling, variable: Option<string>, k: Pieces): Pieces {
    if variable.None? then k else Ident(variable.value, k)
  }

  /** The text between dots; one segment more than there are dots. */
  function Segments(labelName: string): (r: seq<string>)
    ensures r != []
  {
    if labelName == "" then [""]
    else
      var rest := Segments(labelName[1..]);
      if labelName[0] == '.' then [""] + rest else [[labelName[0]] + rest[0]] + rest[1..]
  }

  function ShowSegments(sp: Spelling, segments: seq<string>, k: Pieces): Pieces
    decreases |segments|
  {
    if segments == [] then k
    else Name(segments[0], if |segments| == 1 then k else Sign(Dot, ShowSegments(sp, segments[1..], k)))
  }

  /** Segment by segment; a label with an empty segment is quoted whole. */
  function ShowLabel(sp: Spelling, labelName: string, k: Pieces): Pieces {
    if "" in Segments(labelName) then Ident(labelName, k) else ShowSegments(sp, Segments(labelName), k)
  }

  function ShowNode(sp: Spelling, node: NodePattern, k: Pieces): Pieces {
    var closed := Sign(RParen, k);
    var props := if node.properties == [] then closed else Gap(ShowPropMap(sp, node.properties, closed));
    Sign(LParen, ShowVariable(sp, node.variable, if node.labelName.None? then props else Sign(Colon, ShowLabel(sp, node.labelName.value, props))))
  }

  function Count(n: nat, k: Pieces): Pieces {
    Put(NumberToken(Digits(n)), k)
  }

  /** A range need not say that it starts at one. */
  function OpenStart(min: nat, k: Pieces): Pieces {
    if min == 1 then k else Count(min, k)
  }

  function ShowHops(sp: Spelling, rel: RelPattern, k: Pieces): Pieces {
    var min := if rel.minHops.Some? then rel.minHops.value else 1;
    Sign(Star,
         if sp.ranged(rel) then OpenStart(min, Range(if rel.maxHops.None? then k else Count(rel.maxHops.value, k)))
         else if rel.maxHops.None? then (if min == 1 then k else Count(min, Range(k)))
         else if rel.maxHops.value == min then Count(min, k)
         else Count(min, Range(Count(rel.maxHops.value, k))))
  }

  predicate HasDetail(rel: RelPattern) {
    rel.variable.Some? || rel.relType.Some? || rel.IsVariableLength() || rel.properties != []
  }

  function ShowDetail(sp: Spelling, rel: RelPattern, k: Pieces): Pieces {
    if !HasDetail(rel) && !sp.bracketed(rel) then k
    else
      var closed := Sign(RBracket, k);
      var props := if rel.properties == [] then closed else Gap(ShowPropMap(sp, rel.properties, closed));
      var hops := if rel.IsVariableLength() then ShowHops(sp, rel, props) else props;
      Sign(LBracket, ShowVariable(sp, rel.variable, if rel.relType.None? then hops else Sign(Colon, Name(rel.relType.value, hops))))
  }

  function ShowRel(sp: Spelling, rel: RelPattern, k: Pieces): Pieces {
    Sign(if rel.direction.Incoming? then ArrowLeft else Dash,
         ShowDetail(sp, rel, Sign(if rel.direction.Outgoing? then ArrowRight else Dash, k)))
  }

  /** The i-th relationship and node of the path and those after them. */
  function ShowSteps(sp: Spelling, path: PatternPath, i: nat, k: Pieces): Pieces
    requires path.Valid() && i <= |path.rels|
    decreases |path.rels| - i
  {
    if i == |path.rels| then k else ShowRel(sp, path.rels[i], ShowNode(sp, path.nodes[i + 1], ShowSteps(sp, path, i + 1, k)))
  }

  function ShowPath(sp: Spelling, path: PatternPath, k: Pieces): Pieces
    requires path.Valid()
  {
    var steps := ShowNode(sp, path.nodes[0], ShowSteps(sp, path, 0, k));
    if path.pathVariable.None? then steps else Ident(path.pathVariable.value, Gap(Sign(EqSign, Gap(steps))))
  }

  function ShowPaths(sp: Spelling, paths: seq<PatternPath>, k: Pieces): Pieces
    requires forall p :: p in paths ==> p.Valid()
    decreases |paths|
  {
    if paths == [] then k
    else ShowPath(sp, paths[0], if |paths| == 1 then k else Sign(Comma, Gap(ShowPaths(sp, paths[1..], k))))
  }

  // ---- clauses ------------------------------------------------------------------------------------------------

  function ShowWhere(sp: Spelling, where: Option<Expr>, k: Pieces): Pieces {
    if where.None? then k else Gap(Word(sp, "WHERE", Gap(ShowExpr(sp, where.value, OR, k))))
  }

  function ShowSetItem(sp: Spelling, item: SetItem, k: Pieces): Pieces {
    var value := Gap(ShowExpr(sp, item.value, OR, k));
    match item.mode
    case MergeMap => Ident(item.variable, Gap(Sign(PlusEq, value)))
    case Replace => Ident(item.variable, Gap(Sign(EqSign, value)))
    case SetProperty =>
      Ident(item.variable, Sign(Dot, Name(if item.property.Some? then item.property.value else "", Gap(Sign(EqSign, value)))))
  }

  function ShowSetItems(sp: Spelling, items: seq<SetItem>, k: Pieces): Pieces
    decreases |items|
  {
    if items == [] then k
    else ShowSetItem(sp, items[0], if |items| == 1 then k else Sign(Comma, Gap(ShowSetItems(sp, items[1..], k))))
  }

  function ShowOneOn(sp: Spelling, word: string, items: seq<SetItem>, k: Pieces): Pieces {
    Gap(Ident(sp.on, Gap(Word(sp, word, Gap(Word(sp, "SET", Gap(ShowSetItems(sp, items, k))))))))
  }

  function ShowOn(sp: Spelling, word: string, items: seq<SetItem>, k: Pieces): Pieces
    decreases |items|
  {
    if items == [] then k
    else if sp.singly(items) then ShowOneOn(sp, word, [items[0]], ShowOn(sp, word, items[1..], k))
    else ShowOneOn(sp, word, items, k)
  }

  function ShowOns(sp: Spelling, c: Clause, k: Pieces): Pieces
    requires c.Merge?
  {
    if sp.matchFirst(c) then ShowOn(sp, "MATCH", c.onMatch, ShowOn(sp, "CREATE", c.onCreate, k))
    else ShowOn(sp, "CREATE", c.onCreate, ShowOn(sp, "MATCH", c.onMatch, k))
  }

  function ShowRefs(sp: Spelling, refs: seq<PropertyRef>, k: Pieces): Pieces
    decreases |refs|
  {
    if refs == [] then k
    else Ident(refs[0].variable, Sign(Dot, Name(refs[0].property, if |refs| == 1 then k else Sign(Comma, Gap(ShowRefs(sp, refs[1..], k))))))
  }

  function ShowClause(sp: Spelling, c: Clause, k: Pieces): Pieces
    requires ClausePathsValid(c)
  {
    match c
    case Match(paths, where, optional) =>
      var text := Word(sp, "MATCH", Gap(ShowPaths(sp, paths, ShowWhere(sp, where, k))));
      if optional then Word(sp, "OPTIONAL", Gap(text)) else text
    case Unwind(expr, variable) => Word(sp, "UNWIND", Gap(ShowExpr(sp, expr, OR, Gap(Word(sp, "AS", Gap(Ident(variable, k)))))))
    case Create(paths) => Word(sp, "CREATE", Gap(ShowPaths(sp, paths, k)))
    case Merge(pattern, onCreate, onMatch) =>
      Word(sp, "MERGE", Gap(ShowPath(sp, pattern, ShowOns(sp, c, k))))
    case SetClause(items) => Word(sp, "SET", Gap(ShowSetItems(sp, items, k)))
    case Delete(targets, detach) =>
      var text := Word(sp, "DELETE", Gap(ShowExprs(sp, targets, k)));
      if detach then Word(sp, "DETACH", Gap(text)) else text
    case Remove(refs) => Word(sp, "REMOVE", Gap(ShowRefs(sp, refs, k)))
  }

  predicate ClausePathsValid(c: Clause) {
    match c
    case Match(paths, _, _) => forall p :: p in paths ==> p.Valid()
    case Create(paths) => forall p :: p in paths ==> p.Valid()
    case Merge(pattern, _, _) => pattern.Valid()
    case _ => true
  }

  function ShowReturnItem(sp: Spelling, item: ReturnItem, k: Pieces): Pieces {
    ShowExpr(sp, item.expr, OR, if item.alias.None? then k else Gap(Word(sp, "AS", Gap(Ident(item.alias.value, k)))))
  }

  function ShowReturnItems(sp: Spelling, items: seq<ReturnItem>, k: Pieces): Pieces
    decreases |items|
  {
    if items == [] then k
    else ShowReturnItem(sp, items[0], if |items| == 1 then k else Sign(Comma, Gap(ShowReturnItems(sp, items[1..], k))))
  }

  function ShowSort(sp: Spelling, item: SortItem, k: Pieces): Pieces {
    ShowExpr(sp, item.expr, OR, if item.descending then Gap(Word(sp, "DESC", k)) else if sp.asc(item) then Gap(Word(sp, "ASC", k)) else k)
  }

  function ShowSorts(sp: Spelling, items: seq<SortItem>, k: Pieces): Pieces
    decreases |items|
  {
    if items == [] then k
    else ShowSort(sp, items[0], if |items| == 1 then k else Sign(Comma, Gap(ShowSorts(sp, items[1..], k))))
  }

  function ShowOptional(sp: Spelling, word: string, e: Option<Expr>, k: Pieces): Pieces {
    if e.None? then k else Gap(Word(sp, word, Gap(ShowExpr(sp, e.value, OR, k))))
  }

  function ShowOrder(sp: Spelling, orderBy: Option<seq<SortItem>>, k: Pieces): Pieces {
    if orderBy.None? || orderBy.value == [] then k
    else Gap(Word(sp, "ORDER", Gap(Word(sp, "BY", Gap(ShowSorts(sp, orderBy.value, k))))))
  }

  function ShowProjection(sp: Spelling, p: Projection, k: Pieces): Pieces {
    var slice := ShowOptional(sp, "SKIP", p.skip, ShowOptional(sp, "LIMIT", p.limit, k));
    var items := Gap(ShowReturnItems(sp, p.items, ShowWhere(sp, p.where, ShowOrder(sp, p.orderBy, slice))));
    Word(sp, if p.isReturn then "RETURN" else "WITH", if p.distinct then Gap(Word(sp, "DISTINCT", items)) else items)
  }

  // ---- queries ------------------------------------------------------------------------------------------------

  /** Clauses and the projection of a part are joined by spaces; `k` is what follows the part. */
  function ShowClauses(sp: Spelling, clauses: seq<Clause>, projection: Option<Projection>, k: Pieces): Pieces
    requires forall c :: c in clauses ==> ClausePathsValid(c)
    decreases |clauses|
  {
    if clauses == [] then (if projection.None? then k else ShowProjection(sp, projection.value, k))
    else if |clauses| == 1 && projection.None? then ShowClause(sp, clauses[0], k)
    else ShowClause(sp, clauses[0], Gap(ShowClauses(sp, clauses[1..], projection, k)))
  }

  predicate PartPathsValid(part: QueryPart) {
    forall c :: c in part.reading ==> ClausePathsValid(c)
  }

  function ShowParts(sp: Spelling, parts: seq<QueryPart>, k: Pieces): Pieces
    requires forall p :: p in parts ==> PartPathsValid(p)
    decreases |parts|
  {
    if parts == [] then k
    else
      assert PartPathsValid(parts[0]);
      ShowClauses(sp, parts[0].reading, parts[0].projection, if |parts| == 1 then k else Gap(ShowParts(sp, parts[1..], k)))
  }

  predicate PathsAreValid(model: QueryModel) {
    forall p :: p in model.parts ==> PartPathsValid(p)
  }

  /** The text of a query. */
  function QueryText(model: QueryModel): string
    requires PathsAreValid(model)
  {
    TextOf(ShowParts(PLAIN, model.parts, Done))
  }
}
