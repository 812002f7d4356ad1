/** The query model: patterns, expressions, clauses and parts. */
module Query {
  import opened Wrappers
  import opened NumberText
  import opened Values

  datatype Direction = Outgoing | Incoming | Undirected
  datatype ComparisonOp = Eq | Neq | Lt | Lte | Gt | Gte
  datatype BooleanOp = And | Or | Not
  datatype ArithmeticOp = Add | Sub | Mul | Div | Mod
  datatype SetMode = SetProperty | MergeMap | Replace

  datatype Expr =
    | VariableRef(name: string)
    | PropertyAccess(variable: string, property: string)
    | Literal(value: Option<Scalar>) // None is null
    | Parameter(parameter: string)
    | Comparison(left: Expr, cmp: ComparisonOp, right: Expr)
    | Boolean(bop: BooleanOp, operands: seq<Expr>)
    | IsNull(operand: Expr, negated: bool)
    | In(operand: Expr, list: seq<Expr>)
    | Arithmetic(left: Expr, aop: ArithmeticOp, right: Expr)
    | UnaryMinus(operand: Expr)
    | ListLiteral(items: seq<Expr>)
    | MapLiteral(fields: seq<Field>)
    | Index(target: Expr, index: Expr)
    | Call(fname: string, args: seq<Expr>, distinct: bool, star: bool)

  /** One entry of a map literal, in source order. */
  datatype Field = Field(key: string, expr: Expr)

  datatype Property = Property(key: string, value: Scalar)

  datatype NodePattern = NodePattern(variable: Option<string>, labelName: Option<string>, properties: seq<Property>)

  datatype RelPattern = RelPattern(variable: Option<string>, relType: Option<string>, direction: Direction,
                                   properties: seq<Property>, minHops: Option<nat>, maxHops: Option<nat>) {
    predicate IsVariableLength() {
      minHops.Some? || maxHops.Some?
    }
  }

  datatype PatternPath = PatternPath(nodes: seq<NodePattern>, rels: seq<RelPattern>, pathVariable: Option<string>) {
    predicate Valid() {
      |nodes| == |rels| + 1
    }
  }

  datatype SetItem = SetItem(variable: string, property: Option<string>, value: Expr, mode: SetMode)

  datatype PropertyRef = PropertyRef(variable: string, property: string)

  datatype Clause =
    | Match(paths: seq<PatternPath>, where: Option<Expr>, optional: bool)
    | Unwind(expr: Expr, variable: string)
    | Create(paths: seq<PatternPath>)
    | Merge(pattern: PatternPath, onCreate: seq<SetItem>, onMatch: seq<SetItem>)
    | SetClause(items: seq<SetItem>)
    | Delete(targets: seq<Expr>, detach: bool)
    | Remove(properties: seq<PropertyRef>)
  {
    predicate IsWriting() {
      !Match? && !Unwind?
    }
  }

  /** The column name of an unaliased expression. */
  function DefaultName(e: Expr): string {
    match e
    case VariableRef(name) => name
    case PropertyAccess(variable, property) => variable + "." + property
    case Literal(None) => "null"
    case Literal(Some(Num(n))) => Shortest(n)
    case Literal(Some(Str(s))) => s
    case Literal(Some(Bool(b))) => BoolText(b)
    case Parameter(name) => "$" + name
    case Comparison(_, _, _) => "comparison"
    case Boolean(_, _) => "boolean"
    case IsNull(_, _) => "isNull"
    case In(_, _) => "in"
    case Arithmetic(_, _, _) => "arithmetic"
    case UnaryMinus(_) => "negate"
    case ListLiteral(_) => "list"
    case MapLiteral(_) => "map"
    case Index(_, _) => "index"
    case Call(fname, _, _, _) => fname
  }

  datatype ReturnItem = ReturnItem(expr: Expr, alias: Option<string>) {
    function ColumnName(): string {
      if alias.Some? then alias.value else DefaultName(expr)
    }
  }

  datatype SortItem = SortItem(expr: Expr, descending: bool)

  datatype Projection = Projection(items: seq<ReturnItem>, distinct: bool, orderBy: Option<seq<SortItem>>,
                                   skip: Option<Expr>, limit: Option<Expr>, isReturn: bool, where: Option<Expr>)

  datatype QueryPart = QueryPart(reading: seq<Clause>, projection: Option<Projection>)

  datatype QueryModel = QueryModel(parts: seq<QueryPart>) {
    predicate HasWrites() {
      exists i, j :: 0 <= i < |parts| && 0 <= j < |parts[i].reading| && parts[i].reading[j].IsWriting()
    }
  }
}
