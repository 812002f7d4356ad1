/**
 Expressions over a row. Scalar functions and floating-point arithmetic are parameters of the environment; an unknown
 variable, parameter or function yields null or whatever the environment says, so evaluation is total.
 */
module Evaluation {
  import opened Wrappers
  import opened Numbers
  import opened Text
  import opened Values
  import opened Query

  type Row = map<string, Value>

  datatype Env = Env(parameters: map<string, Value>,
                     functions: (string, seq<Value>) -> Value,
                     arithmetic: (ArithmeticOp, Number, Number) -> Number)

  predicate Truthy(v: Value) {
    v == ScalarV(Bool(true))
  }

  function AttributeOf(node: Node, property: string): Value {
    if property in node.attrs then ScalarV(node.attrs[property]) else NullV
  }

  function EntryNamed(entries: seq<Entry>, key: string): (v: Value)
    ensures v == NullV || exists i :: 0 <= i < |entries| && entries[i].value == v
  {
    if entries == [] then NullV
    else if entries[0].key == key then assert entries[0].value == entries[0].value; entries[0].value
    else
      var v := EntryNamed(entries[1..], key);
      assert v == NullV || exists i :: 0 <= i < |entries| && entries[i].value == v by {
        if v != NullV {
          var i :| 0 <= i < |entries[1..]| && entries[1..][i].value == v;
          assert entries[i + 1].value == v;
        }
      }
      v
  }

  predicate CompareScalars(l: Scalar, op: ComparisonOp, r: Scalar) {
    TypeRank(ScalarV(l)) == TypeRank(ScalarV(r)) &&
    var c := Compare(ScalarV(l), ScalarV(r));
    match op
    case Eq => l == r
    case Neq => l != r
    case Lt => c < 0
    case Lte => c <= 0
    case Gt => c > 0
    case Gte => c >= 0
  }

  function EvaluateArithmetic(l: Value, op: ArithmeticOp, r: Value, env: Env): Value {
    match (l, r)
    case (ScalarV(Num(a)), ScalarV(Num(b))) =>
      if (op.Div? || op.Mod?) && b.m == 0 then NullV else ScalarV(Num(env.arithmetic(op, a, b)))
    case (ScalarV(Str(a)), ScalarV(Str(b))) => if op.Add? then ScalarV(Str(a + b)) else NullV
    case _ => NullV
  }

  /** An item by integer position, an entry by name; anything else is null. */
  function EvaluateIndex(target: Value, index: Value): Value {
    match (target, index)
    case (ListV(items), ScalarV(Num(n))) =>
      if n.e < 0 || n.m < 0 then NullV
      else
        var i := Scaled(n, 0);
        if 0 <= i < |items| then items[i] else NullV
    case (MapV(entries), ScalarV(Str(key))) => EntryNamed(entries, key)
    case _ => NullV
  }

  function Evaluate(e: Expr, row: Row, env: Env): Value
    decreases e, 0
  {
    match e
    case VariableRef(name) => if name in row then row[name] else NullV
    case PropertyAccess(variable, property) =>
      if variable !in row then NullV
      else (match row[variable]
            case MapV(entries) => EntryNamed(entries, property)
            case NodeV(node) => AttributeOf(node, property)
            case _ => NullV)
    case Literal(value) => if value.None? then NullV else ScalarV(value.value)
    case Parameter(name) => if name in env.parameters then env.parameters[name] else NullV
    case Comparison(left, op, right) =>
      var l, r := Evaluate(left, row, env), Evaluate(right, row, env);
      ScalarV(Bool(l.ScalarV? && r.ScalarV? && CompareScalars(l.scalar, op, r.scalar)))
    case Boolean(op, operands) =>
      var vs := EvaluateAll(operands, row, env);
      ScalarV(Bool(match op
                   case And => forall i :: 0 <= i < |vs| ==> Truthy(vs[i])
                   case Or => exists i :: 0 <= i < |vs| && Truthy(vs[i])
                   case Not => vs != [] && !Truthy(vs[0])))
    case IsNull(operand, negated) => ScalarV(Bool((Evaluate(operand, row, env) == NullV) != negated))
    case In(operand, list) =>
      var v, vs := Evaluate(operand, row, env), EvaluateAll(list, row, env);
      ScalarV(Bool(v.ScalarV? && v in vs))
    case Arithmetic(left, op, right) =>
      EvaluateArithmetic(Evaluate(left, row, env), op, Evaluate(right, row, env), env)
    case UnaryMinus(operand) =>
      var v := Evaluate(operand, row, env);
      if v.ScalarV? && v.scalar.Num? then ScalarV(Num(Decimal(-v.scalar.n.m, v.scalar.n.e))) else NullV
    case ListLiteral(items) => ListV(EvaluateAll(items, row, env))
    case MapLiteral(fields) => MapV(EvaluateFields(fields, row, env))
    case Index(target, index) => EvaluateIndex(Evaluate(target, row, env), Evaluate(index, row, env))
    case Call(fname, args, _, _) => env.functions(fname, EvaluateAll(args, row, env))
  }

  function EvaluateAll(es: seq<Expr>, row: Row, env: Env): (vs: seq<Value>)
    ensures |vs| == |es|
    ensures forall i :: 0 <= i < |es| ==> vs[i] == Evaluate(es[i], row, env)
    decreases es, 1
  {
    if es == [] then [] else [Evaluate(es[0], row, env)] + EvaluateAll(es[1..], row, env)
  }

  function EvaluateFields(fields: seq<Field>, row: Row, env: Env): (r: seq<Entry>)
    ensures |r| == |fields|
    decreases fields, 1
  {
    if fields == [] then []
    else [Entry(fields[0].key, Evaluate(fields[0].expr, row, env))] + EvaluateFields(fields[1..], row, env)
  }

  /** Whether a row passes a filter. */
  predicate Passes(predicate_: Expr, row: Row, env: Env) {
    Truthy(Evaluate(predicate_, row, env))
  }
}
