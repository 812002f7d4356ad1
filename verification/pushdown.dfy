/**
 The push-down analysis: which per-concept filters a read query lets a source apply before the query runs.
 */
module PushDown {
  import opened Wrappers
  import opened Values
  import opened Query
  import opened Graphs
  import opened Planner
  import Ordering

  /** One equality the source may apply. */
  datatype Term = Term(field: string, value: Scalar)

  /** One labelled node pattern: the concept it scans and the clause it sits in. */
  datatype Occurrence = Occurrence(concept: string, node: NodePattern, clause: Clause)

  // ---- where concepts are scanned -----------------------------------------------------------------------------

  function ScopeAfterNodes(nodes: seq<NodePattern>, scope: set<string>): set<string> {
    scope + SetOf(NodeVariables(nodes))
  }

  function ScopeAfterPath(path: PatternPath, scope: set<string>): set<string> {
    Bind(ScopeAfterNodes(path.nodes, scope) + SetOf(RelVariables(path.rels)), path.pathVariable)
  }

  function ScopeAfterPaths(paths: seq<PatternPath>, scope: set<string>): set<string>
    decreases |paths|
  {
    if paths == [] then scope else ScopeAfterPaths(paths[1..], ScopeAfterPath(paths[0], scope))
  }

  function ScopeAfterClause(clause: Clause, scope: set<string>): set<string> {
    match clause
    case Match(paths, _, _) => ScopeAfterPaths(paths, scope)
    case Unwind(_, variable) => scope + {variable}
    case _ => scope
  }

  function ScopeAfterClauses(clauses: seq<Clause>, scope: set<string>): set<string>
    decreases |clauses|
  {
    if clauses == [] then scope else ScopeAfterClauses(clauses[1..], ScopeAfterClause(clauses[0], scope))
  }

  /** The labelled nodes of a path; None when a node could be of any concept or a label names none. */
  function NodeOccurrences(schema: Schema, nodes: seq<NodePattern>, clause: Clause, scope: set<string>): Option<seq<Occurrence>>
    decreases |nodes|
  {
    if nodes == [] then Some([])
    else
      var node := nodes[0];
      var rest := NodeOccurrences(schema, nodes[1..], clause, Bind(scope, node.variable));
      if node.labelName.Some? then
        if node.labelName.value !in schema.concepts || rest.None? then None
        else Some([Occurrence(schema.concepts[node.labelName.value], node, clause)] + rest.value)
      else if node.variable.None? || node.variable.value !in scope then None
      else rest
  }

  predicate AnyVarLength(rels: seq<RelPattern>) {
    exists r :: r in rels && r.IsVariableLength()
  }

  function PathOccurrences(schema: Schema, paths: seq<PatternPath>, clause: Clause, scope: set<string>): Option<seq<Occurrence>>
    decreases |paths|
  {
    if paths == [] then Some([])
    else if AnyVarLength(paths[0].rels) then None
    else
      var here := NodeOccurrences(schema, paths[0].nodes, clause, scope);
      var rest := PathOccurrences(schema, paths[1..], clause, ScopeAfterPath(paths[0], scope));
      if here.None? || rest.None? then None else Some(here.value + rest.value)
  }

  function ClauseOccurrences(schema: Schema, clauses: seq<Clause>, scope: set<string>): Option<seq<Occurrence>>
    decreases |clauses|
  {
    if clauses == [] then Some([])
    else
      var here := match clauses[0]
                  case Match(paths, _, _) => PathOccurrences(schema, paths, clauses[0], scope)
                  case Unwind(_, _) => Some([])
                  case _ => None;
      var rest := ClauseOccurrences(schema, clauses[1..], ScopeAfterClause(clauses[0], scope));
      if here.None? || rest.None? then None else Some(here.value + rest.value)
  }

  function ScopeAfterPart(part: QueryPart, scope: set<string>): set<string> {
    if part.projection.None? then ScopeAfterClauses(part.reading, scope)
    else SetOf(Ordering.Columns(part.projection.value.items))
  }

  function PartOccurrences(schema: Schema, parts: seq<QueryPart>, scope: set<string>): Option<seq<Occurrence>>
    decreases |parts|
  {
    if parts == [] then Some([])
    else
      var here := ClauseOccurrences(schema, parts[0].reading, scope);
      var rest := PartOccurrences(schema, parts[1..], ScopeAfterPart(parts[0], scope));
      if here.None? || rest.None? then None else Some(here.value + rest.value)
  }

  // ---- what may be pushed -------------------------------------------------------------------------------------

  function Conjuncts(e: Expr): seq<Expr>
    decreases e, 0
  {
    if e.Boolean? && e.bop.And? then ConjunctsOfAll(e.operands) else [e]
  }

  function ConjunctsOfAll(es: seq<Expr>): seq<Expr>
    decreases es, 1
  {
    if es == [] then [] else Conjuncts(es[0]) + ConjunctsOfAll(es[1..])
  }

  function ConstantOf(e: Expr, parameters: map<string, Value>): Option<Scalar> {
    match e
    case Literal(value) => value
    case Parameter(name) =>
      if name in parameters && parameters[name].ScalarV? then Some(parameters[name].scalar) else None
    case _ => None
  }

  /** `v.p = constant`, either way around. */
  function TermOf(e: Expr, variable: string, parameters: map<string, Value>): Option<Term> {
    if !e.Comparison? || !e.cmp.Eq? then None
    else
      var (property, other) := if e.left.PropertyAccess? then (e.left, e.right) else (e.right, e.left);
      if !property.PropertyAccess? || property.variable != variable then None
      else
        var value := ConstantOf(other, parameters);
        if value.None? then None else Some(Term(property.property, value.value))
  }

  function TermsOfAll(es: seq<Expr>, variable: string, parameters: map<string, Value>): seq<Term> {
    if es == [] then []
    else
      var t := TermOf(es[0], variable, parameters);
      (if t.Some? then [t.value] else []) + TermsOfAll(es[1..], variable, parameters)
  }

  function PropertyTerms(properties: seq<Property>): seq<Term> {
    if properties == [] then [] else [Term(properties[0].key, properties[0].value)] + PropertyTerms(properties[1..])
  }

  function WhereTerms(o: Occurrence, parameters: map<string, Value>): seq<Term>
    requires o.clause.Match?
  {
    if o.node.variable.None? || o.clause.where.None? then []
    else TermsOfAll(Conjuncts(o.clause.where.value), o.node.variable.value, parameters)
  }

  function TermsOf(o: Occurrence, parameters: map<string, Value>): seq<Term>
    requires o.clause.Match?
  {
    PropertyTerms(o.node.properties) + WhereTerms(o, parameters)
  }

  /** How many of the patterns can scan instances of a concept. */
  function Scanners(schema: Schema, os: seq<Occurrence>, concept: string): nat {
    if os == [] then 0
    else (if schema.Matches(os[0].concept, concept) then 1 else 0) + Scanners(schema, os[1..], concept)
  }

  predicate Pushes(schema: Schema, all: seq<Occurrence>, o: Occurrence, parameters: map<string, Value>) {
    o.clause.Match? && !o.clause.optional && Scanners(schema, all, o.concept) == 1 && TermsOf(o, parameters) != []
  }

  /** A concept is filtered when one non-optional pattern is its only scanner and pins something. */
  function FiltersOf(schema: Schema, all: seq<Occurrence>, rest: seq<Occurrence>, parameters: map<string, Value>): map<string, seq<Term>> {
    if rest == [] then map[]
    else
      var n := |rest| - 1;
      var before := FiltersOf(schema, all, rest[..n], parameters);
      if Pushes(schema, all, rest[n], parameters) then before[rest[n].concept := TermsOf(rest[n], parameters)] else before
  }

  /** The filters of a query; none when it writes or the analysis gives up. */
  function Analyze(schema: Schema, parameters: map<string, Value>, model: QueryModel): map<string, seq<Term>> {
    if model.HasWrites() then map[]
    else
      var all := PartOccurrences(schema, model.parts, {});
      if all.None? then map[] else FiltersOf(schema, all.value, all.value, parameters)
  }

  /** Whether a source that filters by exact equality would send this instance. */
  predicate Survives(filters: map<string, seq<Term>>, n: Node) {
    n.concept !in filters || forall t :: t in filters[n.concept] ==> t.field in n.attrs && n.attrs[t.field] == t.value
  }
}
