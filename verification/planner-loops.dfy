/**
 The planner and the push-down analysis as they run: loops that reassign the operator built so far and add to a set of
 bound variables the whole part shares. Each method leaves what the planner's and the analysis's functions say.
 */
module PlannerLoops {
  import opened Wrappers
  import opened Values
  import opened Query
  import opened Graphs
  import opened Operators
  import opened Planner
  import opened PushDown
  import Ordering

  /** The variables bound so far, shared by everything that compiles one part. */
  class Scope {
    var bound: set<string>

    constructor (initial: set<string>)
      ensures bound == initial
    {
      bound := initial;
    }

    method Add(variable: Option<string>)
      modifies this
      ensures bound == Bind(old(bound), variable)
    {
      if variable.Some? {
        bound := bound + {variable.value};
      }
    }
  }

  class LogicalPlanner {
    const options: Options

    constructor (options: Options)
      ensures this.options == options
    {
      this.options := options;
    }

    method FoldNodeProperties(op: Op, properties: seq<Property>, name: string) returns (r: Op)
      ensures r == FoldProperties(op, properties, name)
    {
      r := op;
      for i := 0 to |properties|
        invariant FoldProperties(r, properties[i..], name) == FoldProperties(op, properties, name)
      {
        assert properties[i..][0] == properties[i] && properties[i..][1..] == properties[i + 1..];
        r := FilterOp(r, PropertyTest(name, properties[i]));
      }
    }

    method FoldReusedConstraints(op: Op, node: NodePattern, name: string) returns (r: Op)
      ensures r == FoldReused(op, node, name)
    {
      var labelled := if node.labelName.None? then op else LabelFilter(op, name, node.labelName.value);
      r := FoldNodeProperties(labelled, node.properties, name);
    }

    method ValidateRels(rels: seq<RelPattern>) returns (error: Option<PlanError>)
      ensures error == RelError(options.schema, rels)
    {
      for i := 0 to |rels|
        invariant RelError(options.schema, rels) == RelError(options.schema, rels[i..])
      {
        assert rels[i..][0] == rels[i] && rels[i..][1..] == rels[i + 1..];
        if rels[i].properties != [] {
          return Some(RelPropsUnsupported);
        }
        if rels[i].relType.Some? && !options.schema.HasRelationshipType(rels[i].relType.value) {
          return Some(UnknownRelType(rels[i].relType.value));
        }
      }
      error := None;
    }

    method PathVarRel(rels: seq<RelPattern>) returns (last: int)
      ensures last == LastVarLength(rels)
    {
      last := -1;
      for i := 0 to |rels|
        invariant last == LastVarLength(rels[..i])
      {
        assert rels[..i + 1][..i] == rels[..i];
        if rels[i].IsVariableLength() {
          last := i;
        }
      }
      assert rels[..|rels|] == rels;
    }

    method CompileAnchor(input: Option<Op>, path: PatternPath, scope: Scope) returns (op: Op)
      requires path.Valid()
      modifies scope
      ensures Anchor(input, path, old(scope.bound)) == State(Some(op), scope.bound)
    {
      hide FoldProperties, FoldReused;
      var node, name := path.nodes[0], NodeName(path, 0);
      if IsBound(scope.bound, node.variable) && input.Some? {
        op := FoldReusedConstraints(input.value, node, name);
      } else {
        var scan := Scan(node, name);
        op := FoldNodeProperties(if input.None? then scan else CartesianProduct(input.value, scan), node.properties, name);
        scope.Add(node.variable);
      }
    }

    /** One relationship; an error leaves the scope as it was. */
    method CompileStep(before: Op, path: PatternPath, i: nat, pathVarRel: int, scope: Scope) returns (r: Result<Op, PlanError>)
      requires path.Valid() && i < |path.rels| && pathVarRel == LastVarLength(path.rels)
      modifies scope
      ensures CompileRel(options, before, path, i, old(scope.bound)) == if r.Err? then Err(r.error) else Ok(State(Some(r.value), scope.bound))
    {
      hide FoldProperties, FoldReused, LastVarLength;
      var rel, node := path.rels[i], path.nodes[i + 1];
      var from, to := NodeName(path, i), NodeName(path, i + 1);
      var targetBound := IsBound(scope.bound, node.variable);
      var op;
      if rel.IsVariableLength() {
        if targetBound {
          return Err(VarLengthIntoBound);
        }
        op := VarLengthExpand(before, from, to, rel, HopOf(rel, node, options.maxVarLength), if i == pathVarRel then path.pathVariable else None);
      } else if targetBound {
        op := FoldReusedConstraints(ExpandInto(before, from, to, rel), node, to);
        return Ok(op);
      } else {
        op := ExpandOp(before, from, to, rel, node.labelName);
      }
      op := FoldNodeProperties(op, node.properties, to);
      scope.Add(node.variable);
      r := Ok(op);
    }

    method CompilePath(input: Option<Op>, path: PatternPath, scope: Scope) returns (r: Result<Op, PlanError>)
      requires path.Valid()
      modifies scope
      ensures Planner.CompilePath(options, input, path, old(scope.bound)) == if r.Err? then Err(r.error) else Ok(State(Some(r.value), scope.bound))
    {
      hide RelError, Anchor, CompileRel, LastVarLength;
      var error := ValidateRels(path.rels);
      if error.Some? {
        return Err(error.value);
      }
      var op := CompileAnchor(input, path, scope);
      var pathVarRel := PathVarRel(path.rels);
      if path.pathVariable.Some? && pathVarRel < 0 {
        return Err(PathVarNeedsVarLength);
      }
      ghost var whole := CompileRels(options, op, path, 0, scope.bound);
      for i := 0 to |path.rels|
        invariant whole == CompileRels(options, op, path, i, scope.bound)
      {
        var next := CompileStep(op, path, i, pathVarRel, scope);
        if next.Err? {
          return Err(next.error);
        }
        op := next.value;
      }
      r := Ok(op);
    }

    method CompilePattern(input: Option<Op>, paths: seq<PatternPath>, where: Option<Expr>, scope: Scope) returns (r: Result<Op, PlanError>)
      requires forall p :: p in paths ==> p.Valid()
      modifies scope
      ensures Planner.CompilePattern(options, input, paths, where, old(scope.bound)) == if r.Err? then Err(r.error) else Ok(State(Some(r.value), scope.bound))
    {
      hide Planner.CompilePath;
      var op := input;
      ghost var whole := CompilePaths(options, input, paths, scope.bound);
      assert paths[0..] == paths;
      for i := 0 to |paths|
        invariant whole == CompilePaths(options, op, paths[i..], scope.bound)
      {
        assert paths[i..][0] == paths[i] && paths[i..][1..] == paths[i + 1..];
        var next := CompilePath(op, paths[i], scope);
        if next.Err? {
          return Err(next.error);
        }
        op := Some(next.value);
      }
      var built := State(op, scope.bound).Input();
      r := Ok(if where.None? then built else FilterOp(built, where.value));
    }

    /** An optional pattern is compiled on its own scope; the part's gets every variable it may bind. */
    method CompileMatch(input: Option<Op>, clause: Clause, scope: Scope) returns (r: Result<Op, PlanError>)
      requires clause.Match? && forall p :: p in clause.paths ==> p.Valid()
      modifies scope
      ensures Planner.CompileMatch(options, input, clause, old(scope.bound)) == if r.Err? then Err(r.error) else Ok(State(Some(r.value), scope.bound))
    {
      hide Planner.CompilePattern, Declared, Unbound;
      if !clause.optional {
        r := CompilePattern(input, clause.paths, clause.where, scope);
        return;
      }
      var vars := Unbound(Declared(clause.paths), scope.bound);
      var own := new Scope(scope.bound);
      var inner := CompilePattern(Some(Argument), clause.paths, clause.where, own);
      if inner.Err? {
        return Err(inner.error);
      }
      ghost var before := scope.bound;
      for i := 0 to |vars|
        invariant scope.bound == before + SetOf(vars[..i])
      {
        assert vars[..i + 1] == vars[..i] + [vars[i]];
        scope.Add(Some(vars[i]));
      }
      assert vars[..|vars|] == vars;
      r := Ok(OptionalApply(State(input, scope.bound).Input(), inner.value, vars));
    }

    method CompilePart(part: QueryPart, input: Option<Op>, inScope: set<string>, isFinal: bool) returns (r: Result<State, PlanError>)
      requires ValidPart(part)
      ensures r == Planner.CompilePart(options, part, input, inScope, isFinal)
    {
      hide Planner.CompileMatch, PartError, BuildProjection;
      var error := PartError(part, inScope);
      if error.Some? {
        return Err(error.value);
      }
      var scope := new Scope(inScope);
      var op := input;
      assert part.reading[0..] == part.reading;
      for i := 0 to |part.reading|
        invariant fresh(scope)
        invariant CompileClauses(options, State(op, scope.bound), part.reading[i..]) == CompileClauses(options, State(input, inScope), part.reading)
      {
        assert part.reading[i..][0] == part.reading[i] && part.reading[i..][1..] == part.reading[i + 1..];
        assert ValidClause(part.reading[i]);
        match part.reading[i]
        case Match(_, _, _) =>
          var next := CompileMatch(op, part.reading[i], scope);
          if next.Err? {
            return Err(next.error);
          }
          op := Some(next.value);
        case Unwind(expr, variable) =>
          op := Some(UnwindOp(State(op, scope.bound).Input(), expr, variable));
          scope.Add(Some(variable));
        case _ =>
          return Err(WritesNotExecutable);
      }
      var built := State(op, scope.bound).Input();
      if part.projection.None? {
        return Ok(State(Some(built), inScope));
      }
      var p := part.projection.value;
      var projected := BuildProjection(options, built, p, isFinal && options.ensureOrder);
      if projected.Err? {
        return Err(projected.error);
      }
      r := Ok(State(Some(projected.value), if p.isReturn then inScope else SetOf(Ordering.Columns(p.items))));
    }

    method Plan(model: QueryModel) returns (r: Result<Op, PlanError>)
      requires ValidModel(model)
      ensures r == Planner.Plan(options, model)
    {
      hide Planner.CompilePart;
      var state := State(None, {});
      assert model.parts[0..] == model.parts;
      for i := 0 to |model.parts|
        invariant CompileParts(options, model.parts, State(None, {})) == CompileParts(options, model.parts[i..], state)
      {
        assert model.parts[i..][0] == model.parts[i] && model.parts[i..][1..] == model.parts[i + 1..];
        var next := CompilePart(model.parts[i], state.op, state.bound, i == |model.parts| - 1);
        if next.Err? {
          return Err(next.error);
        }
        state := next.value;
      }
      r := Ok(state.Input());
    }
  }

  // ---- the push-down analysis ---------------------------------------------------------------------------------

  /** What was found, then what the rest finds; nothing once the rest gives up. */
  function Then(found: seq<Occurrence>, rest: Option<seq<Occurrence>>): Option<seq<Occurrence>> {
    if rest.None? then None else Some(found + rest.value)
  }

  lemma ThenTwice(a: seq<Occurrence>, b: seq<Occurrence>, rest: Option<seq<Occurrence>>)
    ensures Then(a, Then(b, rest)) == Then(a + b, rest)
  {
    if rest.Some? {
      assert a + (b + rest.value) == a + b + rest.value;
    }
  }

  class CypherPushDown {
    const schema: Schema
    const parameters: map<string, Value>
    var found: seq<Occurrence>
    var scope: set<string>

    constructor (schema: Schema, parameters: map<string, Value>)
      ensures this.schema == schema && this.parameters == parameters && found == [] && scope == {}
    {
      this.schema, this.parameters, found, scope := schema, parameters, [], {};
    }

    /** The labelled nodes of one path; false when the analysis gives up. */
    method AddNodes(nodes: seq<NodePattern>, clause: Clause) returns (ok: bool)
      modifies this
      ensures ok == NodeOccurrences(schema, nodes, clause, old(scope)).Some?
      ensures ok ==> found == old(found) + NodeOccurrences(schema, nodes, clause, old(scope)).value && scope == ScopeAfterNodes(nodes, old(scope))
    {
      ghost var whole := Then(found, NodeOccurrences(schema, nodes, clause, scope));
      assert nodes[0..] == nodes;
      for i := 0 to |nodes|
        invariant whole == Then(found, NodeOccurrences(schema, nodes[i..], clause, scope))
        invariant ScopeAfterNodes(nodes, old(scope)) == ScopeAfterNodes(nodes[i..], scope)
      {
        var node := nodes[i];
        assert nodes[i..][0] == node && nodes[i..][1..] == nodes[i + 1..];
        ScopeOfNode(nodes[i..], scope);
        if node.labelName.Some? {
          if node.labelName.value !in schema.concepts {
            return false;
          }
          var o := Occurrence(schema.concepts[node.labelName.value], node, clause);
          ThenTwice(found, [o], NodeOccurrences(schema, nodes[i + 1..], clause, Bind(scope, node.variable)));
          found := found + [o];
        } else if node.variable.None? || node.variable.value !in scope {
          return false;
        }
        scope := Bind(scope, node.variable);
      }
      assert nodes[|nodes|..] == [];
      assert scope + {} == scope && found + [] == found;
      ok := true;
    }

    method AddPaths(paths: seq<PatternPath>, clause: Clause) returns (ok: bool)
      modifies this
      ensures ok == PathOccurrences(schema, paths, clause, old(scope)).Some?
      ensures ok ==> found == old(found) + PathOccurrences(schema, paths, clause, old(scope)).value && scope == ScopeAfterPaths(paths, old(scope))
    {
      hide NodeOccurrences, ScopeAfterNodes, AnyVarLength, RelVariables;
      ghost var whole := Then(found, PathOccurrences(schema, paths, clause, scope));
      assert paths[0..] == paths;
      for i := 0 to |paths|
        invariant whole == Then(found, PathOccurrences(schema, paths[i..], clause, scope))
        invariant ScopeAfterPaths(paths, old(scope)) == ScopeAfterPaths(paths[i..], scope)
      {
        var path := paths[i];
        assert paths[i..][0] == path && paths[i..][1..] == paths[i + 1..];
        if AnyVarLength(path.rels) {
          return false;
        }
        ghost var before, was := found, scope;
        var nodesOk := AddNodes(path.nodes, clause);
        if !nodesOk {
          return false;
        }
        AddRelVariables(path.rels);
        scope := Bind(scope, path.pathVariable);
        ThenTwice(before, NodeOccurrences(schema, path.nodes, clause, was).value, PathOccurrences(schema, paths[i + 1..], clause, scope));
      }
      assert paths[|paths|..] == [] && found + [] == found;
      ok := true;
    }

    method AddRelVariables(rels: seq<RelPattern>)
      modifies `scope
      ensures scope == old(scope) + SetOf(RelVariables(rels))
    {
      assert rels[0..] == rels;
      for i := 0 to |rels|
        invariant scope + SetOf(RelVariables(rels[i..])) == old(scope) + SetOf(RelVariables(rels))
      {
        assert rels[i..][0] == rels[i] && rels[i..][1..] == rels[i + 1..];
        assert SetOf(RelVariables(rels[i..])) == (if rels[i].variable.Some? then {rels[i].variable.value} else {}) + SetOf(RelVariables(rels[i + 1..]));
        scope := Bind(scope, rels[i].variable);
      }
      assert rels[|rels|..] == [];
    }

    method AddClauses(clauses: seq<Clause>) returns (ok: bool)
      modifies this
      ensures ok == ClauseOccurrences(schema, clauses, old(scope)).Some?
      ensures ok ==> found == old(found) + ClauseOccurrences(schema, clauses, old(scope)).value && scope == ScopeAfterClauses(clauses, old(scope))
    {
      hide PathOccurrences, ScopeAfterPaths;
      ghost var whole := Then(found, ClauseOccurrences(schema, clauses, scope));
      assert clauses[0..] == clauses;
      for i := 0 to |clauses|
        invariant whole == Then(found, ClauseOccurrences(schema, clauses[i..], scope))
        invariant ScopeAfterClauses(clauses, old(scope)) == ScopeAfterClauses(clauses[i..], scope)
      {
        assert clauses[i..][0] == clauses[i] && clauses[i..][1..] == clauses[i + 1..];
        ghost var before, was := found, scope;
        match clauses[i]
        case Unwind(_, variable) =>
          scope := scope + {variable};
          ThenTwice(before, [], ClauseOccurrences(schema, clauses[i + 1..], scope));
          assert before + [] == before;
        case Match(paths, _, _) =>
          var pathsOk := AddPaths(paths, clauses[i]);
          if !pathsOk {
            return false;
          }
          ThenTwice(before, PathOccurrences(schema, paths, clauses[i], was).value, ClauseOccurrences(schema, clauses[i + 1..], scope));
        case _ =>
          return false;
      }
      assert clauses[|clauses|..] == [] && found + [] == found;
      ok := true;
    }

    method OccurrencesOf(parts: seq<QueryPart>) returns (r: Option<seq<Occurrence>>)
      modifies this
      ensures r == PartOccurrences(schema, parts, {})
    {
      hide ClauseOccurrences, ScopeAfterClauses;
      found, scope := [], {};
      assert parts[0..] == parts;
      ghost var whole := PartOccurrences(schema, parts, {});
      if whole.Some? {
        assert [] + whole.value == whole.value;
      }
      for i := 0 to |parts|
        invariant whole == Then(found, PartOccurrences(schema, parts[i..], scope))
      {
        assert parts[i..][0] == parts[i] && parts[i..][1..] == parts[i + 1..];
        ghost var before, was := found, scope;
        var ok := AddClauses(parts[i].reading);
        if !ok {
          return None;
        }
        if parts[i].projection.Some? {
          scope := SetOf(Ordering.Columns(parts[i].projection.value.items));
        }
        ThenTwice(before, ClauseOccurrences(schema, parts[i].reading, was).value, PartOccurrences(schema, parts[i + 1..], scope));
      }
      assert parts[|parts|..] == [] && found + [] == found;
      r := Some(found);
    }

    method CountScanners(all: seq<Occurrence>, concept: string) returns (n: nat)
      ensures n == Scanners(schema, all, concept)
    {
      n := 0;
      assert all[0..] == all;
      for i := 0 to |all|
        invariant n + Scanners(schema, all[i..], concept) == Scanners(schema, all, concept)
      {
        assert all[i..][0] == all[i] && all[i..][1..] == all[i + 1..];
        if schema.Matches(all[i].concept, concept) {
          n := n + 1;
        }
      }
    }

    method Analyze(model: QueryModel) returns (filters: map<string, seq<Term>>)
      modifies this
      ensures filters == PushDown.Analyze(schema, parameters, model)
    {
      hide PartOccurrences, TermsOf;
      if model.HasWrites() {
        return map[];
      }
      var all := OccurrencesOf(model.parts);
      if all.None? {
        return map[];
      }
      filters := map[];
      for i := 0 to |all.value|
        invariant filters == FiltersOf(schema, all.value, all.value[..i], parameters)
      {
        assert all.value[..i + 1][..i] == all.value[..i];
        var o := all.value[i];
        if o.clause.Match? && !o.clause.optional {
          var scanners := CountScanners(all.value, o.concept);
          var terms := TermsOf(o, parameters);
          if scanners == 1 && terms != [] {
            filters := filters[o.concept := terms];
          }
        }
      }
      assert all.value[..|all.value|] == all.value;
    }
  }

  lemma ScopeOfNode(nodes: seq<NodePattern>, scope: set<string>)
    requires nodes != []
    ensures ScopeAfterNodes(nodes, scope) == ScopeAfterNodes(nodes[1..], Bind(scope, nodes[0].variable))
  {
    assert SetOf(NodeVariables(nodes)) == (if nodes[0].variable.Some? then {nodes[0].variable.value} else {}) + SetOf(NodeVariables(nodes[1..]));
  }
}
