/**
 How much a query lets its sources filter.

 `TermsMean`: what a pattern pins is its inline properties and the conjuncts of its condition that equate a property of its
 variable with a constant. `FilteredIff`: a concept has a filter exactly if a non-optional pattern pins something of it and
 is the only one that can scan it. `LabelledQueriesAreAnalyzed`: no query whose nodes all have known labels and whose
 relationships have a fixed length is given up.
 */
module PushDownExtent {
  import opened Wrappers
  import opened Values
  import opened Query
  import opened Graphs
  import opened Planner
  import opened PushDown
  import Ordering

  // ---- what a pattern pins ------------------------------------------------------------------------------------

  predicate IsConstant(e: Expr, parameters: map<string, Value>, value: Scalar) {
    e == Literal(Some(value)) || exists name :: name in parameters && e == Parameter(name) && parameters[name] == ScalarV(value)
  }

  /** The conjunct equates the property of the variable with a constant, either way around. */
  predicate Pins(e: Expr, variable: string, parameters: map<string, Value>, t: Term) {
    && e.Comparison? && e.cmp.Eq?
    && ((e.left == PropertyAccess(variable, t.field) && IsConstant(e.right, parameters, t.value))
        || (e.right == PropertyAccess(variable, t.field) && IsConstant(e.left, parameters, t.value)))
  }

  lemma TermMeans(e: Expr, variable: string, parameters: map<string, Value>, t: Term)
    ensures TermOf(e, variable, parameters) == Some(t) <==> Pins(e, variable, parameters, t)
  {
  }

  lemma {:induction false} TermsOfAllMean(es: seq<Expr>, variable: string, parameters: map<string, Value>, t: Term)
    ensures t in TermsOfAll(es, variable, parameters) <==> exists i :: 0 <= i < |es| && Pins(es[i], variable, parameters, t)
  {
    hide TermOf, Pins;
    if es != [] {
      TermMeans(es[0], variable, parameters, t);
      TermsOfAllMean(es[1..], variable, parameters, t);
      if i :| 0 <= i < |es[1..]| && Pins(es[1..][i], variable, parameters, t) {
        assert es[i + 1] == es[1..][i];
      }
      if i :| 0 <= i < |es| && Pins(es[i], variable, parameters, t) {
        assert i > 0 ==> es[1..][i - 1] == es[i];
      }
    }
  }

  lemma {:induction false} PropertyTermsMean(properties: seq<Property>, t: Term)
    ensures t in PropertyTerms(properties) <==> exists p :: p in properties && p.key == t.field && p.value == t.value
  {
    if properties != [] {
      PropertyTermsMean(properties[1..], t);
      assert properties == [properties[0]] + properties[1..];
    }
  }

  /** Some conjunct of the condition pins the term. */
  ghost predicate PinnedByCondition(o: Occurrence, parameters: map<string, Value>, t: Term)
    requires o.clause.Match?
  {
    o.node.variable.Some? && o.clause.where.Some?
    && exists i :: 0 <= i < |Conjuncts(o.clause.where.value)| && Pins(Conjuncts(o.clause.where.value)[i], o.node.variable.value, parameters, t)
  }

  /** A pattern pins exactly its inline properties and what a conjunct of its condition says of its variable. */
  lemma TermsMean(o: Occurrence, parameters: map<string, Value>, t: Term)
    requires o.clause.Match?
    ensures t in TermsOf(o, parameters)
       <==> (exists p :: p in o.node.properties && p.key == t.field && p.value == t.value) || PinnedByCondition(o, parameters, t)
  {
    hide Pins;
    PropertyTermsMean(o.node.properties, t);
    if o.node.variable.Some? && o.clause.where.Some? {
      TermsOfAllMean(Conjuncts(o.clause.where.value), o.node.variable.value, parameters, t);
    }
  }

  /** The conjuncts of a conjunction are those of its operands; anything else is its own. */
  lemma {:induction false} ConjunctsMean(es: seq<Expr>, c: Expr)
    ensures c in Conjuncts(Boolean(And, es)) <==> exists i :: 0 <= i < |es| && c in Conjuncts(es[i])
  {
    if es != [] {
      ConjunctsMean(es[1..], c);
      assert Conjuncts(Boolean(And, es[1..])) == ConjunctsOfAll(es[1..]);
      if i :| 0 <= i < |es[1..]| && c in Conjuncts(es[1..][i]) {
        assert es[i + 1] == es[1..][i];
      }
      if i :| 0 <= i < |es| && c in Conjuncts(es[i]) {
        assert i > 0 ==> es[1..][i - 1] == es[i];
      }
    }
  }

  // ---- which concepts are filtered ----------------------------------------------------------------------------

  /** No other pattern can scan what this one scans. */
  ghost predicate OnlyScanner(schema: Schema, all: seq<Occurrence>, k: nat) {
    k < |all| && forall i :: 0 <= i < |all| && i != k ==> !schema.Matches(all[i].concept, all[k].concept)
  }

  lemma {:induction false} NoScanners(schema: Schema, os: seq<Occurrence>, concept: string)
    ensures Scanners(schema, os, concept) == 0 <==> forall i :: 0 <= i < |os| ==> !schema.Matches(os[i].concept, concept)
  {
    if os != [] {
      NoScanners(schema, os[1..], concept);
      assert forall i :: 0 < i < |os| ==> os[i] == os[1..][i - 1];
      assert forall i :: 0 <= i < |os[1..]| ==> os[1..][i] == os[i + 1];
    }
  }

  lemma {:induction false} OneScanner(schema: Schema, all: seq<Occurrence>, k: nat)
    requires k < |all| && schema.Matches(all[k].concept, all[k].concept)
    ensures Scanners(schema, all, all[k].concept) == 1 <==> OnlyScanner(schema, all, k)
  {
    var concept := all[k].concept;
    OneScannerAt(schema, all, concept, k);
  }

  lemma {:induction false} OneScannerAt(schema: Schema, os: seq<Occurrence>, concept: string, k: nat)
    requires k < |os| && schema.Matches(os[k].concept, concept)
    ensures Scanners(schema, os, concept) == 1 <==> forall i :: 0 <= i < |os| && i != k ==> !schema.Matches(os[i].concept, concept)
  {
    var rest := os[1..];
    assert forall i :: 0 < i < |os| ==> os[i] == rest[i - 1];
    assert forall i :: 0 <= i < |rest| ==> rest[i] == os[i + 1];
    NoScanners(schema, rest, concept);
    if k > 0 {
      OneScannerAt(schema, rest, concept, k - 1);
      if schema.Matches(os[0].concept, concept) {
        assert schema.Matches(rest[k - 1].concept, concept);
      }
    }
  }

  lemma {:induction false} FiltersAre(schema: Schema, all: seq<Occurrence>, n: nat, parameters: map<string, Value>, concept: string)
    requires n <= |all|
    ensures concept in FiltersOf(schema, all, all[..n], parameters)
       <==> exists k :: 0 <= k < n && all[k].concept == concept && Pushes(schema, all, all[k], parameters)
    ensures concept in FiltersOf(schema, all, all[..n], parameters) ==>
              exists k :: 0 <= k < n && all[k].concept == concept && Pushes(schema, all, all[k], parameters)
                          && FiltersOf(schema, all, all[..n], parameters)[concept] == TermsOf(all[k], parameters)
  {
    hide Pushes, TermsOf;
    if n > 0 {
      FiltersAre(schema, all, n - 1, parameters, concept);
      assert all[..n][..n - 1] == all[..n - 1];
      PushesMatches(schema, all, all[n - 1], parameters);
    }
  }

  lemma PushesMatches(schema: Schema, all: seq<Occurrence>, o: Occurrence, parameters: map<string, Value>)
    ensures Pushes(schema, all, o, parameters) ==> o.clause.Match?
  {
  }

  /** The pattern lets a source filter its concept. */
  ghost predicate Filters(schema: Schema, all: seq<Occurrence>, k: nat, parameters: map<string, Value>) {
    && k < |all| && all[k].clause.Match? && !all[k].clause.optional
    && OnlyScanner(schema, all, k) && exists t :: t in TermsOf(all[k], parameters)
  }

  lemma FiltersIff(schema: Schema, all: seq<Occurrence>, k: nat, parameters: map<string, Value>)
    requires k < |all| && schema.Matches(all[k].concept, all[k].concept)
    ensures Pushes(schema, all, all[k], parameters) <==> Filters(schema, all, k, parameters)
  {
    hide TermsOf;
    OneScanner(schema, all, k);
    if all[k].clause.Match? && TermsOf(all[k], parameters) != [] {
      assert TermsOf(all[k], parameters)[0] in TermsOf(all[k], parameters);
    }
  }

  ghost predicate AllKnown(schema: Schema, os: seq<Occurrence>) {
    forall i :: 0 <= i < |os| ==> os[i].concept in schema.supertypes
  }

  lemma {:induction false} NodesAreKnown(schema: Schema, nodes: seq<NodePattern>, clause: Clause, scope: set<string>)
    requires schema.Valid() && NodeOccurrences(schema, nodes, clause, scope).Some?
    ensures AllKnown(schema, NodeOccurrences(schema, nodes, clause, scope).value)
    decreases |nodes|
  {
    if nodes != [] {
      NodesAreKnown(schema, nodes[1..], clause, Bind(scope, nodes[0].variable));
    }
  }

  lemma {:induction false} PathsAreKnown(schema: Schema, paths: seq<PatternPath>, clause: Clause, scope: set<string>)
    requires schema.Valid() && PathOccurrences(schema, paths, clause, scope).Some?
    ensures AllKnown(schema, PathOccurrences(schema, paths, clause, scope).value)
    decreases |paths|
  {
    hide NodeOccurrences, ScopeAfterPath, AnyVarLength;
    if paths != [] {
      NodesAreKnown(schema, paths[0].nodes, clause, scope);
      PathsAreKnown(schema, paths[1..], clause, ScopeAfterPath(paths[0], scope));
    }
  }

  lemma {:induction false} ClausesAreKnown(schema: Schema, clauses: seq<Clause>, scope: set<string>)
    requires schema.Valid() && ClauseOccurrences(schema, clauses, scope).Some?
    ensures AllKnown(schema, ClauseOccurrences(schema, clauses, scope).value)
    decreases |clauses|
  {
    hide PathOccurrences, ScopeAfterClause;
    if clauses != [] {
      if clauses[0].Match? {
        PathsAreKnown(schema, clauses[0].paths, clauses[0], scope);
      }
      ClausesAreKnown(schema, clauses[1..], ScopeAfterClause(clauses[0], scope));
    }
  }

  lemma {:induction false} PartsAreKnown(schema: Schema, parts: seq<QueryPart>, scope: set<string>)
    requires schema.Valid() && PartOccurrences(schema, parts, scope).Some?
    ensures AllKnown(schema, PartOccurrences(schema, parts, scope).value)
    decreases |parts|
  {
    hide ClauseOccurrences, ScopeAfterPart;
    if parts != [] {
      ClausesAreKnown(schema, parts[0].reading, scope);
      PartsAreKnown(schema, parts[1..], ScopeAfterPart(parts[0], scope));
    }
  }

  /** A concept has a filter exactly if one pattern that pins something of it is its only scanner, and it is what that pattern pins. */
  lemma FilteredIff(schema: Schema, parameters: map<string, Value>, model: QueryModel, concept: string)
    requires schema.Valid() && !model.HasWrites() && PartOccurrences(schema, model.parts, {}).Some?
    ensures var all := PartOccurrences(schema, model.parts, {}).value;
            concept in Analyze(schema, parameters, model) <==> exists k: nat :: Filters(schema, all, k, parameters) && all[k].concept == concept
    ensures var all := PartOccurrences(schema, model.parts, {}).value;
            forall k: nat :: Filters(schema, all, k, parameters) && all[k].concept == concept ==>
              concept in Analyze(schema, parameters, model) && Analyze(schema, parameters, model)[concept] == TermsOf(all[k], parameters)
  {
    hide Pushes, TermsOf, PartOccurrences, Filters;
    var all := PartOccurrences(schema, model.parts, {}).value;
    assert all[..|all|] == all;
    FiltersAre(schema, all, |all|, parameters, concept);
    PartsAreKnown(schema, model.parts, {});
    forall k: nat | k < |all| ensures Pushes(schema, all, all[k], parameters) <==> Filters(schema, all, k, parameters) {
      FiltersIff(schema, all, k, parameters);
    }
    forall k: nat | Filters(schema, all, k, parameters) ensures k < |all| {
      FilterIsAt(schema, all, k, parameters);
    }
    forall j: nat, k: nat | j < |all| && k < |all| && all[j].concept == all[k].concept && Filters(schema, all, j, parameters) ensures j == k {
      OnlyOne(schema, all, j, k, parameters);
    }
  }

  lemma FilterIsAt(schema: Schema, all: seq<Occurrence>, k: nat, parameters: map<string, Value>)
    requires Filters(schema, all, k, parameters)
    ensures k < |all| && all[k].clause.Match?
  {
  }

  lemma OnlyOne(schema: Schema, all: seq<Occurrence>, j: nat, k: nat, parameters: map<string, Value>)
    requires j < |all| && k < |all| && all[j].concept == all[k].concept && Filters(schema, all, j, parameters) && schema.Matches(all[k].concept, all[k].concept)
    ensures j == k
  {
    hide TermsOf;
  }

  // ---- which queries are analyzed -----------------------------------------------------------------------------

  /** The node's concept can be told: it has a known label, or a variable bound before it. */
  predicate Told(schema: Schema, nodes: seq<NodePattern>, scope: set<string>, i: nat)
    requires i < |nodes|
  {
    if nodes[i].labelName.Some? then nodes[i].labelName.value in schema.concepts
    else nodes[i].variable.Some? && (nodes[i].variable.value in scope || exists j :: 0 <= j < i && nodes[j].variable == nodes[i].variable)
  }

  lemma {:induction false} NodesToldIff(schema: Schema, nodes: seq<NodePattern>, clause: Clause, scope: set<string>)
    ensures NodeOccurrences(schema, nodes, clause, scope).Some? <==> forall i :: 0 <= i < |nodes| ==> Told(schema, nodes, scope, i)
    ensures NodeOccurrences(schema, nodes, clause, scope).Some? ==>
              forall o :: o in NodeOccurrences(schema, nodes, clause, scope).value <==> exists i :: 0 <= i < |nodes| && IsOccurrence(schema, nodes[i], clause, o)
    decreases |nodes|
  {
    if nodes != [] {
      var rest, inner := nodes[1..], Bind(scope, nodes[0].variable);
      NodesToldIff(schema, rest, clause, inner);
      assert forall i :: 0 <= i < |rest| ==> rest[i] == nodes[i + 1];
      forall i: nat | i < |rest| ensures Told(schema, rest, inner, i) <==> Told(schema, nodes, scope, i + 1) {
        ToldNext(schema, nodes, scope, i);
      }
      assert (forall i :: 0 <= i < |nodes| ==> Told(schema, nodes, scope, i)) <==> Told(schema, nodes, scope, 0) && forall i: nat :: i < |rest| ==> Told(schema, rest, inner, i) by {
        assert forall i :: 0 < i < |nodes| ==> Told(schema, rest, inner, i - 1) == Told(schema, nodes, scope, i);
        assert forall i: nat :: i < |rest| ==> Told(schema, rest, inner, i) == Told(schema, nodes, scope, i + 1);
      }
      if NodeOccurrences(schema, nodes, clause, scope).Some? {
        forall o ensures o in NodeOccurrences(schema, nodes, clause, scope).value <==> exists i :: 0 <= i < |nodes| && IsOccurrence(schema, nodes[i], clause, o) {
          OccurrenceNext(schema, nodes, clause, o);
        }
      }
    }
  }

  predicate IsOccurrence(schema: Schema, node: NodePattern, clause: Clause, o: Occurrence) {
    node.labelName.Some? && node.labelName.value in schema.concepts && o == Occurrence(schema.concepts[node.labelName.value], node, clause)
  }

  lemma ToldNext(schema: Schema, nodes: seq<NodePattern>, scope: set<string>, i: nat)
    requires i + 1 < |nodes|
    ensures Told(schema, nodes[1..], Bind(scope, nodes[0].variable), i) <==> Told(schema, nodes, scope, i + 1)
  {
    var rest := nodes[1..];
    if j :| 0 <= j < i && rest[j].variable == rest[i].variable {
      assert nodes[j + 1].variable == nodes[i + 1].variable;
    }
    if j :| 0 <= j < i + 1 && nodes[j].variable == nodes[i + 1].variable {
      assert j > 0 ==> rest[j - 1].variable == rest[i].variable;
    }
  }

  lemma OccurrenceNext(schema: Schema, nodes: seq<NodePattern>, clause: Clause, o: Occurrence)
    requires nodes != []
    ensures (exists i :: 0 <= i < |nodes| && IsOccurrence(schema, nodes[i], clause, o))
       <==> IsOccurrence(schema, nodes[0], clause, o) || exists i :: 0 <= i < |nodes[1..]| && IsOccurrence(schema, nodes[1..][i], clause, o)
  {
    hide IsOccurrence;
    if i :| 0 <= i < |nodes[1..]| && IsOccurrence(schema, nodes[1..][i], clause, o) {
      assert nodes[i + 1] == nodes[1..][i];
    }
    if i :| 0 <= i < |nodes| && IsOccurrence(schema, nodes[i], clause, o) {
      assert i > 0 ==> nodes[1..][i - 1] == nodes[i];
    }
  }

  /** Every node has a known label, and every relationship a fixed length. */
  ghost predicate PathLabelled(schema: Schema, p: PatternPath) {
    !AnyVarLength(p.rels) && forall n :: n in p.nodes ==> n.labelName.Some? && n.labelName.value in schema.concepts
  }

  ghost predicate ClauseLabelled(schema: Schema, c: Clause) {
    match c
    case Match(paths, _, _) => forall p :: p in paths ==> PathLabelled(schema, p)
    case Unwind(_, _) => true
    case _ => false
  }

  ghost predicate InPaths(schema: Schema, paths: seq<PatternPath>, clause: Clause, o: Occurrence) {
    exists p, n :: p in paths && n in p.nodes && IsOccurrence(schema, n, clause, o)
  }

  ghost predicate InClauses(schema: Schema, clauses: seq<Clause>, o: Occurrence) {
    exists c :: c in clauses && c.Match? && InPaths(schema, c.paths, c, o)
  }

  lemma NodesInPath(schema: Schema, p: PatternPath, clause: Clause, scope: set<string>)
    requires PathLabelled(schema, p)
    ensures NodeOccurrences(schema, p.nodes, clause, scope).Some?
    ensures forall o :: o in NodeOccurrences(schema, p.nodes, clause, scope).value <==> exists n :: n in p.nodes && IsOccurrence(schema, n, clause, o)
  {
    hide IsOccurrence;
    NodesToldIff(schema, p.nodes, clause, scope);
    forall i | 0 <= i < |p.nodes| ensures Told(schema, p.nodes, scope, i) {
      assert p.nodes[i] in p.nodes;
    }
  }

  lemma {:induction false} PathsAnalyzed(schema: Schema, paths: seq<PatternPath>, clause: Clause, scope: set<string>)
    requires forall p :: p in paths ==> PathLabelled(schema, p)
    ensures PathOccurrences(schema, paths, clause, scope).Some?
    ensures forall o :: o in PathOccurrences(schema, paths, clause, scope).value <==> InPaths(schema, paths, clause, o)
    decreases |paths|
  {
    hide NodeOccurrences, ScopeAfterPath, IsOccurrence;
    if paths != [] {
      assert paths == [paths[0]] + paths[1..];
      NodesInPath(schema, paths[0], clause, scope);
      PathsAnalyzed(schema, paths[1..], clause, ScopeAfterPath(paths[0], scope));
      forall o ensures InPaths(schema, paths, clause, o)
                  <==> (exists n :: n in paths[0].nodes && IsOccurrence(schema, n, clause, o)) || InPaths(schema, paths[1..], clause, o) {
        assert forall p :: p in paths <==> p == paths[0] || p in paths[1..];
      }
    }
  }

  lemma {:induction false} ClausesAnalyzed(schema: Schema, clauses: seq<Clause>, scope: set<string>)
    requires forall c :: c in clauses ==> ClauseLabelled(schema, c)
    ensures ClauseOccurrences(schema, clauses, scope).Some?
    ensures forall o :: o in ClauseOccurrences(schema, clauses, scope).value <==> InClauses(schema, clauses, o)
    decreases |clauses|
  {
    hide PathOccurrences, ScopeAfterClause, InPaths;
    if clauses != [] {
      assert ClauseLabelled(schema, clauses[0]) && forall c :: c in clauses <==> c == clauses[0] || c in clauses[1..];
      if clauses[0].Match? {
        PathsAnalyzed(schema, clauses[0].paths, clauses[0], scope);
      }
      ClausesAnalyzed(schema, clauses[1..], ScopeAfterClause(clauses[0], scope));
      forall o ensures InClauses(schema, clauses, o)
                  <==> (clauses[0].Match? && InPaths(schema, clauses[0].paths, clauses[0], o)) || InClauses(schema, clauses[1..], o) {
      }
    }
  }

  /** A query whose nodes all have known labels is analyzed, and what is analyzed is each of its nodes. */
  lemma {:induction false} LabelledQueriesAreAnalyzed(schema: Schema, parts: seq<QueryPart>, scope: set<string>)
    requires forall part, c :: part in parts && c in part.reading ==> ClauseLabelled(schema, c)
    ensures PartOccurrences(schema, parts, scope).Some?
    ensures forall o :: o in PartOccurrences(schema, parts, scope).value <==> exists part :: part in parts && InClauses(schema, part.reading, o)
    decreases |parts|
  {
    hide ClauseOccurrences, ScopeAfterPart, InClauses, ClauseLabelled;
    if parts != [] {
      assert parts[0] in parts && forall part :: part in parts <==> part == parts[0] || part in parts[1..];
      ClausesAnalyzed(schema, parts[0].reading, scope);
      LabelledQueriesAreAnalyzed(schema, parts[1..], ScopeAfterPart(parts[0], scope));
    }
  }
}
