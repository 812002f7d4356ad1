/**
 Merging the same rows twice.

 A merged row's pattern matches from then on and something is written only where nothing matched, so a second pass writes
 nothing (`MergeIsIdempotent`), if the pattern reads back, no row holds an anonymous first node where the pattern asks for
 one, and the ON actions leave alone what the pattern asks for. `MergeIsIdempotentIff` is exact for patterns without
 bound variables: every pass after the first writes nothing under these conditions, and writes the pattern again without
 them. `ReusedVariableMergesAgain`, `AnonymousAnchorMergesAgain` and `CrossedReadsBack` are patterns on either side.
 */
module MergedTwice {
  import opened Wrappers
  import opened Values
  import opened Query
  import opened Evaluation
  import opened Graphs
  import opened Seqs
  import opened Operators
  import P = Planner
  import opened GraphWrites
  import M = MatchExactness
  import opened Merging
  import opened WrittenPatterns

  // ---- merging twice ------------------------------------------------------------------------------------------

  ghost predicate NoMatchActions(m: Merging) {
    forall g, row: Row :: m.onMatch(g, row) == g
  }

  ghost predicate Sound(m: Merging) {
    Mergeable(m) && ReadsBack(m) && GentleActions(m)
  }

  /** What fits a refreshed row fits the row. */
  lemma RefreshedFits(m: Merging, g: Graph, h: Graph, row: Row)
    requires Mergeable(m) && WellFormed(m.Schema(), g) && RowOk(m, g, row)
    ensures RowOk(m, g, Refreshed(row, g)) && HoldsNodes(m.path, Refreshed(row, g)) && Key(m.path, Refreshed(row, g)) == Key(m.path, row)
    ensures Matched(m, h, Refreshed(row, g)) <==> Matched(m, h, row)
    ensures AnchorFree(m, Refreshed(row, g)) <==> AnchorFree(m, row)
  {
    RefreshedHolds(m, g, row);
    RefreshedKey(m, g, row);
    HoldsItsNodes(m, g, Refreshed(row, g));
    hide M.Plannable, M.Apart, WellFormed, IdsHold, RowOk, IdsNamed, AnchorAgrees, Key, HoldsNodes;
    var now := Refreshed(row, g);
    assert forall ids :: Fits(m, h, row, ids) <==> Fits(m, h, now, ids);
  }

  lemma RefreshedKey(m: Merging, g: Graph, row: Row)
    requires WellFormed(m.Schema(), g)
    ensures Key(m.path, Refreshed(row, g)) == Key(m.path, row)
  {
    var now := Refreshed(row, g);
    hide WellFormed;
    forall v | v in row && row[v].NodeV? ensures now[v].NodeV? && now[v].node.id == row[v].node.id {
      FindIs(g.nodes, row[v].node.id);
    }
  }

  lemma HoldsItsNodes(m: Merging, g: Graph, row: Row)
    requires Mergeable(m) && RowOk(m, g, row)
    ensures HoldsNodes(m.path, row)
  {
    hide M.Plannable, M.Apart, Exists;
    forall p | p in m.path.nodes && InRow(row, p.variable) ensures row[p.variable.value].NodeV? {
      var n: nat :| n < |m.path.nodes| && m.path.nodes[n] == p;
      NodeVarNamed(m, n);
    }
  }

  /** The nodes satisfy the path, and are what the key fixes. */
  ghost predicate KeyFits(m: Merging, g: Graph, key: seq<Option<string>>, ids: seq<string>) {
    && IdsHold(m.Schema(), g, m.path, ids) && |key| == |ids|
    && (forall i, j :: 0 <= i < j < |ids| && m.path.nodes[i].variable.Some? && m.path.nodes[i].variable == m.path.nodes[j].variable ==> ids[i] == ids[j])
    && (forall i :: 0 <= i < |ids| && IsBoundAt(m, i) ==> key[i] == Some(ids[i]))
  }

  /** Whatever this query wrote is still there. */
  ghost predicate KnownOk(m: Merging, g: Graph, known: Known) {
    forall key :: key in known ==> exists ids :: KeyFits(m, g, key, ids)
  }

  lemma KnownMatches(m: Merging, g: Graph, known: Known, row: Row)
    requires Mergeable(m) && KnownOk(m, g, known) && RowOk(m, g, row) && AnchorFree(m, row) && Key(m.path, row) in known
    ensures Matched(m, g, row)
  {
    var ids :| KeyFits(m, g, Key(m.path, row), ids);
    hide M.Plannable, M.Apart, Exists, IdsHold;
    assert IdsNamed(m.path, ids, row, m.bound);
    assert Fits(m, g, row, ids);
  }

  lemma FitIsKnown(m: Merging, g: Graph, row: Row)
    requires Matched(m, g, row)
    ensures exists ids :: KeyFits(m, g, Key(m.path, row), ids)
  {
    var ids :| Fits(m, g, row, ids);
    hide Exists, IdsHold;
    assert KeyFits(m, g, Key(m.path, row), ids);
  }

  lemma KnownPersists(m: Merging, g: Graph, h: Graph, known: Known)
    requires Mergeable(m) && Gentle(m, g, h) && KnownOk(m, g, known)
    ensures KnownOk(m, h, known)
  {
    hide Gentle, M.Apart, M.FixedLength, P.RelError, IdsHold;
    forall key | key in known ensures exists ids :: KeyFits(m, h, key, ids) {
      var ids :| KeyFits(m, g, key, ids);
      HoldPersists(m, g, h, ids);
      assert KeyFits(m, h, key, ids);
    }
  }

  lemma MatchedPersists(m: Merging, g: Graph, h: Graph, row: Row)
    requires Mergeable(m) && Gentle(m, g, h) && Matched(m, g, row)
    ensures Matched(m, h, row)
  {
    hide Gentle, Fits, M.Apart, M.FixedLength, P.RelError;
    var ids :| Fits(m, g, row, ids);
    FitsPersist(m, g, h, row, ids);
  }

  /** A row whose pattern matches writes nothing: only ON MATCH acts. */
  lemma MatchedWritesNothing(m: Merging, g: Graph, known: Known, row: Row)
    requires Mergeable(m) && m.path.Valid() && GentleActions(m) && WellFormed(m.Schema(), g) && RowOk(m, g, row) && Matched(m, g, row)
    ensures MergeRow(m, g, known, row).Some? && MergeRow(m, g, known, row).value.created == 0 && MergeRow(m, g, known, row).value.known == known
    ensures Gentle(m, g, MergeRow(m, g, known, row).value.g)
    ensures NoMatchActions(m) ==> MergeRow(m, g, known, row).value.g == g
  {
    hide Gentle, Fits, RowOk, WellFormed, M.Apart, M.Plannable, HoldsNodes, MatchesOf, WritePattern, Key;
    MatcherFindsIff(m, g, row);
    RefreshedFits(m, g, g, row);
    ActionsAreGentle(m, g, MatchesOf(m, g, Refreshed(row, g)));
    if NoMatchActions(m) {
      NoActions(g, MatchesOf(m, g, Refreshed(row, g)), m.onMatch);
    }
  }

  lemma {:induction false} NoActions(g: Graph, rows: seq<Row>, act: (Graph, Row) -> Graph)
    requires forall h, r: Row :: act(h, r) == h
    ensures ActOnAll(g, rows, act) == g
    decreases |rows|
  {
    if rows != [] {
      NoActions(g, rows[..|rows| - 1], act);
    }
  }

  /** A row without a match: what the query knows under its key is reused, else the pattern is written. */
  lemma UnmatchedIs(m: Merging, g: Graph, known: Known, row: Row)
    requires Mergeable(m) && m.path.Valid() && WellFormed(m.Schema(), g) && RowOk(m, g, row) && !Matched(m, g, row) && MergeRow(m, g, known, row).Some?
    ensures var now, merged := Refreshed(row, g), MergeRow(m, g, known, row).value;
            if Key(m.path, row) in known then
              var again := Refreshed(now + known[Key(m.path, row)], g);
              merged == Merged(m.onMatch(g, again), [again], known, 0)
            else
              WritePattern(m, g, now).Some?
              && var made := WritePattern(m, g, now).value;
                 merged == Merged(m.onCreate(made.g, made.row), [made.row], known[Key(m.path, row) := NewIn(now, made.row)], 1)
  {
    hide Gentle, Fits, RowOk, WellFormed, Mergeable, HoldsNodes, MatchesOf, WritePattern, Key, LabelsKnown;
    MatcherFindsIff(m, g, row);
    RefreshedFits(m, g, g, row);
  }

  /** A merged row is matched, and something was written only if nothing matched before. */
  lemma MergedRowFits(m: Merging, g: Graph, known: Known, row: Row)
    requires Sound(m) && m.path.Valid() && WellFormed(m.Schema(), g) && RowOk(m, g, row) && AnchorFree(m, row) && KnownOk(m, g, known)
    requires MergeRow(m, g, known, row).Some?
    ensures var merged := MergeRow(m, g, known, row).value;
            && Gentle(m, g, merged.g) && KnownOk(m, merged.g, merged.known) && Matched(m, merged.g, row)
            && (merged.created == 0 <==> Matched(m, g, row))
  {
    hide Gentle, RowOk, WellFormed, Mergeable, ReadsBack, AnchorFree, MergeRow, WritePattern, Key, Matched, KnownOk, Written;
    var merged := MergeRow(m, g, known, row).value;
    if Matched(m, g, row) {
      MatchedWritesNothing(m, g, known, row);
      MatchedPersists(m, g, merged.g, row);
      KnownPersists(m, g, merged.g, known);
    } else {
      UnmatchedIs(m, g, known, row);
      if Key(m.path, row) in known {
        KnownMatches(m, g, known, row);
      }
      WrittenRowFits(m, g, known, row);
    }
  }

  lemma WrittenRowFits(m: Merging, g: Graph, known: Known, row: Row)
    requires Sound(m) && m.path.Valid() && WellFormed(m.Schema(), g) && RowOk(m, g, row) && AnchorFree(m, row) && KnownOk(m, g, known)
    requires WritePattern(m, g, Refreshed(row, g)).Some?
    ensures var made := WritePattern(m, g, Refreshed(row, g)).value; var after := m.onCreate(made.g, made.row);
            && Gentle(m, g, after) && Matched(m, after, row)
            && KnownOk(m, after, known[Key(m.path, row) := NewIn(Refreshed(row, g), made.row)])
  {
    hide Gentle, RowOk, WellFormed, Mergeable, ReadsBack, AnchorFree, WritePattern, Key, Matched, Written;
    var now := Refreshed(row, g);
    RefreshedFits(m, g, g, row);
    PatternWritten(m, g, now);
    var made := WritePattern(m, g, now).value;
    var after := m.onCreate(made.g, made.row);
    WrittenIsGentle(m, g, now, made.g, made.ids);
    WrittenFits(m, g, now, made.g, made.ids);
    WellFormedAfter(m, g, made.g);
    GentleAgain(m, g, made.g, after);
    MatchedPersists(m, made.g, after, now);
    RefreshedFits(m, g, after, row);
    FitIsKnown(m, after, row);
    KnownPersists(m, g, after, known);
  }

  lemma WellFormedAfter(m: Merging, g: Graph, h: Graph)
    requires Gentle(m, g, h)
    ensures WellFormed(m.Schema(), h)
  {
  }

  ghost predicate AllRowsOk(m: Merging, g: Graph, rows: seq<Row>) {
    forall i :: 0 <= i < |rows| ==> RowOk(m, g, rows[i])
  }

  ghost predicate AnchorsFree(m: Merging, rows: seq<Row>) {
    forall i :: 0 <= i < |rows| ==> AnchorFree(m, rows[i])
  }

  /** After the first n rows the pattern of each of them matches. */
  ghost predicate Settled(m: Merging, g: Graph, rows: seq<Row>, n: nat)
    requires m.path.Valid() && n <= |rows|
  {
    match MergeFirst(m, g, rows, n)
    case None => true
    case Some(merged) => Gentle(m, g, merged.g) && KnownOk(m, merged.g, merged.known) && forall i :: 0 <= i < n ==> Matched(m, merged.g, rows[i])
  }

  lemma SettledMore(m: Merging, g: Graph, rows: seq<Row>, n: nat)
    requires m.path.Valid() && n < |rows| && Settled(m, g, rows, n)
    requires Sound(m) && WellFormed(m.Schema(), g) && RowOk(m, g, rows[n]) && AnchorFree(m, rows[n])
    ensures Settled(m, g, rows, n + 1)
  {
    hide Gentle, WellFormed, MergeRow, RowOk, AnchorFree, Matched, KnownOk, Mergeable, ReadsBack;
    var before := MergeFirst(m, g, rows, n);
    if before.Some? {
      WellFormedAfter(m, g, before.value.g);
      RowPersists(m, g, before.value.g, rows[n]);
      var last := MergeRow(m, before.value.g, before.value.known, rows[n]);
      if last.Some? {
        MergedRowFits(m, before.value.g, before.value.known, rows[n]);
        GentleAgain(m, g, before.value.g, last.value.g);
        forall i | 0 <= i < n ensures Matched(m, last.value.g, rows[i]) {
          MatchedPersists(m, before.value.g, last.value.g, rows[i]);
        }
      }
    }
  }

  lemma {:induction false} MergedRowsMatch(m: Merging, g: Graph, rows: seq<Row>, n: nat)
    requires m.path.Valid() && n <= |rows|
    requires Sound(m) && WellFormed(m.Schema(), g) && AllRowsOk(m, g, rows) && AnchorsFree(m, rows)
    ensures Settled(m, g, rows, n)
  {
    hide Gentle, Sound, WellFormed, MergeRow, Matched, RowOk, AnchorFree;
    if n > 0 {
      hide Settled;
      MergedRowsMatch(m, g, rows, n - 1);
      SettledMore(m, g, rows, n - 1);
    } else {
      NothingChanged(m, g);
    }
  }

  lemma NothingChanged(m: Merging, g: Graph)
    requires WellFormed(m.Schema(), g)
    ensures Gentle(m, g, g)
  {
    hide WellFormed;
  }

  /** The first n rows, all matched before, wrote nothing. */
  ghost predicate Idle(m: Merging, g: Graph, rows: seq<Row>, n: nat)
    requires m.path.Valid() && n <= |rows|
  {
    match MergeFirst(m, g, rows, n)
    case None => false
    case Some(merged) => merged.created == 0 && Gentle(m, g, merged.g) && (NoMatchActions(m) ==> merged.g == g)
  }

  lemma IdleMore(m: Merging, g: Graph, rows: seq<Row>, n: nat)
    requires m.path.Valid() && n < |rows| && Idle(m, g, rows, n)
    requires Mergeable(m) && GentleActions(m) && WellFormed(m.Schema(), g) && RowOk(m, g, rows[n]) && Matched(m, g, rows[n])
    ensures Idle(m, g, rows, n + 1)
  {
    hide Gentle, Mergeable, GentleActions, WellFormed, MergeRow, RowOk, Matched, NoMatchActions;
    var before := MergeFirst(m, g, rows, n).value;
    WellFormedAfter(m, g, before.g);
    RowPersists(m, g, before.g, rows[n]);
    MatchedPersists(m, g, before.g, rows[n]);
    MatchedWritesNothing(m, before.g, before.known, rows[n]);
    GentleAgain(m, g, before.g, MergeRow(m, before.g, before.known, rows[n]).value.g);
  }

  lemma {:induction false} MatchedRowsWriteNothing(m: Merging, g: Graph, rows: seq<Row>, n: nat)
    requires m.path.Valid() && n <= |rows|
    requires Mergeable(m) && GentleActions(m) && WellFormed(m.Schema(), g) && AllRowsOk(m, g, rows)
    requires forall i :: 0 <= i < |rows| ==> Matched(m, g, rows[i])
    ensures Idle(m, g, rows, n)
  {
    hide Gentle, Mergeable, GentleActions, WellFormed, MergeRow, Matched, NoMatchActions, RowOk;
    if n > 0 {
      hide Idle;
      MatchedRowsWriteNothing(m, g, rows, n - 1);
      IdleMore(m, g, rows, n - 1);
    } else {
      NothingChanged(m, g);
    }
  }

  /** A second pass over the same rows writes nothing, and without ON MATCH actions changes nothing at all. */
  lemma MergeIsIdempotent(m: Merging, g: Graph, rows: seq<Row>)
    requires m.path.Valid() && MergeFirst(m, g, rows, |rows|).Some?
    requires Sound(m) && WellFormed(m.Schema(), g) && AllRowsOk(m, g, rows) && AnchorsFree(m, rows)
    ensures var once := MergeFirst(m, g, rows, |rows|).value; var twice := MergeFirst(m, once.g, rows, |rows|);
            twice.Some? && twice.value.created == 0 && (NoMatchActions(m) ==> twice.value.g == once.g)
    ensures forall i :: 0 <= i < |rows| ==> Matched(m, MergeFirst(m, g, rows, |rows|).value.g, rows[i])
  {
    hide Gentle, Mergeable, ReadsBack, GentleActions, WellFormed, MergeRow, MergeFirst, RowOk, AnchorFree, Matched, NoMatchActions, KnownOk;
    MergedRowsMatch(m, g, rows, |rows|);
    var once := MergeFirst(m, g, rows, |rows|).value.g;
    WellFormedAfter(m, g, once);
    forall i | 0 <= i < |rows| ensures RowOk(m, once, rows[i]) {
      RowPersists(m, g, once, rows[i]);
    }
    MatchedRowsWriteNothing(m, once, rows, |rows|);
  }

  // ---- exactly when merging again writes nothing --------------------------------------------------------------

  /** There are no ON actions. */
  ghost predicate Passive(m: Merging) {
    forall g, row: Row :: m.onMatch(g, row) == g && m.onCreate(g, row) == g
  }

  lemma PassiveIsGentle(m: Merging)
    requires Passive(m)
    ensures GentleActions(m) && NoMatchActions(m)
  {
    hide Gentle, WellFormed;
    forall g, row: Row | WellFormed(m.Schema(), g) ensures Gentle(m, g, m.onMatch(g, row)) && Gentle(m, g, m.onCreate(g, row)) {
      NothingChanged(m, g);
    }
  }

  /** A row matches from the first write of the pattern on. */
  ghost predicate Settles(m: Merging, row: Row) {
    AnchorFree(m, row) && ReadsBack(m)
  }

  /** The graph after the pattern has been written: rows stay as they were, and match if they did or are settled. */
  ghost predicate OnceWritten(m: Merging, g: Graph, h: Graph) {
    && WellFormed(m.Schema(), h)
    && forall row :: RowOk(m, g, row) ==> RowOk(m, h, row) && (Matched(m, h, row) <==> Matched(m, g, row) || Settles(m, row))
  }

  lemma WrittenOnce(m: Merging, g: Graph, row: Row)
    requires Mergeable(m) && m.path.Valid() && Unbound(m) && WellFormed(m.Schema(), g) && RowOk(m, g, row) && WritePattern(m, g, Refreshed(row, g)).Some?
    ensures OnceWritten(m, g, WritePattern(m, g, Refreshed(row, g)).value.g)
  {
    hide Mergeable, WellFormed, RowOk, Matched, AnchorFree, ReadsBack, Gentle, Unbound, WritePattern, Written;
    var now := Refreshed(row, g);
    RefreshedFits(m, g, g, row);
    PatternWritten(m, g, now);
    var made := WritePattern(m, g, now).value;
    WrittenIsGentle(m, g, now, made.g, made.ids);
    WellFormedAfter(m, g, made.g);
    forall r | RowOk(m, g, r) ensures RowOk(m, made.g, r) && (Matched(m, made.g, r) <==> Matched(m, g, r) || Settles(m, r)) {
      RowPersists(m, g, made.g, r);
      UnboundWrittenIff(m, g, now, made.g, made.ids, r);
    }
  }

  /** Without bound variables every row has the same key. */
  lemma OneKey(m: Merging, g: Graph, row: Row)
    requires Mergeable(m) && Unbound(m) && RowOk(m, g, row)
    ensures Key(m.path, row) == Key(m.path, map[])
  {
    hide M.Plannable, M.Apart, Exists;
    forall i | 0 <= i < |m.path.nodes| ensures IdIn(row, m.path.nodes[i].variable) == None {
      if m.path.nodes[i].variable.Some? {
        NodeVarNamed(m, i);
      }
    }
  }

  ghost predicate AllMatched(m: Merging, g: Graph, rows: seq<Row>, n: nat)
    requires n <= |rows|
  {
    forall i :: 0 <= i < n ==> Matched(m, g, rows[i])
  }

  /** A pass writes the pattern once, for the first row that does not match, and for no other. */
  ghost predicate WritesOnce(m: Merging, g: Graph, rows: seq<Row>, n: nat)
    requires m.path.Valid() && n <= |rows|
  {
    match MergeFirst(m, g, rows, n)
    case None => true
    case Some(merged) =>
      if AllMatched(m, g, rows, n) then merged.g == g && merged.known == map[] && merged.created == 0
      else merged.created == 1 && Key(m.path, map[]) in merged.known && OnceWritten(m, g, merged.g)
  }

  lemma WritesOnceMore(m: Merging, g: Graph, rows: seq<Row>, n: nat)
    requires m.path.Valid() && n < |rows| && WritesOnce(m, g, rows, n)
    requires Mergeable(m) && Unbound(m) && Passive(m) && WellFormed(m.Schema(), g) && RowOk(m, g, rows[n])
    ensures WritesOnce(m, g, rows, n + 1)
  {
    hide Mergeable, WellFormed, RowOk, Matched, Gentle, Unbound, MergeRow, Key, WritePattern, Settles;
    PassiveIsGentle(m);
    hide GentleActions;
    OneKey(m, g, rows[n]);
    var before := MergeFirst(m, g, rows, n);
    if before.Some? && MergeRow(m, before.value.g, before.value.known, rows[n]).Some? {
      var h, known := before.value.g, before.value.known;
      assert WellFormed(m.Schema(), h) && RowOk(m, h, rows[n]);
      if Matched(m, h, rows[n]) {
        MatchedWritesNothing(m, h, known, rows[n]);
      } else {
        UnmatchedIs(m, h, known, rows[n]);
        if Key(m.path, rows[n]) !in known {
          WrittenOnce(m, h, rows[n]);
        }
      }
    }
  }

  lemma {:induction false} PassWritesOnce(m: Merging, g: Graph, rows: seq<Row>, n: nat)
    requires m.path.Valid() && n <= |rows|
    requires Mergeable(m) && Unbound(m) && Passive(m) && WellFormed(m.Schema(), g) && AllRowsOk(m, g, rows)
    ensures WritesOnce(m, g, rows, n)
  {
    hide Mergeable, WellFormed, RowOk, Matched, Unbound, MergeRow, Passive, Key, OnceWritten;
    if n > 0 {
      hide WritesOnce;
      PassWritesOnce(m, g, rows, n - 1);
      WritesOnceMore(m, g, rows, n - 1);
    }
  }

  /** The graph after as many passes over the rows, each a query of its own. */
  function Passes(m: Merging, g: Graph, rows: seq<Row>, k: nat): Option<Graph>
    requires m.path.Valid()
  {
    if k == 0 then Some(g)
    else
      match Passes(m, g, rows, k - 1)
      case None => None
      case Some(h) =>
        match MergeFirst(m, h, rows, |rows|)
        case None => None
        case Some(merged) => Some(merged.g)
  }

  /** After some passes, rows match as after the first. */
  ghost predicate AfterPasses(m: Merging, g: Graph, rows: seq<Row>, h: Graph) {
    && WellFormed(m.Schema(), h) && AllRowsOk(m, h, rows)
    && if AllMatched(m, g, rows, |rows|) then h == g
       else forall i :: 0 <= i < |rows| ==> (Matched(m, h, rows[i]) <==> Matched(m, g, rows[i]) || Settles(m, rows[i]))
  }

  lemma {:induction false} PassesKeep(m: Merging, g: Graph, rows: seq<Row>, k: nat)
    requires m.path.Valid() && Mergeable(m) && Unbound(m) && Passive(m) && WellFormed(m.Schema(), g) && AllRowsOk(m, g, rows)
    requires k > 0 && Passes(m, g, rows, k).Some?
    ensures AfterPasses(m, g, rows, Passes(m, g, rows, k).value)
  {
    hide Mergeable, WellFormed, RowOk, Matched, Unbound, MergeFirst, Passive, Key, Settles;
    var h := Passes(m, g, rows, k - 1).value;
    if k > 1 {
      PassesKeep(m, g, rows, k - 1);
    }
    PassWritesOnce(m, h, rows, |rows|);
  }

  /**
   Without bound variables and actions: the first pass writes the pattern once, unless every row matches, and every later
   pass writes nothing if and only if each row matched at first, or the pattern reads back and the anchor is free; otherwise
   it writes the pattern again.
   */
  lemma MergeIsIdempotentIff(m: Merging, g: Graph, rows: seq<Row>, k: nat)
    requires m.path.Valid() && Mergeable(m) && Unbound(m) && Passive(m) && WellFormed(m.Schema(), g) && AllRowsOk(m, g, rows)
    requires k > 0 && Passes(m, g, rows, k).Some?
    ensures MergeFirst(m, g, rows, |rows|).Some? && MergeFirst(m, g, rows, |rows|).value.created == if AllMatched(m, g, rows, |rows|) then 0 else 1
    ensures var again := MergeFirst(m, Passes(m, g, rows, k).value, rows, |rows|);
            if forall i :: 0 <= i < |rows| ==> Matched(m, g, rows[i]) || Settles(m, rows[i]) then again.Some? && again.value.created == 0
            else again.Some? ==> again.value.created == 1
  {
    hide Mergeable, WellFormed, RowOk, Matched, Unbound, MergeFirst, Passive, Key, Settles, GentleActions, OnceWritten;
    FirstPass(m, g, rows, k);
    PassWritesOnce(m, g, rows, |rows|);
    PassesKeep(m, g, rows, k);
    var h := Passes(m, g, rows, k).value;
    PassWritesOnce(m, h, rows, |rows|);
    if AllMatched(m, h, rows, |rows|) {
      PassiveIsGentle(m);
      MatchedRowsWriteNothing(m, h, rows, |rows|);
    }
  }

  lemma {:induction false} FirstPass(m: Merging, g: Graph, rows: seq<Row>, k: nat)
    requires m.path.Valid() && k > 0 && Passes(m, g, rows, k).Some?
    ensures MergeFirst(m, g, rows, |rows|).Some?
  {
    hide MergeFirst;
    if k > 1 {
      FirstPass(m, g, rows, k - 1);
    } else {
      assert Passes(m, g, rows, 0) == Some(g);
    }
  }

  /** One row, created once: created again unless the pattern reads back and the anchor is free. */
  lemma CreatedAgainIff(m: Merging, g: Graph, row: Row)
    requires m.path.Valid() && Mergeable(m) && Unbound(m) && Passive(m) && WellFormed(m.Schema(), g) && RowOk(m, g, row)
    requires MergeRow(m, g, map[], row).Some? && MergeRow(m, g, map[], row).value.created == 1
    ensures var h := MergeRow(m, g, map[], row).value.g; var again := MergeRow(m, h, map[], row);
            && (Matched(m, h, row) <==> AnchorFree(m, row) && ReadsBack(m))
            && (again.Some? ==> again.value.created == if AnchorFree(m, row) && ReadsBack(m) then 0 else 1)
  {
    hide Mergeable, WellFormed, RowOk, Matched, Unbound, MergeRow, Key, WritePattern, AnchorFree, ReadsBack;
    PassiveIsGentle(m);
    hide GentleActions;
    if Matched(m, g, row) {
      MatchedWritesNothing(m, g, map[], row);
    }
    UnmatchedIs(m, g, map[], row);
    WrittenOnce(m, g, row);
    var h := MergeRow(m, g, map[], row).value.g;
    if Matched(m, h, row) {
      MatchedWritesNothing(m, h, map[], row);
    } else if MergeRow(m, h, map[], row).Some? {
      UnmatchedIs(m, h, map[], row);
    }
  }

  // ---- an anonymous first node left in the row ----------------------------------------------------------------

  function Everything(): (Graph, Edge) -> bool {
    (g: Graph, e: Edge) => true
  }

  function NoAction(): (Graph, Row) -> Graph {
    (g: Graph, row: Row) => g
  }

  function FirstOf(ids: seq<string>): string {
    if ids == [] then "" else ids[0]
  }

  /** MERGE (:B) over rows of a clause whose first node was anonymous. */
  function MergeB(options: P.Options, newId: Graph -> string): Merging {
    Merging(options.(schema := Schema(map["A" := "A", "B" := "B"], map["A" := {"A"}, "B" := {"B"}], map[])),
            PatternPath([NodePattern(None, Some("B"), [])], [], None), {}, {}, newId, Everything(), NoAction(), NoAction())
  }

  /**
   The row still holds the anonymous first node of the clause before, and the pattern's anonymous first node has the same
   name: no B ever matches, so MERGE writes another B at every pass.
   */
  lemma AnonymousAnchorMergesAgain(options: P.Options, newId: Graph -> string, g: Graph, row: Row, a: Node)
    requires (forall h :: !Exists(h, newId(h))) && WellFormed(MergeB(options, newId).Schema(), g)
    requires a in g.nodes && a.concept == "A" && M.ANON_ANCHOR in row && row[M.ANON_ANCHOR] == NodeV(a)
    ensures MergeRow(MergeB(options, newId), g, map[], row).Some?
    ensures var merged := MergeRow(MergeB(options, newId), g, map[], row).value;
            merged.g == Created(g, newId(g), "B", map[]) && merged.rows == [Refreshed(row, g)] && merged.created == 1
  {
    var m := MergeB(options, newId);
    FindMember(g, a);
    hide WellFormed;
    assert RowOk(m, g, row);
    forall ids ensures !Fits(m, g, row, ids) {
      assert IdsHold(m.Schema(), g, m.path, ids) ==> NodesAt(g, ids) != [] && M.NodeMatches(m.Schema(), m.path.nodes[0], NodeOf(g, FirstOf(ids)));
      assert AnchorAgrees(m.path, ids, row) && |ids| == 1 ==> FirstOf(ids) == a.id;
    }
    MatcherFindsIff(m, g, row);
    hide MatchesOf;
    OneNodeMade(m, g, Refreshed(row, g));
  }

  lemma OneNodeMade(m: Merging, g: Graph, row: Row)
    requires m.path == PatternPath([NodePattern(None, Some("B"), [])], [], None) && "B" in m.Schema().concepts && m.Schema().concepts["B"] == "B"
    ensures WritePattern(m, g, row) == Some(Made(Created(g, m.newId(g), "B", map[]), row, [m.newId(g)]))
  {
    assert MakeNodes(m, g, row, 0) == Some(Made(g, row, []));
    assert [] + [m.newId(g)] == [m.newId(g)];
    assert MakeNodes(m, g, row, 1) == Some(Made(Created(g, m.newId(g), "B", map[]), row, [m.newId(g)]));
    assert MakeRels(m, Created(g, m.newId(g), "B", map[]), [m.newId(g)], 0) == Some(Created(g, m.newId(g), "B", map[]));
  }

  /** MERGE (:A)-[:R]->(b)-[:R]->(:B), b bound. */
  function MergeThrough(options: P.Options, newId: Graph -> string): Merging {
    var rel := RelPattern(None, Some("R"), Outgoing, [], None, None);
    Merging(options.(schema := Schema(map["A" := "A", "B" := "B"], map["A" := {"A"}, "B" := {"B"}], map["A" := ["R"], "B" := ["R"]])),
            PatternPath([NodePattern(None, Some("A"), []), NodePattern(Some("b"), None, []), NodePattern(None, Some("B"), [])], [rel, rel], None),
            {"b"}, {"b"}, newId, Everything(), NoAction(), NoAction())
  }

  /**
   With a bound variable an anchor need not keep a row from matching: where the anchor already leads to b, the written B is
   reached through b.
   */
  lemma BoundNodeLetsAnchorMatch(options: P.Options, newId: Graph -> string, g: Graph, row: Row, h: Graph, made: seq<string>, a: Node)
    requires (forall k :: !Exists(k, newId(k))) && WellFormed(MergeThrough(options, newId).Schema(), g) && RowOk(MergeThrough(options, newId), g, row)
    requires a in g.nodes && a.concept == "A" && M.ANON_ANCHOR in row && row[M.ANON_ANCHOR] == NodeV(a)
    requires HasEdge(g, Edge(a.id, "R", row["b"].node.id)) && Written(MergeThrough(options, newId), g, row, h, made)
    ensures !AnchorFree(MergeThrough(options, newId), row) && Matched(MergeThrough(options, newId), h, row)
  {
    var m := MergeThrough(options, newId);
    ThroughIsMergeable(options, newId);
    FindMember(g, a);
    hide Written, HasEdge, Mergeable, RowOk;
    ThroughFits(options, newId, g, row, a);
    WrittenMatchesIff(m, g, row, h, made, row);
  }

  lemma ThroughIsMergeable(options: P.Options, newId: Graph -> string)
    requires forall k :: !Exists(k, newId(k))
    ensures Mergeable(MergeThrough(options, newId))
  {
    var m := MergeThrough(options, newId);
    assert m.Schema().HasRelationshipType("R") by {
      assert "A" in m.Schema().members && "R" in m.Schema().members["A"];
    }
  }

  lemma ThroughFits(options: P.Options, newId: Graph -> string, g: Graph, row: Row, a: Node)
    requires RowOk(MergeThrough(options, newId), g, row) && Find(g.nodes, a.id) == Some(a) && a.concept == "A"
    requires M.ANON_ANCHOR in row && row[M.ANON_ANCHOR] == NodeV(a) && HasEdge(g, Edge(a.id, "R", row["b"].node.id))
    ensures FitsJoined(MergeThrough(options, newId), g, row, row, [Old(a.id), Old(row["b"].node.id), New(2)])
  {
    hide HasEdge;
    var m := MergeThrough(options, newId);
    var ps := [Old(a.id), Old(row["b"].node.id), New(2)];
    assert "b" in m.bound && m.path.nodes[1].variable == Some("b") && m.path.nodes[0].variable == None == m.path.nodes[2].variable;
    assert PlaceMatches(m, g, m.path.nodes[0], ps[0]);
    assert PlaceMatches(m, g, m.path.nodes[1], ps[1]);
    assert PlaceMatches(m, g, m.path.nodes[2], ps[2]);
    hide PlaceMatches, RowOk;
    assert PlacesOf(m, row)[1] == ps[1] && PlacesOf(m, row)[2] == ps[2];
    assert LinkAt(m.path, ps, 1) == LinkAt(m.path, PlacesOf(m, row), 1);
    assert LinkThere(m, g, PlacesOf(m, row), LinkAt(m.path, ps, 0));
    assert LinkThere(m, g, PlacesOf(m, row), LinkAt(m.path, ps, 1));
    hide LinkThere, LinkAt;
    assert |ps| == |m.path.nodes| == |m.path.rels| + 1;
  }

  // ---- a variable used twice ----------------------------------------------------------------------------------

  /** MERGE (n:A)-[:R]->(n:B), where no A is a B. */
  function MergeSelf(options: P.Options, newId: Graph -> string): Merging {
    Merging(options.(schema := Schema(map["A" := "A", "B" := "B"], map["A" := {"A"}, "B" := {"B"}], map["A" := ["R"]])),
            PatternPath([NodePattern(Some("n"), Some("A"), []), NodePattern(Some("n"), Some("B"), [])],
                        [RelPattern(None, Some("R"), Outgoing, [], None, None)], None),
            {}, {"n"}, newId, Everything(), NoAction(), NoAction())
  }

  /** The node is created for its first place only, so the pattern does not read back and every pass writes it again. */
  lemma ReusedVariableMergesAgain(options: P.Options, newId: Graph -> string, g: Graph, row: Row)
    requires (forall h :: !Exists(h, newId(h))) && WellFormed(MergeSelf(options, newId).Schema(), g) && RowOk(MergeSelf(options, newId), g, row)
    ensures MergeRow(MergeSelf(options, newId), g, map[], row).Some? && !ReadsBack(MergeSelf(options, newId))
    ensures var merged := MergeRow(MergeSelf(options, newId), g, map[], row).value; merged.created == 1 && HasEdge(merged.g, Edge(newId(g), "R", newId(g)))
  {
    var m := MergeSelf(options, newId);
    assert "n" in m.nodeVars && "n" !in Refreshed(row, g);
    SelfDoesNotReadBack(options, newId);
    hide WellFormed, MatchesOf, MakeNodes, MakeRels, RowOk, Created, ReadsBack;
    SelfIsMergeable(options, newId);
    forall ids ensures !Fits(m, g, row, ids) {
      NothingIsBoth(options, newId, g, row, ids);
    }
    MatcherFindsIff(m, g, row);
    RefreshedFits(m, g, g, row);
    hide Mergeable, Key, NewIn;
    LoopMade(options, newId, g, Refreshed(row, g));
  }

  lemma SelfDoesNotReadBack(options: P.Options, newId: Graph -> string)
    ensures !ReadsBack(MergeSelf(options, newId))
  {
    var m := MergeSelf(options, newId);
    assert m.path.nodes[0].variable == m.path.nodes[1].variable;
    forall r: nat ensures !(FitsAt(m, 0, r) && FitsAt(m, 1, r)) {
    }
  }

  lemma SelfIsMergeable(options: P.Options, newId: Graph -> string)
    requires forall h :: !Exists(h, newId(h))
    ensures Mergeable(MergeSelf(options, newId))
  {
    var m := MergeSelf(options, newId);
    assert m.Schema().HasRelationshipType("R") by {
      assert "A" in m.Schema().members && "R" in m.Schema().members["A"];
    }
  }

  lemma NothingIsBoth(options: P.Options, newId: Graph -> string, g: Graph, row: Row, ids: seq<string>)
    ensures !Fits(MergeSelf(options, newId), g, row, ids)
  {
    var m := MergeSelf(options, newId);
    assert m.path.nodes[0].variable == m.path.nodes[1].variable;
  }

  lemma LoopMade(options: P.Options, newId: Graph -> string, g: Graph, row: Row)
    requires (forall h :: !Exists(h, newId(h))) && WellFormed(MergeSelf(options, newId).Schema(), g) && "n" !in row
    ensures var m := MergeSelf(options, newId); var id := newId(g); var written := WritePattern(m, g, row);
            written.Some? && HasEdge(written.value.g, Edge(id, "R", id)) && LabelsKnown(m, row)
  {
    var m := MergeSelf(options, newId);
    var id := newId(g);
    LoopNode(options, newId, g, row);
    hide WellFormed, Created, EdgeAdded, HasEdge, MakeNodes;
    var after := Created(g, id, "A", map[]);
    LoopJoined(m, after, id) by {
      CreatedWorks(m.Schema(), g, id, "A", map[]);
    }
  }

  lemma LoopNode(options: P.Options, newId: Graph -> string, g: Graph, row: Row)
    requires "n" !in row
    ensures var id := newId(g); MakeNodes(MergeSelf(options, newId), g, row, 2) == Some(Made(Created(g, id, "A", map[]), row["n" := NodeV(Node(id, "A", map[], []))], [id, id]))
  {
    var m := MergeSelf(options, newId);
    var id := newId(g);
    hide Created;
    assert MakeNodes(m, g, row, 0) == Some(Made(g, row, []));
    assert NodeFor(m.Schema(), m.path.nodes[0], id) == Node(id, "A", map[], []) && [] + [id] == [id];
    assert MakeNodes(m, g, row, 1) == Some(Made(Created(g, id, "A", map[]), row["n" := NodeV(Node(id, "A", map[], []))], [id]));
    assert [id] + [id] == [id, id];
  }

  lemma LoopJoined(m: Merging, g: Graph, id: string)
    requires |m.path.rels| == 1 && m.path.rels[0].relType == Some("R") && m.path.rels[0].direction.Outgoing? && m.accepts == Everything()
    requires WellFormed(m.Schema(), g) && ViewOf(g, id) == Some(View("A", map[])) && m.Schema().EdgeMembers("A") == ["R"]
    ensures var rels := MakeRels(m, g, [id, id], 1); rels.Some? && HasEdge(rels.value, Edge(id, "R", id))
  {
    hide WellFormed, EdgeAdded, HasEdge;
    var e := EdgeAt(m.path, [id, id], 0);
    assert MakeRels(m, g, [id, id], 0) == Some(g);
    assert Acceptable(m, g, e);
    if !HasEdge(g, e) {
      EdgeAddedWorks(m.Schema(), g, e);
    }
  }

  /** MERGE (n:A)-[:R]->(k:A {p: 1})-[:R]->(k:A)-[:R]->(n:A {p: 1}). */
  function MergeCrossed(options: P.Options, newId: Graph -> string): Merging {
    var rel, p := RelPattern(None, Some("R"), Outgoing, [], None, None), [Property("p", Bool(true))];
    Merging(options.(schema := Schema(map["A" := "A"], map["A" := {"A"}], map["A" := ["R"]])),
            PatternPath([NodePattern(Some("n"), Some("A"), []), NodePattern(Some("k"), Some("A"), p), NodePattern(Some("k"), Some("A"), []), NodePattern(Some("n"), Some("A"), p)],
                        [rel, rel, rel], None),
            {}, {"n", "k"}, newId, Everything(), NoAction(), NoAction())
  }

  /** It reads back although the node made for n lacks what n asks for the second time: all of it fits the node made for k. */
  lemma CrossedReadsBack(options: P.Options, newId: Graph -> string)
    ensures ReadsBack(MergeCrossed(options, newId))
    ensures !FitsAt(MergeCrossed(options, newId), 3, Rep(MergeCrossed(options, newId).path, 3))
  {
    var m := MergeCrossed(options, newId);
    var nodes := m.path.nodes;
    assert nodes[0].variable == nodes[3].variable == Some("n") && nodes[1].variable == nodes[2].variable == Some("k");
    assert Rep(m.path, 3) == 0 && Rep(m.path, 1) == 1 && Rep(m.path, 2) == 1;
    OneProperty(nodes[1].properties);
    assert "p" !in NodeFor(m.Schema(), nodes[0], "").attrs && nodes[3].properties[0].key == "p";
    var ps: seq<nat> := [1, 1, 1, 1];
    forall i | 0 <= i < 4 ensures FitsAt(m, i, 1) {
    }
    hide FitsAt, NodeFor;
    forall i | 0 <= i < 3 ensures LinkWritten(m.path, ps, i) {
      assert LinkAt(m.path, ps, i) == LinkAt(m.path, Reps(m.path), 1);
    }
    hide Rep, Reps, LinkWritten, LinkAt;
    assert FitsItself(m, ps);
  }

  lemma OneProperty(properties: seq<Property>)
    requires |properties| == 1
    ensures AttrsOf(properties) == map[properties[0].key := properties[0].value]
  {
    assert properties[..0] == [];
  }
}
