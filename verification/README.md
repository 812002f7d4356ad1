# A verified model of the Cypher engine, the manifest container and the stores

This project models the parts of a TypeScript modelling platform whose behaviour is hardest to see from the code, and
proves what they are for. Verify it with `dafny verify dfyconfig.toml`.

Six parts, each in its own group of files:

1. **The query compiler and the source push-down** (`query`, `evaluation`, `graph`, `values`, `value-order`,
   `ordering`, `paging`, `varlength`, `operators`, `operator-loops`, `row-laws`, `planner`, `planner-loops`,
   `projection-scope`, `match-exactness`, `pushdown`, `pushdown-soundness`, `pushdown-extent`, `clean-rows`).
   Operators are functions from a graph to rows; the same operators, the planner and the analysis are also given as
   the loops they are and proved equal to those functions. A data source may leave out every instance its filter
   rejects, and no read query can tell (`PushDownPreservesAnswers`); `FilteredIff` says which concepts have one. A
   compiled MATCH yields exactly the solutions of its pattern (`AssignmentsAreSolutions`). Pages of a compiled query
   are stable under the exact condition of `PagesStableForIff`. What comes first is said without the comparison
   (`CompareMeans`, `AscendingNeverFalls`), and so is what a projection, an aggregation and DISTINCT compute
   (`ResolvedMeans`, `AggregationMeans`, `DistinctMeans`).
2. **The Cypher text** (`tokens`, `lexing`, `lexer`, `parsing`, `parser`, `unparsing`, `number-text`, `text`,
   `clean-text`, the three round-trip files, `lexed-text` and `refusals`). The unparser's text is read back as the
   same query, and so are its other accepted spellings (`SpelledReadsBack`); `UnchangedIff` says exactly which queries
   come back unchanged. A text that is lexed consists of its tokens (`LexedTextIsSpelled`). The lexer and the parser
   are classes with a cursor.
3. **Write queries** (`graph-writes`, `overlay-state`, `write-overlay`, `recording-writer`, `eager`, `write-plans`,
   `merge`, `merge-written`, `merge-twice`, `merge-actions`, `drafts`, `draft-writes`). The overlay shows what the
   base graph would be with the accepted writes applied; barriers make the planner's pipelined plan run clause at a
   time (`WriteQueryDrains`); MERGE is idempotent under an exact condition (`MergeIsIdempotentIff`), and its ON
   actions reach exactly the nodes of the rows they are for (`ActionsTakeEffect`); a write query on a draft is all or
   nothing, and commits exactly if it brings no new error (`ErrorFreeCommitsIff`).
4. **Connectors** (`connector-writes`, `lost-updates`, `working-copy`, `flushed-contents`, `reconnect`). Over any
   interleaving of any number of clients every accepted write expects the last version, and none is lost unless a
   refresh brings back an older content; a flush keeps exactly the edits that did not persist, and the tables hold all
   others (`SettledEditIsHeld`); the reconnecting adapter keeps its order for any number of concurrent callers.
5. **Manifests** (`bytes`, `utf8`, `heaps`, `manifest-layout`, `manifest-codec`, `manifest-serializer`,
   `logical-manifest`, `lowering`, `manifest-validator`). The binary container reads back what was written; lowering a
   logical manifest gives tables that represent it, pass the validator and survive the container.
6. **Stores and packages** (`graph-store`, `cypher-store`, `domain`). Two adjacencies that agree, a Cypher log that
   replays, import counts that are importers.

Objects whose methods change them are classes; each method's contract gives the new state as a function of the old one,
and the lemmas are about that function. Pure code is functions. `numbers`, `seqs` and `wrappers` are shared vocabulary.

## What turned out not to hold

Where a promise fails, the code is kept as it is; a lemma names the input, and the promise is proved on the exact
condition where one could be stated.

- Two paths with anonymous anchors are joined on them (`AnonymousAnchorsAreJoined`); so a MERGE after such a clause
  creates again and again (`AnonymousAnchorMergesAgain`), as does one that asks two labels of one new variable
  (`ReusedVariableMergesAgain`). Without bound variables MERGE is idempotent exactly when what the pattern writes fits
  the pattern and no row holds an anchor it asks for (`MergeIsIdempotentIff`); with them, what matches afterwards can
  be told before (`WrittenMatchesIff`).
- Pages of an unordered query are stable exactly when rows that tie in the implicit order show the same
  (`PagesStableForIff`), which for arbitrary rows means that the order reads every output column; `RETURN a AS x, x AS
  y` orders by y twice and repeats a row (`HiddenAliasRepeatsARow`).
- NOT of a comparison is the opposite comparison exactly when both sides are scalars of one kind
  (`NegationIsOppositeIff`).
- A query text changes negative literals, connectives over more than two operands and hop defaults (`UnchangedIff`).
- Versions rise one by one whatever is refreshed when, but a refresh during a flush loses a write exactly when it
  loads a content older than the report (`BackdatedWriteIsLost`); so do a write at the largest whole number
  (`VersionRisesIff`) and one after a delete (`AbsentRowTakesAnyWrite`). A mark survives a flush exactly when one of
  the targets its instance has at the end was sent in that flush and failed (`MarkSurvivesIff`).
- Row numbers given ahead are right exactly when annotation types that are also referenced as types come last
  (`ForwardRowsIff`). Pinned values name the right field exactly when no two declared fields join to one text
  (`PinsAreRightIff`).
- A LIMIT 0 in a WITH above a write keeps it from happening (`LimitZeroSkipsWrites`); the LIMIT of a final RETURN is
  put off until the writes are committed.
- An attribute called like a node column is lost in the Cypher store (`ColumnAttributesAreLost`). A flush that stopped
  half way can be retried exactly when the log deletes whatever the statements run create (`RetryIsHarmlessIff`).
- A caller that waited for a reopen retries on the adapter that failed it exactly when no reopen has given one since,
  as happens to one that joins too late (`RetriesOnFailedIff`, `LateJoinIsReached`).
- Packages on a dependency cycle can never be unloaded (`CyclesStayLoaded`). A later load can take the owner of a
  loaded node's type; `OwnerStaysIff` says exactly when it does not.

## Model

| member | source | states |
|---|---|---|
| PushDownSoundness.PushDownPreservesAnswers | src/cypher/push-down.ts:111-182 | For every read query (optional matches, UNWIND, aggregation, DISTINCT, ORDER BY, SKIP, LIMIT) and every set of instances each of which fails its concept's filter, leaving those instances out gives the same sequence of rows or the same planning error |
| PushDownSoundness.OptionalSame | src/cypher/planner.ts:297-306 | An outer row is padded with nulls over the reduced graph exactly when it is over the full one, so an OPTIONAL MATCH gives the same rows over both |
| PushDownSoundness.ConditionCleans | src/cypher/push-down.ts:166-182 | A row that passes the inline properties and the WHERE of its clause mentions no instance a source left out |
| PushDownSoundness.MissingNodeFails | src/cypher/push-down.ts:111-124 | An instance a source left out can only be scanned by the one non-optional pattern of its concept, and fails one of that pattern's pinned properties or conjuncts |
| PushDownSoundness.TermHolds | src/cypher/push-down.ts:193-208 | Wherever a row passes a conjunct that was pushed, the node has exactly the pushed value in that field: the source's equality drops nothing the query would keep |
| Graphs.ExpandKept | src/cypher/graph.ts:54-66 | From a node that stays, a hop over the reduced graph reaches what it reaches over the full graph minus what is gone, in the same order and multiplicity |
| PlannerLoops.CypherPushDown.Analyze | src/cypher/push-down.ts:89-124 | The loops over parts, paths and nodes find the filters of the specification, and none for a writing query or one with an unlabelled or unknown scan |
| PushDownExtent.FilteredIff | src/cypher/push-down.ts:67-72 | Both directions: a concept has a filter exactly if some pattern of a non-optional MATCH pins something of it and no other pattern can scan it, and the filter is what that pattern pins |
| PushDownExtent.TermsMean | src/cypher/push-down.ts:166-208 | A pattern pins exactly its inline properties and what a conjunct of its condition equates, either way around, with a literal or a scalar parameter |
| PushDownExtent.ConjunctsMean | src/cypher/push-down.ts:184-191 | The conjuncts of a conjunction are exactly those of its operands |
| PushDownExtent.LabelledQueriesAreAnalyzed | src/cypher/push-down.ts:128-164 | No query whose nodes have known labels and whose relationships have a fixed length is given up, and each of its nodes counts as a scanner |
| PlannerLoops.CypherPushDown.OccurrencesOf | src/cypher/push-down.ts:128-164 | Walking the clauses with a growing scope lists the labelled occurrences in order; a projection or an unlabelled fresh node changes or ends the walk as specified |
| MatchExactness.AssignmentsAreSolutions | src/cypher/planner.ts:308-368 | Both directions: an assignment is shown by some row of the compiled fixed-length pattern exactly when every path holds under it in the graph (labels, inline properties, edges, reused variables by identity) with the anonymous first nodes of all paths being one node |
| MatchExactness.MatchesAreSolutions | src/cypher/planner.ts:281-295 | MATCH with WHERE: rows show exactly the solutions of the pattern on which the condition passes |
| MatchExactness.NamedAnchorsAreExact | src/cypher/planner.ts:308-326 | With at most one anonymous path anchor the proviso falls away: rows show exactly the assignments under which each path holds |
| MatchExactness.AnonymousAnchorsAreJoined | src/cypher/planner.ts:311-326 | Two paths with anonymous anchors are joined on them: `MATCH (:A), (:B)` yields no row on a graph with an A and a B |
| MatchExactness.RowsAreJoins | src/cypher/planner.ts:308-368 | Over any input rows, a row is produced exactly when it extends an input row by a choice of nodes that fits every path in turn |
| MatchExactness.FoldedRows | src/cypher/planner.ts:510-518 | A fold of property filters keeps exactly the rows whose node has all the inline properties |
| MatchExactness.IntoSource | src/cypher/operators.ts:110-126 | A hop into a bound node only lets a row through when the hop reaches that very node |
| MatchExactness.EvaluateReads | src/cypher/expressions.ts:19-28 | An expression's value depends only on the cells of its variables |
| PlannerLoops.LogicalPlanner.Plan | src/cypher/planner.ts:89-109 | The loops that reassign the operator and add to the shared scope build the plan of the specification, or its first error |
| PlannerLoops.LogicalPlanner.CompilePart | src/cypher/planner.ts:183-215 | One part over the rows of the part before it: its plan and the variables the next part sees, or its first error |
| PlannerLoops.LogicalPlanner.CompileMatch | src/cypher/planner.ts:281-306 | A MATCH joins what is compiled so far; an OPTIONAL MATCH is compiled on a scope of its own and adds every variable it may bind to the part's |
| PlannerLoops.LogicalPlanner.CompilePattern | src/cypher/planner.ts:281-295 | The paths in order over one shared scope, then the condition |
| PlannerLoops.LogicalPlanner.CompilePath | src/cypher/planner.ts:308-368 | Anchor, hops, constraints and path variable of one path, with the scope left holding what it binds |
| PlannerLoops.LogicalPlanner.CompileStep | src/cypher/planner.ts:337-366 | One relationship becomes an expansion, an expansion into a bound node or a variable-length expansion, and binds its end |
| PlannerLoops.LogicalPlanner.CompileAnchor | src/cypher/planner.ts:311-326 | A first node is reused, scanned, or joined in by a product, exactly as its name is in scope and as there is input |
| PlannerLoops.LogicalPlanner.ValidateRels | src/cypher/planner.ts:370-383 | The first offending relationship decides the error |
| OperatorLoops.Run | src/cypher/operators.ts:9-12 | Draining a plan operator by operator, with the loops, flags, counters and buffers of the generators, yields the rows of the operator semantics in order |
| OperatorLoops.ProductLoop | src/cypher/operators-join.ts:16-48 | The right side is run once, at the first left row, and buffered; the rows are every agreeing merge, left row by left row |
| OperatorLoops.OptionalLoop | src/cypher/operators-optional.ts:20-40 | Every outer row contributes its matches, or itself padded |
| OperatorLoops.MatchesOrPadded | src/cypher/operators-optional.ts:24-38 | The matched flag: the inner rows if there are any, else the row with null for every optional variable |
| OperatorLoops.MergeLoop | src/cypher/operators-join.ts:26-34 | The right rows a left row agrees with on every shared variable, merged |
| OperatorLoops.ExpandLoop | src/cypher/operators.ts:75-89 | One row per edge to a node with the label, the relationship reported in its real direction; none when the source is no node |
| OperatorLoops.ExpandIntoLoop | src/cypher/operators.ts:110-126 | The row itself, once, exactly when the hop reaches the bound node; the loop stops at the first hit |
| OperatorLoops.VarLengthLoop | src/cypher/operators-varlength.ts:39-51 | One row per trail the walker emits, with the end node, the list of relationships and the path bound |
| OperatorLoops.LabelFilterLoop | src/cypher/operators.ts:142-151 | Rows whose variable holds a node that the graph still reflects as an instance of the label |
| OperatorLoops.ProjectRowLoop | src/cypher/operators.ts:176-188 | Items evaluated against the old row; of two items with one column name the later wins |
| OperatorLoops.UnwindLoop | src/cypher/operators-unwind.ts:18-39 | No row for null, one per item of a list, the row itself with the value for anything else |
| OperatorLoops.DistinctLoop | src/cypher/operators-ordering.ts:113-129 | The first row of every key, in order |
| OperatorLoops.AggregateLoop | src/cypher/operators-aggregate.ts:46-74 | Grouping row by row under the key of the grouping values and yielding a row for each group gives the rows of the aggregation in order |
| OperatorLoops.AcceptLoop | src/cypher/operators-aggregate.ts:76-92 | The values an aggregate accepts of a group: under DISTINCT none whose key it has seen |
| RowLaws.AggregationMeans | src/cypher/operators-aggregate.ts:46-104 | One row for every group of the rows, with the values of its first row and the aggregates of its rows; one for no rows at all when there is nothing to group by |
| RowLaws.GroupsMean | src/cypher/operators-aggregate.ts:46-66 | The groups have pairwise different keys, each holds all rows of its key in input order, every row is in one, and they stand in the order of their first rows |
| RowLaws.AcceptedMeans | src/cypher/operators-aggregate.ts:76-92 | An aggregate sees the argument of every row; under DISTINCT exactly those that compare as equal to no earlier one |
| RowLaws.AggregateNames | src/cypher/aggregators.ts:129-141 | An aggregate is told by its name in any case |
| RowLaws.CountMeans | src/cypher/aggregators.ts:11-31 | count(*) is the number of rows, count(x) the number of values that are not null |
| RowLaws.CollectMeans | src/cypher/aggregators.ts:33-49 | collect lists, in order, exactly the values that are not null |
| RowLaws.SumMeans | src/cypher/aggregators.ts:51-77 | sum adds up the numbers among the values, where addition is exact; avg divides that sum by how many they are, and is null without one |
| RowLaws.ExtremeMeans | src/cypher/aggregators.ts:79-117 | min and max are the first of the values that are not null before, or after, which none comes; null without one |
| RowLaws.DistinctMeans | src/cypher/operators-ordering.ts:113-129 | DISTINCT keeps, in order, exactly the rows that no earlier row shows the same as: each column in both with values that compare as equal, or in neither |
| RowLaws.SkipMeans | src/cypher/operators-ordering.ts:62-78 | SKIP drops as many rows as there are whole ones in the count, none for a negative count |
| RowLaws.LimitMeans | src/cypher/operators-ordering.ts:87-102 | LIMIT lets through the least whole number of rows that is not below the count |
| RowLaws.UnwindMeans | src/cypher/operators-unwind.ts:18-39 | UNWIND of a list gives a row for every item, in order, with the rest of the row as it was |
| RowLaws.ProjectedCell | src/cypher/operators.ts:176-188 | A projected row holds what each item is worth on the old row, of two with one column name the later's |
| RowLaws.TrailRowsMean | src/cypher/operators-varlength.ts:39-51 | A variable-length hop gives a row for exactly every trail it may follow: its end, its relationships in order, the whole of it as the path, and the rest of the row as it was |
| ProjectionScope.ResolvedMeans | src/cypher/planner.ts:437-456 | On the projected row, a condition whose projected parts were replaced by their columns is worth what the written one is worth on the row before with the output columns laid over it, if no alias hides a variable an item uses |
| ProjectionScope.ConditionMeans | src/cypher/planner.ts:434-456 | The condition a WITH is planned with passes a projected row exactly if the written one passes the row before with the columns laid over it |
| ProjectionScope.SortKeyMeans | src/cypher/planner.ts:458-474 | Each sort key as it is planned is worth on the projected row what the written key is worth there |
| ProjectionScope.PaddingMeans | src/cypher/planner.ts:297-306 | Where an OPTIONAL MATCH finds nothing, exactly the nodes, relationships and paths its pattern names and that were not bound before are null |
| OperatorLoops.SkipLoop | src/cypher/operators-ordering.ts:68-78 | All but the first rows, the count truncated toward zero and clamped |
| OperatorLoops.LimitLoop | src/cypher/operators-ordering.ts:87-102 | As many rows as it takes to reach the count, none for a count at or below zero |
| Values.CompareTransitive | src/cypher/values.ts:25-31 | Comparison chains over all types, strictly as soon as one link is strict: with antisymmetry a total preorder |
| Values.CompareAntisymmetric | src/cypher/values.ts:25-31 | Swapping the operands flips the sign of the comparison, for scalars, nodes, lists, maps, relationships and paths |
| Values.TiesAreEqualKeys | src/cypher/values-structured.ts:21-44 | Both directions: two values compare as equal exactly when their grouping keys are equal |
| Text.PrintIsInjective | src/cypher/values-structured.ts:72-76 | JSON texts are equal exactly when the values they spell are, so keys built from JSON text are as good as the values |
| NumberText.ShortestIsInjective | src/cypher/values.ts:53-56 | Different finite numbers have different texts |
| Ordering.SortRowsMultiset | src/cypher/operators-ordering.ts:26-42 | Sorting keeps every row with its multiplicity |
| Ordering.SortRowsSorted | src/cypher/operators-ordering.ts:44-55 | A sorted result has no row after one that compares greater; what greater means is ValueOrder.CompareByMeans |
| ValueOrder.CompareNumbersMeans | src/cypher/values.ts:65-71 | A number compares below another exactly if the decimal it stands for is less |
| ValueOrder.CompareStringsMeans | src/cypher/values.ts:65-71 | A text compares below another exactly if at the first character where they differ its character is lower, or it is a proper prefix |
| ValueOrder.CompareMeans | src/cypher/values.ts:25-31 | For all values: the comparison is negative exactly if the first comes first: numbers by amount, texts by the first differing character, false before true, lists and maps by their first difference, the kinds in a fixed order with null after everything |
| ValueOrder.CompareByMeans | src/cypher/operators-ordering.ts:44-55 | A row comes first exactly if, at the first sort key on which the two differ, its key comes first, or last when that key is descending |
| ValueOrder.SortedByKeys | src/cypher/operators-ordering.ts:26-55 | In a sorted result no row stands behind one that it comes before, by the keys in their order and directions |
| ValueOrder.SortedByOneKey | src/cypher/operators-ordering.ts:26-55 | Sorted by one key, no row has a key below that of a row before it; descending, none has a key above |
| ValueOrder.AscendingNeverFalls | src/cypher/operators-ordering.ts:26-55 | Rows whose key is a number come out with amounts that never fall from one position to a later one |
| ValueOrder.DescendingNeverRises | src/cypher/operators-ordering.ts:26-55 | Descending, the amounts never rise |
| ValueOrder.ComparisonMeans | src/cypher/expressions.ts:231-262 | A comparison holds between scalars of one kind only, and there exactly if the operator says so of which comes first; equality is identity of the values |
| ValueOrder.NumbersCompared | src/cypher/expressions.ts:231-262 | On numbers `<`, `<=`, `>`, `>=`, `=` and `<>` hold exactly as of the decimals |
| ValueOrder.NegationIsOppositeIff | src/cypher/expressions.ts:301-310 | NOT of a comparison is the opposite comparison exactly when both sides are scalars of one kind |
| ValueOrder.ConnectivesMean | src/cypher/expressions.ts:301-315 | AND passes exactly if every operand does, OR exactly if one does, NOT exactly if its operand does not |
| ValueOrder.NullTests | src/cypher/expressions.ts:362-366 | IS NULL and IS NOT NULL tell null from everything else, and no comparison with null holds |
| ValueOrder.MembershipMeans | src/cypher/expressions.ts:413-423 | IN passes exactly if an equality with some item does |
| ValueOrder.MinusMeans | src/cypher/expressions.ts:542-547 | Minus turns what a number is worth round |
| ValueOrder.PositionMeans | src/cypher/expressions.ts:687-695 | A list is read at the position a number is worth, counted from zero; any other number reads null |
| ValueOrder.EntryMeans | src/cypher/expressions.ts:696-697 | A map is read by the name of an entry |
| ValueOrder.NoEntryMeans | src/cypher/expressions.ts:696-697 | A name no entry has reads null |
| ValueOrder.NumeralMeans | src/cypher/lexer.ts:161-172 | A numeral is worth what its digits say: the whole part in tens, the part behind the point in tenths |
| Ordering.SortedKeysAreUnique | src/cypher/operators-ordering.ts:26-55 | Two sorted arrangements of the same rows show the same cells position by position, when rows that tie show the same |
| Ordering.AscendingTies | src/cypher/planner.ts:479-483 | Rows tie in the implicit order exactly when they agree, key by key, in its columns |
| Ordering.PagesStableForIff | src/cypher/planner.ts:458-483 | For the rows at hand, both directions: independently enumerated pages of any size concatenate to the sorted result if and only if rows that tie in the order show the same |
| Ordering.PagesAreStableIff | src/cypher/planner.ts:458-483 | Whatever the rows, pages are stable if and only if every output column is read by the resolved implicit order |
| Ordering.PagesConcatenate | src/cypher/planner.ts:476-483 | The if half in full: pages cut from runs that each enumerate the same rows in their own order show every row of the sorted result once |
| Ordering.TiedRunsDiffer | src/cypher/planner.ts:458-474 | The other half: two tied rows that show different cells come out in the order they went in, at the same place |
| Paging.ImplicitOrderIs | src/cypher/planner.ts:458-483 | The order the planner resolves for a paged query is the ascending order of the resolved columns |
| Paging.PagedAnswersConcatenate | src/cypher/engine.ts:41-53 | At the level of compiled queries: the pages of any query without ORDER BY, each over an enumeration of its own that projects the same rows, show its whole answer once if rows that tie in the implicit order show the same |
| Paging.PagedRows | src/cypher/planner.ts:385-419 | A compiled projection without ORDER BY yields the projected rows, sorted by the resolved columns, then skipped and limited |
| Paging.HiddenAliasRepeatsARow | src/cypher/planner.ts:458-483 | A query, a graph and two enumerations of it: `MATCH (a:A), (x:B) RETURN a AS x, x AS y` is sorted by y twice, and its two pages show the same row |
| Ordering.Page | src/cypher/engine.ts:152-175 | The loop collects exactly the rows of its page, and HasMore is set exactly when there is a further row |
| VarLength.EmitsExactlyTheTrails | src/cypher/operators-varlength.ts:53-100 | A trail is emitted exactly when it is a walk with pairwise distinct step keys, a length within the bounds and a last node passing the label |
| VarLength.EmittedAreTrails | src/cypher/operators-varlength.ts:53-86 | Everything emitted below a partial walk is a wanted trail extending it |
| VarLength.TrailsAreEmitted | src/cypher/operators-varlength.ts:53-86 | Every wanted trail extending a partial walk is emitted below it |
| VarLength.Walker.Walk | src/cypher/operators-varlength.ts:53-86 | The in-place walk appends what it emits and restores path and used keys; it ends on every graph by a measure that does not mention the maximum |
| VarLength.Walker.Try | src/cypher/operators-varlength.ts:66-85 | The loop over targets skips used steps and restores path and used keys |
| VarLength.Walker.Descend | src/cypher/operators-varlength.ts:74-84 | One push, walk and pop |
| QueryRoundTrip.QueryTextReadsBack | src/cypher/unparser.ts:99-192 | Lexing and parsing the text of any faithfully printable query gives that query, reread: connectives as pairs, negative literals as negations, hop defaults filled in |
| QueryRoundTrip.SpelledReadsBack | src/cypher/parser.ts:72-94 | However a query is spelled it is read as the same query, reread: keywords in any case, ASC written or not, `*..n` for `*1..n`, `.name` for `['name']`, redundant parentheses, `-[]-` for `--`, ON actions apart or together and either kind first, any white space where one may stand |
| Refusals.NothingAfterReturn | src/cypher/parser.ts:72-94 | Whatever clause follows the RETURN of a query, the text is refused at that word |
| Refusals.BothArrowheadsRefused | src/cypher/parser.ts:312-340 | A relationship that points both ways is refused, however it is spelled |
| Refusals.EmptyRangeRefused | src/cypher/parser.ts:312-340 | So is a hop range whose end is below its start |
| Refusals.RelPropertiesRefused | src/cypher/parser.ts:170-178 | CREATE and MERGE refuse a path whose relationships have properties |
| Refusals.ReturnWhereRefused | src/cypher/parser.ts:366-386 | A RETURN refuses a WHERE |
| Refusals.RepeatedFieldMeans | src/cypher/parser.ts:570-586 | A key written again in a map literal keeps its first place and has the last value |
| Refusals.NewFieldIsLast | src/cypher/parser.ts:570-586 | A new key comes last |
| Refusals.RepeatedPropertyMeans | src/cypher/parser.ts:342-358 | A property key written again in a pattern keeps its first place and has the last value |
| Refusals.NewPropertyIsLast | src/cypher/parser.ts:342-358 | A new property key comes last |
| LexedText.LexedTextIsSpelled | src/cypher/lexer.ts:62-185 | A text that is lexed is, to the last character, white space and spellings of the tokens it gives; anything else in it makes it refused |
| Lexing.SpacedReadsBack | src/cypher/lexer.ts:62-207 | Any white space between tokens, and none where they cannot run together, is lexed as the same tokens |
| Lexing.AnyNameMayBeQuoted | src/cypher/lexer.ts:130-153 | A name in backticks is the name, also where it needs none |
| QueryRoundTrip.UnchangedIff | src/cypher/unparser.ts:99-102 | Such a query comes back unchanged if and only if its connectives are binary, it has no negative number literal in expression position, its bounded relationships have a minimum, and it stores nothing that is not printed |
| ExpressionRoundTrip.ReadExpr | src/cypher/parser.ts:419-552 | At every level of the precedence ladder, parsing the tokens of an expression shown at that level gives the expression reread and leaves exactly what followed |
| ExpressionRoundTrip.RereadIsSame | src/cypher/unparser.ts:241-327 | An expression is its own reread exactly when it is stable: binary AND and OR, unary NOT, no negative literal, nothing unprinted in a starred call |
| ExpressionRoundTrip.RereadIsStable | src/cypher/unparser.ts:241-327 | What was read back once comes back unchanged from then on |
| ExpressionRoundTrip.NegativeLiteralChanges | src/cypher/unparser.ts:356-362 | The literal -1 is printed faithfully and read as the negation of 1 |
| PatternRoundTrip.ReadPath | src/cypher/unparser.ts:194-238 | The tokens of a path are parsed as that path, with variables, labels, hop ranges, property maps and directions |
| PatternRoundTrip.ReadHops | src/cypher/parser.ts:265-290 | Every printed hop range is read as the same bounds |
| PatternRoundTrip.ReadLabel | src/cypher/unparser.ts:344-349 | A dotted or quoted label is read back as the same text |
| QueryRoundTrip.ReadParts | src/cypher/parser.ts:72-134 | The tokens of the parts of a query are parsed as those parts, reread |
| QueryRoundTrip.ReadProjection | src/cypher/parser.ts:366-386 | The tokens of a projection are parsed as that projection, reread, in the order WHERE, ORDER BY, SKIP, LIMIT |
| CleanText.ExprClean | src/cypher/unparser.ts:241-327 | In the text of an expression no token runs into the next |
| Lexing.TextReadsBack | src/cypher/lexer.ts:62-185 | The text of any clean sequence of tokens is lexed as exactly those tokens |
| Lexing.QuotedReadsBack | src/cypher/lexer.ts:111-153 | A doubled quote stands for one: quoting any text and reading it back is the identity |
| NumberText.UnparsedReadsBack | src/cypher/unparser.ts:366-381 | Exponent forms are expanded to exactly the same decimal value, a minus sign aside |
| Lexer.PlacedAreLexed | src/cypher/lexer.ts:62-109 | The placed tokens are the lexed ones, and a fault is reported at the line and column where its token starts |
| Lexer.CypherLexer.Tokenize | src/cypher/lexer.ts:62-75 | The cursor loop returns the tokens with line and column of their first characters, or the fault |
| Lexer.CypherLexer.NextToken | src/cypher/lexer.ts:83-93 | One token, or its fault, and the cursor behind it |
| Lexer.CypherLexer.ReadBetween | src/cypher/lexer.ts:111-153 | Text up to the closing quote, doubled quotes standing for one; nothing when it is unterminated |
| Lexer.CypherLexer.ReadNumberToken | src/cypher/lexer.ts:161-172 | Digits with dots that precede a digit |
| Lexer.CypherLexer.ReadSymbolToken | src/cypher/lexer.ts:95-109 | Two-character symbols before one-character ones |
| Lexer.CypherLexer.SkipWhitespace | src/cypher/lexer.ts:187-207 | The cursor at the next character that is no space, line and column kept in step |
| Parser.Read | src/cypher/parser.ts:67-94 | Lexing and parsing a text with the two cursors gives the query the reading function gives, or the lexical fault at its line and column, or the parser's complaint at the line and column of the token it had come to |
| Parser.ParseQuery | src/cypher/parser.ts:72-94 | The cursor parser accepts exactly what the parsing function accepts, with the same query, and fails with the same complaint at the same token |
| Parser.PlacedEndsWithEof | src/cypher/lexer.ts:62-75 | Token lists end in the one end-of-file token |
| Parser.CypherParser.Parts | src/cypher/parser.ts:72-94 | The loop over parts ends at RETURN or at a writing part without a projection |
| Parser.CypherParser.ReadingClauses | src/cypher/parser.ts:96-134 | Clauses are read as long as a clause word is next |
| Parser.CypherParser.OneClause | src/cypher/parser.ts:96-134 | The word next decides the clause |
| Parser.CypherParser.MatchClause | src/cypher/parser.ts:236-244 | OPTIONAL, paths and an optional condition |
| Parser.CypherParser.UnwindClause | src/cypher/parser.ts:228-234 | UNWIND expression AS variable |
| Parser.CypherParser.CreateClause | src/cypher/parser.ts:141-147 | Write paths separated by commas |
| Parser.CypherParser.MergeClause | src/cypher/parser.ts:149-168 | One write path and its ON actions |
| Parser.CypherParser.Ons | src/cypher/parser.ts:156-166 | ON CREATE and ON MATCH actions accumulate under the one or the other in source order; anything else after ON is an error |
| Parser.CypherParser.SetClause | src/cypher/parser.ts:180-184 | SET and its items |
| Parser.CypherParser.OneSetItem | src/cypher/parser.ts:193-202 | `v += e`, `v = e` and `v.p = e` are told apart by the token after the variable |
| Parser.CypherParser.DeleteClause | src/cypher/parser.ts:204-211 | DETACH and the targets |
| Parser.CypherParser.RemoveClause | src/cypher/parser.ts:213-226 | Properties separated by commas |
| Parser.CypherParser.WritePath | src/cypher/parser.ts:170-178 | A path whose relationships carry no properties; the loop finds the first that does |
| Parser.CypherParser.Path | src/cypher/parser.ts:246-262 | A path variable is recognised by the two tokens ahead; nodes and relationships alternate |
| Parser.CypherParser.Steps | src/cypher/parser.ts:254-261 | The loop pushes one relationship and one node per step while a line or arrow is next |
| Parser.CypherParser.Node | src/cypher/parser.ts:292-310 | Variable, dotted label and properties, each optional |
| Parser.CypherParser.Rel | src/cypher/parser.ts:312-340 | Direction from the arrowheads, never both; a hop range must not be empty |
| Parser.CypherParser.ReadHops | src/cypher/parser.ts:265-280 | Minimum, range and maximum after the star, with their defaults |
| Parser.CypherParser.HopCount | src/cypher/parser.ts:282-290 | A hop count is all digits |
| Parser.CypherParser.PropMap | src/cypher/parser.ts:342-358 | Scalar entries; a repeated key keeps its first place and its last value |
| Parser.CypherParser.OneProjection | src/cypher/parser.ts:366-392 | WHERE only before ORDER BY, SKIP and LIMIT and never after RETURN |
| Parser.CypherParser.OrderBy | src/cypher/parser.ts:394-410 | The sort keys the reading function finds; that DESC alone turns a key round, and ASC none, is QueryRoundTrip.SpelledReadsBack |
| Parser.CypherParser.OneReturnItem | src/cypher/parser.ts:412-417 | An expression and an optional alias |
| Parser.CypherParser.Level | src/cypher/parser.ts:419-501 | An expression of a level: what the level's parsing function reads from the tokens left |
| Parser.CypherParser.Operands | src/cypher/parser.ts:424-436 | The loop over one level's operator gathers to the left |
| Parser.CypherParser.AfterOperand | src/cypher/parser.ts:444-457 | A comparison, IS [NOT] NULL, IN or nothing after an operand; comparisons do not chain |
| Parser.CypherParser.Postfix | src/cypher/parser.ts:503-523 | Indexing and property steps gathered to the left |
| Parser.CypherParser.Primary | src/cypher/parser.ts:532-586 | Parameters, parentheses, lists, maps, null, names and literals |
| Parser.CypherParser.AfterName | src/cypher/parser.ts:532-552 | A property access, a call or a variable |
| Parser.CypherParser.Arguments | src/cypher/parser.ts:588-607 | A star alone, or DISTINCT and arguments |
| Parser.CypherParser.ScalarLiteral | src/cypher/parser.ts:609-633 | A signed number, a string or a truth value |
| OverlayStates.CreateKeeps | src/cypher/write-overlay.ts:61-66 | Recording a creation keeps the overlay equal to the base with the writes applied, for an id that is new |
| OverlayStates.AttrKeeps | src/cypher/write-overlay.ts:146-166 | Recording a set or removed property keeps the simulation, on created and on base nodes |
| OverlayStates.AddEdgeKeeps | src/cypher/write-overlay.ts:78-85 | Recording an added edge keeps the simulation, also when it cancels a recorded drop |
| OverlayStates.DropEdgeKeeps | src/cypher/write-overlay.ts:87-93 | Recording a dropped edge keeps the simulation, also when it cancels a recorded addition |
| OverlayStates.DeleteNodeKeeps | src/cypher/write-overlay.ts:95-100 | Recording a deleted node keeps the simulation |
| OverlayStates.RecreatedStaysDeleted | src/cypher/write-overlay.ts:134-144 | Why ids must be fresh: a node created under the id of a deleted one exists in the applied graph and stays invisible in the overlay, which no longer simulates it |
| OverlayStates.LinksAfter | src/cypher/write-overlay.ts:188-206 | How often two nodes are linked afterwards: base links minus dropped plus added, none once an end is deleted |
| WriteOverlays.AppliedHopCount | src/cypher/write-overlay.ts:311-343 | A hop over the applied graph reaches each node as often as the base and the recorded edges say, in either direction |
| WriteOverlays.WriteOverlay.RecordCreate | src/cypher/write-overlay.ts:61-66 | The maps hold the recorded creation, and no cached view is stale |
| WriteOverlays.WriteOverlay.RecordAddEdge | src/cypher/write-overlay.ts:78-85 | The edge sets hold the addition or the cancelled drop, and no cached view is stale |
| WriteOverlays.WriteOverlay.RecordDeleteEdge | src/cypher/write-overlay.ts:87-93 | The edge sets hold the drop or the cancelled addition, and no cached view is stale |
| WriteOverlays.WriteOverlay.RecordDeleteNode | src/cypher/write-overlay.ts:95-100 | The node is deleted, and no cached view is stale |
| WriteOverlays.WriteOverlay.ChangeAttr | src/cypher/write-overlay.ts:146-166 | The change is held on the created node or as a delta of the base node, and no cached view is stale |
| WriteOverlays.WriteOverlay.Current | src/cypher/write-overlay.ts:134-144 | The view of a node as it stands now, whether it came from the cache or was built for this version |
| WriteOverlays.WriteOverlay.Synthesize | src/cypher/write-overlay.ts:170-186 | A touched node's view from its creation or its base and changes |
| WriteOverlays.OverlayGraph.Live | src/cypher/write-overlay.ts:217-246 | A mirror handed out at any earlier moment shows the node as the applied graph has it now |
| WriteOverlays.OverlayGraph.Reflect | src/cypher/write-overlay.ts:270-274 | A mirror exactly for the nodes that exist in the applied graph |
| WriteOverlays.OverlayGraph.AllInstances | src/cypher/write-overlay.ts:265-268 | Exactly the nodes of the applied graph, in its order |
| WriteOverlays.OverlayGraph.NodesByLabel | src/cypher/write-overlay.ts:255-263 | Exactly the applied graph's instances of a label, in its order |
| WriteOverlays.OverlayGraph.OutgoingMirrors | src/cypher/write-overlay.ts:311-326 | Hops forward, each neighbour exactly as often as in the applied graph |
| WriteOverlays.OverlayGraph.IncomingMirrors | src/cypher/write-overlay.ts:328-343 | Hops back, each neighbour exactly as often as in the applied graph |
| WriteOverlays.OverlayGraph.ExpandMirrors | src/cypher/write-overlay.ts:276-282 | Hops in all three directions give the multiset of the applied graph's hops; undirected ones each neighbour once |
| WriteOverlays.OverlayGraph.Dedup | src/cypher/write-overlay.ts:383-394 | One mirror per node |
| RecordingWriters.OverlayRecordingWriter.CreateNode | src/cypher/write-overlay.ts:405-410 | The overlay goes on showing what the inner writer would commit; a refused write is recorded nowhere |
| RecordingWriters.OverlayRecordingWriter.SetProperty | src/cypher/write-overlay.ts:412-416 | As for CreateNode, with the property set |
| RecordingWriters.OverlayRecordingWriter.RemoveProperty | src/cypher/write-overlay.ts:418-422 | As for CreateNode, with the property removed |
| RecordingWriters.OverlayRecordingWriter.CreateRelationship | src/cypher/write-overlay.ts:424-429 | An accepted new edge is recorded once; one that was there, or is refused, is not |
| RecordingWriters.OverlayRecordingWriter.DeleteRelationship | src/cypher/write-overlay.ts:431-436 | An edge that was there is dropped in both; otherwise nothing is recorded |
| RecordingWriters.OverlayRecordingWriter.DeleteNode | src/cypher/write-overlay.ts:438-442 | The node goes in both, once; a node that still has edges is refused without DETACH |
| GraphWrites.OutgoingDegree | src/cypher/graph.ts:135-152 | Following references yields every target once per linking member |
| GraphWrites.IncomingDegree | src/cypher/graph.ts:54-66 | Following references back yields every referrer once per linking member |
| Eager.DrainIsClauseAtATime | src/cypher/planner.ts:202-210 | For every sequence of clauses without LIMIT 0, draining the fenced plan gives the rows and the graph of running clause after clause over complete intermediate results |
| Eager.WriteIsFeed | src/cypher/operators-write.ts:76-87 | A fenced write has taken in all its rows before its first write, and has finished before anything above it gets a row |
| Eager.FeedBuffered | src/cypher/operators-join.ts:16-48 | Buffering the right side at the first left row reads it after everything below the left side has finished |
| Eager.UnfencedReadsItsOwnWrites | src/cypher/operators-write.ts:66-88 | Without barriers the law fails: a read feeding a write sees the write of its own earlier row |
| Eager.DrainSkips | src/cypher/planner.ts:202-210 | With LIMIT 0 anywhere: draining gives the rows and the graph of the clauses after the last one, over no row and the graph as it was |
| Eager.LimitZeroSkipsWrites | src/cypher/operators-ordering.ts:87-93 | The exception to the law above, for a LIMIT 0 anywhere, as a WITH may have one: the clauses after it see the graph as it was instead of what the clauses before it left, so the law holds when those leave it as it was, and fails for a final LIMIT 0 when they do not |
| WritePlans.ReadPlanDrains | src/cypher/planner.ts:89-108 | Pulling rows one at a time through the plan of any read query, whatever its operators and limits, gives the rows of the operator semantics and leaves the graph alone |
| WritePlans.WriteQueryDrains | src/cypher/planner.ts:113-136 | Draining the fenced plan the planner makes of a write query gives the rows and the graph of its clauses one after the other, whatever the writing clauses do, if no WITH has a LIMIT 0 |
| WritePlans.ClauseMeans | src/cypher/planner.ts:183-215 | In that plan a writing clause acts on the rows so far in turn, and a reading clause gives, for every row so far, the rows its compiled pattern has for that row over the graph as the clauses before left it |
| WritePlans.ProjectionMeans | src/cypher/planner.ts:183-215 | In that plan a WITH over the rows some read operator has gives the rows the projection of that operator has |
| WritePlans.OperatorIsSteps | src/cypher/planner.ts:183-215 | The planner's read operators are steps of the pulled plan: one after the other over complete rows they give the operator's rows |
| WritePlans.StepsGoRowByRow | src/cypher/planner.ts:281-295 | A compiled pattern over rows that are at hand gives the rows it gives for each of them |
| MergedTwice.MergeIsIdempotentIff | src/cypher/operators-write.ts:221-251 | For patterns without bound variables and ON actions, over any rows: the first pass writes the pattern once unless every row matches; every later pass writes nothing if and only if each row matched at first, or the pattern reads back and the row holds no anonymous first node where the pattern asks for one; otherwise every later pass writes it again |
| MergedTwice.CreatedAgainIff | src/cypher/operators-write.ts:221-251 | One such row, created once, has a match and is not created again if and only if the pattern reads back and the anchor is free; so any pattern with an unnamed first node is created again over a row that holds the anonymous anchor |
| MergedTwice.MergeIsIdempotent | src/cypher/operators-write.ts:221-251 | With bound variables and gentle ON actions too: after a MERGE over any rows every row's pattern has a match, a second pass over the same rows creates nothing, and without ON MATCH actions it changes nothing |
| MergedTwice.MergedRowFits | src/cypher/operators-write.ts:221-251 | A merged row's pattern has a match, and something was created exactly if it had none |
| WrittenPatterns.WrittenMatchesIff | src/cypher/operators-write.ts:110-138 | Bound variables or not: once the pattern is written for one row, another matches exactly if the pattern fits, under what that row fixes, the old graph joined with what is written for the first; a check that needs nothing written |
| WrittenPatterns.UnboundWrittenIff | src/cypher/operators-write.ts:110-138 | Without bound variables a match in the written graph lies wholly in what was there or wholly in what was written: a row matches afterwards if and only if it did before, or its anchor is free and the pattern fits the nodes and relationships it writes |
| WrittenPatterns.PatternWritten | src/cypher/operators-write.ts:110-138 | Writing a pattern adds exactly one node for each new variable or unnamed node, made for its first position, and the pattern's relationships, and nothing else |
| WrittenPatterns.WrittenFits | src/cypher/operators-write.ts:110-138 | What CREATE wrote for a pattern that reads back is a match of the pattern |
| WrittenPatterns.PlainPatternsReadBack | src/cypher/operators-write.ts:200-219 | Patterns whose new variables occur once, with known labels and distinct property keys, read back |
| MergedTwice.CrossedReadsBack | src/cypher/operators-write.ts:110-127 | A pattern can read back although a variable asks more at its second place than its created node has: all of it fits the node made for another variable |
| MergedTwice.ReusedVariableMergesAgain | src/cypher/operators-write.ts:110-127 | `MERGE (n:A)-[:R]->(n:B)` does not read back and creates an A with a loop at every pass, because the second occurrence of a variable asks for a label its created node lacks |
| MergedTwice.AnonymousAnchorMergesAgain | src/cypher/planner.ts:311-326 | After a clause with an anonymous anchor `MERGE (:B)` never finds a B and creates one at every pass |
| MergedTwice.BoundNodeLetsAnchorMatch | src/cypher/planner.ts:311-326 | With a bound variable an anchored row may match once written: where the anchor already leads to b, `MERGE (:A)-[:R]->(b)-[:R]->(:B)` reaches the written B through b |
| Merging.MatcherFindsIff | src/cypher/planner.ts:228-234 | The compiled matcher finds a row exactly when some nodes fit the pattern and the row's bound variables |
| Merging.FitsPersist | src/cypher/operators-write.ts:221-251 | A match survives whatever later rows create and gentle actions set |
| Merging.PlainSetIsGentle | src/cypher/operators-write.ts:319-369 | Setting or removing a property the pattern does not ask for keeps the condition on ON actions |
| Merging.MergeOperator.Run | src/cypher/operators-write.ts:221-251 | The loop over rows, each seeing what the ones before merged and, where the matcher finds nothing, what this query wrote under its key, returns the rows and the graph of the specification, or stops where it throws |
| MergeActions.ActionsTakeEffect | src/cypher/operators-write.ts:218-250 | Over a whole query: a property set or removed ON MATCH is so at exactly the nodes that rows given out for a match, or for an earlier write, hold for the variable; one set ON CREATE at exactly the nodes that rows given out for a write hold; every other property is as it was, or as the pattern wrote it |
| MergeActions.RowsAreAnswered | src/cypher/operators-write.ts:218-250 | Each row is answered with the rows that show the nodes that fit it, if any do; or else with one row that holds the nodes written for an earlier row with the same bound nodes; or else with one row that names the pattern written for it |
| MergeActions.MatchedRowActs | src/cypher/operators-write.ts:226-234 | A row that matches: the rows given out show exactly the assignments that fit, and a property set ON MATCH is set at exactly the nodes some fitting assignment gives the variable; no node is made, no relationship changed |
| MergeActions.FoundRowsShowFits | src/cypher/operators-write.ts:226 | Both directions: the matcher's rows show exactly the nodes that fit the pattern and the row, and keep what the row had for the bound variables |
| MergeActions.CreatedRowActs | src/cypher/operators-write.ts:245-249 | A row whose pattern is written: the row given out names what was written, and a property set ON CREATE is set at exactly the nodes it holds |
| MergeActions.KnownRow | src/cypher/operators-write.ts:236-244 | A row answered from what the query wrote before holds the same nodes as the row created then |
| Merging.ExpandedRelIsEdge | src/cypher/operators.ts:75-89 | The variable of a directed relationship holds the very reference that was followed, in its real direction, and its end passes the label |
| Merging.ExpandedIntoRelIsEdge | src/cypher/operators.ts:110-126 | The same of a relationship into a bound node |
| Merging.MergeOperator.MergeOne | src/cypher/operators-write.ts:218-250 | Matches with ON MATCH applied, or else what was written before under the same key with ON MATCH applied, or else the written row with ON CREATE applied; what that does to the graph is MergeActions.ActionsTakeEffect |
| Merging.MergeOperator.CreatePath | src/cypher/operators-write.ts:110-138 | The pattern written, and the row that names its nodes and relationships |
| Merging.MergeOperator.CreateNodes | src/cypher/operators-write.ts:110-127 | Bound variables are reused and everything else created |
| Merging.MergeOperator.CreateRels | src/cypher/operators-write.ts:128-137 | Each relationship is created in its direction unless it is there, and its variable bound |
| Drafts.WriteEngine.ExecuteWrite | src/cypher/engine.ts:57-110 | All or nothing: on any failure, before, during or after the commit, own delta and home map are those at the start. It succeeds exactly when nothing throws, every write is accepted, and validation reports no error of one code, node, path and message more often for the model afterwards than for the model at the start; what is no error never decides |
| Drafts.ErrorFreeCommitsIff | src/authoring/model-draft-writer.ts:167-201 | From a model without errors a query commits exactly if its writes are accepted and the model afterwards has none |
| Drafts.WithinIff | src/authoring/model-draft-writer.ts:167-201 | The counted errors are within the baseline exactly if no error is reported more often, by the diagnostics' own fields |
| DraftWrites.WriteMeans | src/authoring/model-draft-writer.ts:80-160 | Every write is accepted exactly if the working model lets it, and leaves a model with exactly the nodes and edges it says: one node more, other attributes, one edge more or fewer, or a node gone with the edges at it |
| Drafts.WriteEngine.Drain | src/cypher/engine.ts:75-81 | The pipeline runs its writes up to the first that is refused |
| Drafts.ModelDraftWriter.Begin | src/authoring/model-draft-writer.ts:50-56 | A snapshot that shares no node with the draft, and the baseline of errors |
| Drafts.ModelDraftWriter.Commit | src/authoring/model-draft-writer.ts:58-67 | Commits exactly when the error multiset is within the baseline |
| Drafts.ModelDraftWriter.Rollback | src/authoring/model-draft-writer.ts:69-73 | Own delta and home map are back to the snapshot, whatever was changed in place |
| Drafts.ModelDraftWriter.NewErrors | src/authoring/model-draft-writer.ts:189-201 | Errors beyond the baseline, counted with repetition |
| Drafts.Beyond | src/authoring/model-draft-writer.ts:177-201 | The tally loop: each count of the baseline is used up by the first diagnostics that have it |
| Drafts.NoneLeft | src/authoring/model-draft-writer.ts:189-201 | No diagnostic is beyond the baseline exactly when the multiset of errors is within it |
| Drafts.ModelDraftWriter.Write | src/authoring/model-draft-writer.ts:80-155 | One operation, accepted or refused exactly as specified, with the draft changed accordingly |
| Drafts.ModelDraftWriter.Relate | src/authoring/model-draft-writer.ts:111-133 | Accepted exactly for an own source, a known target and a member that takes it; an edge that is there is not repeated |
| Drafts.ModelDraftWriter.Delete | src/authoring/model-draft-writer.ts:144-155 | Refused for a frozen node and, without DETACH, for one that an own edge touches |
| Drafts.ModelDraftWriter.CreateWith | src/authoring/model-draft-writer.ts:80-93 | A node with all its properties, unless its concept is unknown or its id taken |
| Drafts.ModelDraft.Model | src/authoring/model-draft.ts:126-138 | The cached model is always the one the current contents derive |
| Drafts.ModelDraft.Create | src/authoring/model-draft.ts:173-192 | One fresh own node, its home recorded, the cache dropped |
| Drafts.ModelDraft.SetAttrs | src/authoring/model-draft.ts:195-208 | Changes one own node in place; a frozen or unknown id is refused |
| Drafts.ModelDraft.AddRef | src/authoring/model-draft.ts:239-246 | Appends an edge |
| Drafts.ModelDraft.RemoveRef | src/authoring/model-draft.ts:249-255 | Drops every equal edge |
| Drafts.ModelDraft.Remove | src/authoring/model-draft.ts:258-264 | Removes a node and every edge touching it, leaving its home entry |
| Drafts.ModelDraft.Snapshot | src/authoring/model-draft.ts:223-226 | A deep copy: equal contents, new objects |
| Drafts.ModelDraft.Restore | src/authoring/model-draft.ts:229-235 | Contents of the snapshot, which stays usable because it is copied again |
| Drafts.WritesKeepSound | src/authoring/model-draft-writer.ts:80-155 | Every accepted write keeps own ids distinct and unfrozen and leaves no own edge without ends |
| Drafts.QueriesKeepSound | src/cypher/engine.ts:57-110 | So does every write query |
| Reconnect.RunKeepsOrder | src/model-data/reconnecting-adapter.ts:93-184 | Over every run of any number of concurrent callers: one reopen in flight at most, the current adapter open, a replaced one disposed of exactly once, calls within max(1, MaxAttempts) |
| Reconnect.StepKeepsOrder | src/model-data/reconnecting-adapter.ts:93-184 | The inductive step, for every event |
| Reconnect.AdaptersFollowDeliveries | src/model-data/reconnecting-adapter.ts:159-184 | After any run the current adapter is the last one a reopen gave, or the one at the start; all others given and the first are replaced, and each was disposed of once more |
| Reconnect.UnlessGivenSame | src/model-data/reconnecting-adapter.ts:159-184 | Over any run the current adapter is the same at the end exactly when no reopen gave one |
| Reconnect.OneReopenInFlight | src/model-data/reconnecting-adapter.ts:159-184 | After any run from a fresh connection two running reopen tasks are one and the same, and it is the one in the field; the field is cleared only after its task ended |
| Reconnect.ReplacedStaysReplaced | src/model-data/reconnecting-adapter.ts:159-184 | A replaced adapter never becomes current again and is disposed of exactly once, over the rest of any run |
| Reconnect.CallsStartOnOpenAdapter | src/model-data/reconnecting-adapter.ts:93-138 | No call starts on an adapter that was disposed of |
| Reconnect.NothingAfterPermanent | src/model-data/reconnecting-adapter.ts:105-109 | After a permanent failure its caller makes no further call in any continuation of the run, and ends with that failure |
| Reconnect.FinishedStays | src/model-data/reconnecting-adapter.ts:93-138 | A finished caller makes no further call |
| Reconnect.GivesUpForAReason | src/model-data/reconnecting-adapter.ts:103-151 | A caller ends in an error only for a permanent failure, spent attempts or a failed reopen |
| Reconnect.SecondTransientWaits | src/model-data/reconnecting-adapter.ts:124-133 | Over any run: after two transient failures of a caller in a row, each on the adapter current at the time and with attempts left, it waits for a reopen |
| Reconnect.FirstTransientSleeps | src/model-data/reconnecting-adapter.ts:124-133 | A first transient failure starts no reopen: the caller sleeps and calls again |
| Reconnect.CountStartsAnew | src/model-data/reconnecting-adapter.ts:115-123 | After an authorization failure, or a failure on an adapter since replaced, counting starts anew: one transient failure starts no reopen |
| Reconnect.AuthWaitsIff | src/model-data/reconnecting-adapter.ts:110-133 | An authorization failure waits for a reopen exactly if it was on the current adapter with attempts left; no failure on a replaced adapter does |
| Reconnect.CallerFinishes | src/model-data/reconnecting-adapter.ts:93-138 | In any run a caller takes at most three steps per attempt left, whatever the others do |
| Reconnect.RetriesOnFailedIff | src/model-data/reconnecting-adapter.ts:122-135 | A caller fails on the current adapter, waits for a reopen, and after any run without a call of its own calls again: on the adapter that failed it if and only if no reopen gave an adapter in that run; never, if the reopen it joined had not given its adapter yet |
| Reconnect.JoinsFinishedReopen | src/model-data/reconnecting-adapter.ts:140-184 | From any state in which a reopen is disposing of the old adapter: a caller that fails on the fresh one retries on the adapter that failed it |
| Reconnect.LateJoinIsReached | src/model-data/reconnecting-adapter.ts:93-184 | A run from a fresh connection that comes to such a state, and to the second caller's second call on the adapter that failed it |
| ConnectorWrites.SqlAdapter.Apply | src/model-data/sql-adapter.ts:227-313 | Either way of applying a batch leaves the table and the result of the specification; only a failing commit throws |
| ConnectorWrites.SqlAdapter.ApplySequential | src/model-data/sql-adapter.ts:241-258 | Applied and failed operations counted in a loop, each on the table the previous ones left |
| ConnectorWrites.SqlAdapter.ApplyTransactional | src/model-data/sql-adapter.ts:266-313 | Any failure rolls the whole batch back, and all failures are reported |
| ConnectorWrites.SqlSession.Perform | src/model-data/sql-adapter.ts:326-406 | One guarded upsert, unguarded delete or driver fault |
| ConnectorWrites.AppliedPlusFailed | src/model-data/sql-adapter.ts:241-258 | Every operation counts once, as applied or by its failure |
| ConnectorWrites.TransactionIsAllOrNothing | src/model-data/sql-adapter.ts:266-313 | A transactional batch leaves the table as it was unless every operation applied and the commit held |
| ConnectorWrites.SequentialIsPerOperation | src/model-data/sql-adapter.ts:241-258 | With distinct keys, what a sequential batch does to a row and whether it fails is what its one operation does alone |
| ConnectorWrites.OneTouchesItsKey | src/model-data/sql-adapter.ts:326-394 | An operation changes no other row, and a failed one none |
| ConnectorWrites.AppliedLeavesItsVersion | src/model-data/version-bumping-adapter.ts:27-40 | An applied, bumped upsert found its row at the expected version and left the next one |
| ConnectorWrites.ReportedVersionsAreHeld | src/model-data/version-bumping-adapter.ts:67-83 | Versions reported are exactly those that applied, bumped operations left in their rows |
| ConnectorWrites.VersionBumpingAdapter.Apply | src/model-data/version-bumping-adapter.ts:67-83 | Bumps, forwards and reports as specified, the loop over operations included |
| LostUpdates.EveryWriteExpectsTheLast | src/model-data/sql-adapter.ts:349-394 | Over every interleaving of sends, arrivals, repeated arrivals, reports and refreshes of any number of clients, a write of a present row is accepted exactly when it expects the version its last accepted write left, and leaves the version one above |
| LostUpdates.AcceptedWriteExpectsTheLast | src/model-data/sql-adapter.ts:349-394 | The same at one arrival, with the whole effect: its edits and the next version on that row, nothing on any other |
| LostUpdates.RunsKeepCount | src/model-data/connector-working-copy.ts:79-171 | Refreshed at any time, versions of a row rise one by one and nobody holds one the row has not had |
| LostUpdates.NoUpdateIsLost | src/model-data/connector-working-copy.ts:79-171 | Over every run in which no report is adopted on top of an older content, an accepted write was built by a client that had seen the row exactly as it is |
| LostUpdates.AcceptedWriteReplacesWhatItSaw | src/model-data/sql-adapter.ts:349-394 | The same at one arrival |
| LostUpdates.StepKeepsOrder | src/model-data/connector-working-copy.ts:153-171 | A step keeps what is seen no older than the version held if and only if it does not adopt a report on top of an older content |
| LostUpdates.RunsKeepOrder | src/model-data/connector-working-copy.ts:79-171 | So every run does that never adopts one so |
| LostUpdates.BackdatedWriteIsLost | src/model-data/connector-working-copy.ts:153-171 | Exactly when a refresh during a flush loses a write: the next write of a copy whose adopted version the row still has is accepted, and overwrites a content its client never saw if and only if the copy was loaded during the flush with a content older than the report |
| LostUpdates.RefreshDuringAFlushLosesItsWrite | src/model-data/connector-working-copy.ts:55-71 | A run from a fresh source that gets there |
| LostUpdates.LatestIsSeen | src/model-data/connector-working-copy.ts:153-171 | Holding the latest version means having seen the latest content |
| LostUpdates.WriteApplies | src/model-data/sql-adapter.ts:349-394 | A guarded write applies exactly at the version it expects |
| LostUpdates.HistoryIsKept | src/model-data/sql-adapter.ts:349-394 | Accepted contents stay in a row's history over every run: later ones only come after them |
| LostUpdates.VersionRisesIff | src/model-data/version-bumping-adapter.ts:27-32 | An accepted write raises the version exactly below the largest whole number a double counts |
| LostUpdates.AtTheLimitAWriteIsLost | src/model-data/version-bumping-adapter.ts:27-32 | At that number the version stands still and a second client overwrites the first unseen |
| LostUpdates.AbsentRowTakesAnyWrite | src/model-data/sql-adapter.ts:349-394 | After a delete every write of the row is accepted whatever it expects, and inserts its own fields alone |
| FlushedContents.SettledEditIsHeld | src/model-data/connector-working-copy.ts:79-162 | An edit that a flush drops, of an instance that still has its targets: the table of every writable source with distinct keys holds each mapped attribute as it was when the flush began, with the version counted up and every unmapped column as before; of a deleted instance there is no row |
| FlushedContents.PersistedEditIsHeld | src/model-data/connector-working-copy.ts:79-162 | The same of any edit that its source did not fail, for one source |
| FlushedContents.FieldsMean | src/model-data/connector-working-copy.ts:247-263 | An upsert carries a column exactly if some attribute is mapped to it and it is not the id column, with the value of the last such attribute |
| FlushedContents.UpsertHolds | src/model-data/sql-adapter.ts:326-406 | An upsert that applies writes each mapped attribute into its column, the version counted up where the batch is guarded, and leaves every other column |
| WorkingCopies.EditStaysIff | src/model-data/connector-working-copy.ts:79-149 | An edit stays pending exactly when one of its writable sources does not hold it: its batch rolled back, threw, or names its key among the failures |
| WorkingCopies.StaysIffNotPersisted | src/model-data/connector-working-copy.ts:79-149 | Composed with the SQL source: an edit's key fails exactly when its operation did not persist, sequential or transactional |
| WorkingCopies.OnlyOwnBindingsMatter | src/model-data/connector-working-copy.ts:102-134 | Whether an edit stays depends only on the answers of its own bindings |
| WorkingCopies.GroupsHoldWhatWasSent | src/model-data/connector-working-copy.ts:84-99 | Every binding gets one batch, holding all its operations in order |
| WorkingCopies.MarkSurvivesIff | src/model-data/connector-working-copy.ts:141-147 | Whatever edits are marked and documents refreshed while the batches are awaited: a mark that is there when the flush ends survives if and only if one of the targets its instance has by then was sent in this flush and failed |
| WorkingCopies.FirstMarkDuringFlushIsDropped | src/model-data/connector-working-copy.ts:141-147 | So an instance first marked while the flush is awaited, or pointed at other rows meanwhile, loses its mark whatever the sources answer |
| WorkingCopies.RebindDropsAFailedEdit | src/model-data/connector-working-copy.ts:55-71 | A refresh during a flush that moves an instance to another row drops its edit although every source failed it |
| WorkingCopies.EditDuringFlushIsDropped | src/model-data/connector-working-copy.ts:141-147 | An instance marked again meanwhile, its targets the same at the end, loses the second mark when the first was taken |
| WorkingCopies.SentVersionIsExpected | src/model-data/connector-working-copy.ts:247-273 | An upsert expects exactly the version it sends |
| WorkingCopies.NextWriteExpectsTheReport | src/model-data/connector-working-copy.ts:153-171 | After adopting a report an instance with one source expects the reported version, its other attributes unchanged |
| WorkingCopies.ConnectorWorkingCopy.Flush | src/model-data/connector-working-copy.ts:79-149 | Batches sent each on its own, with marks and refreshes while they are awaited, reported versions adopted by the copy as it is by then, and exactly the retained edits left pending |
| WorkingCopies.ConnectorWorkingCopy.Collect | src/model-data/connector-working-copy.ts:84-99 | The loops over edits and targets build the batches of the specification; what their operations carry is FlushedContents.FieldsMean |
| WorkingCopies.ConnectorWorkingCopy.FailingKeys | src/model-data/connector-working-copy.ts:123-134 | All keys of a rolled back batch, else those its failures name |
| WorkingCopies.ConnectorWorkingCopy.Settle | src/model-data/connector-working-copy.ts:141-147 | Drops exactly the edits no source asks to keep |
| WorkingCopies.ConnectorWorkingCopy.AdoptVersions | src/model-data/connector-working-copy.ts:153-171 | A reported version reaches exactly the instances with that one write target |
| WorkingCopies.ConnectorWorkingCopy.Rebind | src/model-data/connector-working-copy.ts:55-71 | Edits of vanished instances are dropped and named; the others stay |
| WorkingCopies.ConnectorWorkingCopy.Record | src/model-data/connector-working-copy.ts:204-215 | A later mark replaces an earlier one; only read-only targets refuse it |
| ManifestCodec.ContainerReadsBack | src/manifest/binary-codec.ts:16-129 | Reading the serialized bytes gives back every heap entry, table row, the root and the identity, for every manifest whose indices exist |
| ManifestCodec.ReadManifestIsSame | src/manifest/binary-codec.ts:25-28 | It comes back unchanged exactly when its strings heap already has its identity |
| ManifestCodec.StreamsInPlace | src/manifest/binary-codec.ts:81-128 | Every recorded offset is the position, a multiple of four, where its stream starts |
| ManifestCodec.HeaderReadsBack | src/manifest/manifest-reader.ts:40-70 | Magic number, flags, root, identity and both directories are read back |
| ManifestCodec.TablesReadBack | src/manifest/manifest-reader.ts:78-98 | Every table is read back from its own offset with the widths the flags give |
| ManifestLayout.WidthHolds | src/manifest/schema.ts:25-42 | The width chosen from the counts holds every value the column may have |
| ManifestLayout.FlagsReadBack | src/manifest/index-widths.ts:77-80 | Every bit of the flags word is read back |
| ManifestLayout.RowsReadBack | src/manifest/schema.ts:146-151 | The rows of a stream are read back each from its own record offset |
| ManifestLayout.StreamsAreAtOffsets | src/manifest/binary-codec.ts:81-127 | The offset arithmetic: aligned cumulative lengths are where the padded streams lie |
| ManifestLayout.FromCounts | src/manifest/index-widths.ts:50-74 | Setting bits one at a time gives the flags word of the counts, within sixteen bits |
| Bytes.VarlenReadsBack | src/manifest/bytes.ts:74-94 | A compressed integer is read back as itself and nothing more is read |
| Bytes.VarlenLengthInFirstByte | src/manifest/bytes.ts:175-188 | The first bits tell the length, as section II.23.2 of ECMA-335 has it |
| Bytes.FixedReadsBack | src/manifest/bytes.ts:58-63 | A little-endian integer of any width that holds it is read back |
| Bytes.PadLands | src/manifest/bytes.ts:97-103 | Padding ends on a multiple of the boundary |
| Bytes.ByteWriter.Ensure | src/manifest/bytes.ts:24-33 | Room for what is to come, nothing written lost |
| Bytes.ByteWriter.VarlenU32 | src/manifest/bytes.ts:74-94 | Appends the compressed form, or nothing when out of range |
| Bytes.ByteWriter.Align | src/manifest/bytes.ts:97-103 | Appends zeros up to the boundary |
| Bytes.ByteWriter.Uint | src/manifest/bytes.ts:35-63 | Appends the low bytes, least significant first |
| ManifestSerializer.Serialize | src/manifest/binary-codec.ts:16-129 | The buffers, offsets and cursors of the writer produce exactly the container |
| ManifestSerializer.WriteHeader | src/manifest/binary-codec.ts:94-116 | Header and directories in their order |
| ManifestSerializer.WriteStreams | src/manifest/binary-codec.ts:118-127 | Streams with padding between them |
| ManifestSerializer.LayOut | src/manifest/binary-codec.ts:81-92 | The cursor loop records where each stream starts |
| ManifestSerializer.PackTable | src/manifest/binary-codec.ts:53-72 | Rows packed one after the other |
| ManifestSerializer.ParseRow | src/manifest/manifest-reader.ts:85-96 | A row read at the cursor, or nothing when the bytes end |
| ManifestSerializer.ByteReader.VarlenU32 | src/manifest/bytes.ts:175-188 | Reads a compressed integer and moves behind it |
| ManifestSerializer.ByteReader.Uint | src/manifest/bytes.ts:134-164 | Reads a little-endian integer and moves behind it |
| Heaps.StringsReadBack | src/manifest/strings-heap.ts:49-94 | Every string of the heap is read back from its bytes |
| Heaps.StringsHeap.Intern | src/manifest/strings-heap.ts:26-34 | Equal strings get equal indices, and no index given before changes its meaning |
| Heaps.StringsHeap.ToBytes | src/manifest/strings-heap.ts:49-60 | Entries behind their lengths |
| Heaps.ConstReadsBack | src/manifest/const-heap.ts:110-153 | A constant of any tag is read back |
| Heaps.ConstsAreDistinct | src/manifest/const-heap.ts:155-161 | Constants share a blob exactly when they are equal |
| Heaps.ConstHeap.Intern | src/manifest/const-heap.ts:39-50 | The index of a constant's blob, which decodes to it; earlier indices stay good |
| Utf8.TextReadsBack | src/manifest/strings-heap.ts:49-94 | UTF-8 as in section 3 of RFC 3629 loses nothing |
| LogicalManifests.ForwardRowsIff | src/manifest/manifest-writer.ts:281-318 | Row numbers given ahead are the rows appended later if and only if annotation types that are also referenced as types come after those that are not |
| LogicalManifests.SharedFirstIsWrong | src/manifest/manifest-writer.ts:281-318 | A manifest where they do not: references to one annotation type point at the second row of another |
| LogicalManifests.OriginIsNearest | src/manifest/logical.ts:180-187 | The origin of a pinned field is the nearest declaring ancestor, and missing exactly when none declares it, also in cyclic hierarchies |
| LogicalManifests.FullNameReadsBack | src/manifest/manifest-writer.ts:267-272 | Splitting a qualified id loses nothing |
| Lowering.FromLogical | src/manifest/manifest-writer.ts:274-458 | The tables represent the manifest: a row per type, taxonomy and class in order, each member slice contiguous and exactly its owner's members, field slices one after the other, each pinned value with the row remembered for its origin; all indices in range |
| Lowering.NumberTypes | src/manifest/manifest-writer.ts:281-318 | Types are numbered in the order they first occur |
| Lowering.Lowerer.Concepts | src/manifest/manifest-writer.ts:349-395 | One row per concept in order, and the row of every declared field remembered |
| Lowering.Lowerer.Bares | src/manifest/manifest-writer.ts:396-415 | Primitives and annotation types appended in order |
| Lowering.Lowerer.Taxonomies | src/manifest/manifest-writer.ts:417-428 | One row per taxonomy with its slice of represented types |
| Lowering.Lowerer.Classes | src/manifest/manifest-writer.ts:430-453 | One row per class with its slice of pinned values |
| Lowering.ManifestWriter.AddConcept | src/manifest/manifest-writer.ts:352-394 | A concept's slices of fields, relationships and annotations are exactly its own |
| Lowering.ManifestWriter.AddFixed | src/manifest/manifest-writer.ts:436-441 | A pinned value gets the row remembered under the joined text of its nearest declaring ancestor and field |
| Lowering.ManifestWriter.PackAnnotations | src/manifest/manifest-writer.ts:334-347 | An owner's applications are contiguous, with their argument slices |
| Lowering.PinsAreRightIff | src/manifest/manifest-writer.ts:355-440 | Every value that can be pinned names its nearest declaring ancestor's field if and only if no two declared fields join to the same text with a dot |
| Lowering.PinIsRightIff | src/manifest/manifest-writer.ts:436-441 | The same for one pin: exactly when no later declared field joins to the text of its origin and field |
| Lowering.CollidingPinIsWrong | src/manifest/manifest-writer.ts:355-440 | Concept `a` declaring `b.c` and concept `a.b` declaring `c`: a value pinned to the first names the second |
| Lowering.DeclaredRowHolds | src/manifest/manifest-writer.ts:349-363 | The row counted for a declared field lies in its concept's slice and holds that field |
| Lowering.RememberedIsThere | src/manifest/manifest-writer.ts:355-363 | What is remembered under a text is the row of the last field with that text |
| Lowering.AllWritten | src/manifest/manifest-writer.ts:274-458 | Later passes leave what earlier passes wrote in place |
| ManifestValidators.LoweredIsValid | src/manifest/manifest-validator.ts:38-166 | The validator finds no error in any lowered manifest |
| ManifestValidators.Validate | src/manifest/manifest-validator.ts:38-88 | The loops over tables, rows and columns report no error exactly when there is none |
| ManifestValidators.ValidateRows | src/manifest/manifest-validator.ts:96-141 | Every index, reference, kind and cardinality in its range |
| ManifestValidators.ValidateSlices | src/manifest/manifest-validator.ts:143-166 | Every slice in its table |
| ManifestValidators.ValidSlicesLieInTables | src/manifest/manifest-validator.ts:143-166 | In a manifest without errors no slice of fields, relationships, targets or pinned values leaves its table |
| ManifestValidators.ValidReadsBack | src/manifest/manifest-validator.ts:38-88 | What the validator accepts survives the container |
| ManifestValidators.LoweredReadsBack | src/manifest/manifest-writer.ts:246-252 | A lowered manifest comes back from its container |
| ManifestValidators.ReferencesResolve | src/manifest/manifest-writer.ts:326-329 | With exact forward numbers every reference names the type it was lowered from |
| GraphStores.MutateKeepsClosed | src/compiler-services/model/graph-store.ts:80-191 | Every mutation leaves each edge between nodes that exist |
| GraphStores.AdjacenciesAgree | src/compiler-services/model/graph-store.ts:70-78 | An edge is in its source's out list exactly as often as in its target's in list |
| GraphStores.DetachKeeps | src/compiler-services/model/graph-store.ts:153-171 | Taking a node's edges out of the lists of their other ends leaves exactly the edges that do not touch it, self-loops included |
| GraphStores.InMemoryGraphStore.AddNode | src/compiler-services/model/graph-store.ts:80-107 | The node, and its entries in both indexes; a taken id is refused |
| GraphStores.InMemoryGraphStore.AddEdge | src/compiler-services/model/graph-store.ts:109-121 | The edge in both adjacencies; a missing end is refused |
| GraphStores.InMemoryGraphStore.RemoveEdge | src/compiler-services/model/graph-store.ts:123-131 | Every equal edge gone from both adjacencies |
| GraphStores.InMemoryGraphStore.Remove | src/compiler-services/model/graph-store.ts:153-191 | The node, its index entries and every edge touching it gone, empty index buckets too |
| GraphStores.InMemoryGraphStore.AddFieldDecl | src/compiler-services/model/graph-store.ts:133-141 | A field appended to one node |
| GraphStores.InMemoryGraphStore.SetAttr | src/compiler-services/model/graph-store.ts:143-151 | One attribute of one node changed |
| GraphStores.InMemoryGraphStore.InstancesOf | src/compiler-services/model/graph-store.ts:58-62 | Exactly the nodes of a type |
| GraphStores.InMemoryGraphStore.OutEdges | src/compiler-services/model/graph-store.ts:70-73 | The edges out of a node in the order they were added |
| GraphStores.InMemoryGraphStore.InEdges | src/compiler-services/model/graph-store.ts:75-78 | The edges into a node in the order they were added |
| CypherStores.RecordedRuns | src/compiler-services/model/cypher-store.ts:126-186 | Running the statement recorded for a mutation does to the database what the mutation did to the working copy |
| CypherStores.CypherGraphStore.Change | src/compiler-services/model/cypher-store.ts:126-186 | An accepted mutation is recorded; unless it names an attribute like a node column, replaying everything recorded on the loaded database still loads equal to the working copy |
| CypherStores.CypherGraphStore.Flush | src/compiler-services/model/cypher-store.ts:201-205 | The replay happens: the database loads equal to the working copy and nothing is left to record; when the driver throws half way, the statements run so far have run and all stay recorded |
| CypherStores.Load | src/compiler-services/model/cypher-store.ts:57-90 | A store loaded from a database holds exactly its nodes and relationships; it fails exactly when an id is there twice |
| CypherStores.NodeReadsBack | src/compiler-services/model/cypher-store.ts:60-79 | A node written as columns and attributes is loaded as it was |
| CypherStores.ColumnAttributesAreLost | src/compiler-services/model/cypher-store.ts:62-65 | An attribute called like a node column does not come back, and overwrites the column |
| CypherStores.RetryIsHarmlessIff | src/compiler-services/model/cypher-store.ts:201-205 | A flush stopped after k statements and retried from the start leads to a database that loads equal to the working copy if and only if the log deletes, somewhere, every node and every relationship those k create |
| CypherStores.RetryFails | src/compiler-services/model/cypher-store.ts:201-205 | Otherwise a node is there twice, or a relationship more often than in the working copy |
| Domains.Domain.Load | src/domain/domain.ts:106-130 | After a successful load the registry is valid: everything listed is reached, every dependency of what is loaded is loaded or under way, counts are importers; with acyclic dependencies the list is dependencies first |
| Domains.Domain.LoadDependencies | src/domain/domain.ts:117-124 | The loop over dependencies counts each once it is loaded |
| Domains.Domain.TryUnload | src/domain/domain.ts:132-154 | Unloads exactly when nothing imports the manifest and no foreign node is bound to it, otherwise nothing changes; a reference without a version means the latest loaded manifest of the model |
| Domains.Domain.BindSeed | src/domain/graph.ts:212-229 | Binds seed nodes up to the first whose type nothing owns |
| Domains.Domain.GetManifest | src/domain/graph.ts:145-151 | Without a version, the latest loaded manifest of the model |
| Domains.Domain.Evict | src/domain/graph.ts:238-248 | Exactly the nodes of the manifest's own seed leave the heap |
| Domains.Domain.Release | src/domain/domain.ts:147-149 | One import fewer per entry, clamped at zero |
| Domains.ClampNeverMatters | src/domain/domain.ts:147-149 | Over valid registries the clamp at zero never fires |
| Domains.UnimportedIff | src/domain/domain.ts:117-139 | Between loads a count is the number of loaded importers, with multiplicity, and zero exactly when no loaded manifest needs it |
| Domains.UnloadKeeps | src/domain/domain.ts:132-154 | Unloading keeps the registry valid and a dependencies-first list so |
| Domains.FinalizeKeeps | src/domain/graph.ts:129-132 | Finishing a load keeps the registry valid |
| Domains.BindKeeps | src/domain/graph.ts:212-229 | Binding seeds keeps every heap node typed by a loaded manifest |
| Domains.ReachedIsLoaded | src/domain/domain.ts:106-130 | Everything reached from a loaded manifest is loaded |
| Domains.CyclesStayLoaded | src/domain/domain.ts:132-154 | Once loaded, a package on a dependency cycle of any length stays loaded and is refused by every unload over every run of loads and unloads |
| Domains.OwnerStaysIff | src/domain/graph.ts:168-189 | A further load leaves a type name with its owner if and only if a loaded manifest has it as a full name, or the new one has it neither as a full nor as a simple name |
| Domains.OwnerIsLostIff | src/domain/graph.ts:168-189 | A further load leaves a type name without any owner exactly when nobody has it as a full name and the new manifest has a type of that simple name |
| Domains.OwnersSurviveUnload | src/domain/domain.ts:132-154 | An unload leaves every node of the heap with the manifest that owns its type |
| Domains.LaterLoadTakesTheOwner | src/domain/graph.ts:168-189 | Two packages with a type of the same simple name: loading the second takes the owner of the nodes of the first |
| Domains.Domain.FindOwner | src/domain/graph.ts:168-189 | The loops over manifests and types find the first with the full name, or the only one with the simple name |

## Left out

- MergedTwice.MergeIsIdempotent: the ON actions are parameters; the condition on them is that they leave the pattern's nodes, properties and relationships alone, which single properties outside the pattern do (PlainSetIsGentle). With bound variables whether a row is created again depends on the graph; the exact condition there is WrittenMatchesIff.
- MergeActions.ActionsTakeEffect: each ON action sets or removes one property of a node to a constant value; several items, and values computed from the row, are not followed into the graph.
- FlushedContents.SettledEditIsHeld: for batches whose keys are distinct; of two operations for one row the later one decides in the source.
- ProjectionScope.ResolvedMeans: for projections without aggregates and conditions without map literals, functions being told in any case.
- RowLaws.SumMeans: addition is a parameter, which the sum takes to be exact; rounding is not modelled.
- PushDownExtent.LabelledQueriesAreAnalyzed: one half; a node without a label is also told by a variable bound before it, which is stated for one path only.
- WritePlans.WriteQueryDrains: what a writing clause does with a row is a parameter, and the scope checks of a write query are not repeated; a LIMIT 0 in a WITH has the law of DrainSkips instead.
- MatchExactness.AssignmentsAreSolutions: fixed-length relationships only, as a set of assignments; node variables are kept apart from relationship variables and from the names the planner generates.
- PushDownSoundness.PushDownPreservesAnswers: the same separation of names is required, and parameters hold and scalar functions invent no node.
- LostUpdates.NoUpdateIsLost: runs have no deletes, no version set by hand and no write past the largest whole number, besides the reports adopted on top of older contents; each of these but the version set by hand has its lemma.
- Domains.Domain.Load: one load at a time; concurrent loads interleave at awaits, which is not modelled. A package is taken to hold the manifest of the identity it is found under.
- Lowering.FromLogical: interning happens as rows are written, but the order of the heap entries is not stated; the members of an object come in the order of its keys, also when they look like integers; lowered manifests import nothing.
- GraphStores.InMemoryGraphStore.Change: node objects handed out or kept by callers alias the stored ones in the source; here nodes are values.
- CypherStores.CypherGraphStore.Change: the JSON text of field declarations is a property kind of its own; relationships name the ids of their ends, so an attribute called id, which would rename a node, is not followed.
- ManifestCodec.ContainerReadsBack: reading is a function that turns truncated input into an error; the source reads undefined bytes there. A double is its 64 bits.
- Numbers are finite, each stood for by its shortest decimal: NaN, negative zero and infinities are left out. Arithmetic and scalar functions on them are parameters.
- Strings are sequences of code points; comparison and escapes by UTF-16 code unit differ only outside the basic plane. Lone surrogates are left out.
- A number with more than one point ("1.2.3") is one token that is no number, as in the source.
- Expression evaluation is total: a missing parameter or unknown function gives what the environment says instead of throwing.
- Strict scope checking with WITH, literal expressions made of values, and node references that were never committed are not in the query model.
- Planning errors of an OPTIONAL MATCH are raised when the plan is built rather than at its first row; its inner plan is compiled once with the row as an argument.
- Sorting is a stable insertion sort; the source calls the runtime's stable sort. Aggregates accumulate over the rows of a group at the end instead of row by row.
- Function names are printed as they are, so plain words that are no keywords are required of a query that is to be read back.
- Scanning a label that names no concept yields no row; the source throws when the scan starts. A MERGE of such a label throws here as there.
- Cancellation, row limits of the engine, statistics and messages of errors.
- The overlay's scans and hops are proved equal to those of the applied graph one by one; that whole plans over it give the same rows up to order is not stated.
- Node references inside overlay mirrors of untouched referrers, and field masking when a mirror is materialized.
- The base graph of an overlay is well formed: one entry per member, no dangling or repeated reference. Fresh ids come from a generator that never repeats.
- In the draft, edges other than relationships, reopening source files, emitting text, and the validator, which is a parameter.
- In the connector, SQL text and driver types, diagnostics of a flush, versions that are no whole numbers, and separators inside keys.
- In the reconnecting adapter, disposal by its owner, the observer and the backoff delays; a reopen gives an adapter never seen before.
- In the domain, edges of seeds, load and unload events, and `model@version` as text rather than a pair.
- In the validator, warnings, the format tag and the checks of imports, which a lowered manifest does not have.
- Code generation, the TODL loader and its validator, reflection, the language server, the user interface, registries and migrations: text templates, wiring or code with no state to reason about here.
