/**
 Sorting, de-duplication and paging of rows.

 Main results: sorting is a stable-order permutation whose grouping keys depend only on the multiset of the rows
 (`SortedKeysAreUnique`); the pages of independent runs of an unordered query, each enumerating the same rows in its own
 order, concatenate to the full sorted result exactly when rows that tie in the implicit order show the same
 (`PagesStableForIff`), so for any rows exactly when the order reads every column (`PagesAreStableIff`); and a page reports
 more rows exactly when there are more (`Page`).
 */
module Ordering {
  import opened Wrappers
  import opened Numbers
  import opened Values
  import opened Query
  import opened Evaluation
  import opened Seqs

  // ---- sorting ------------------------------------------------------------------------------------------------

  function CompareBy(a: Row, b: Row, keys: seq<SortItem>, env: Env): int {
    if keys == [] then 0
    else
      var c := Compare(Evaluate(keys[0].expr, a, env), Evaluate(keys[0].expr, b, env));
      if c != 0 then (if keys[0].descending then -c else c) else CompareBy(a, b, keys[1..], env)
  }

  /** Puts a row before the first row that does not come before it: equal rows keep their order. */
  function InsertRow(row: Row, sorted: seq<Row>, keys: seq<SortItem>, env: Env): seq<Row> {
    if sorted == [] || CompareBy(row, sorted[0], keys, env) <= 0 then [row] + sorted
    else [sorted[0]] + InsertRow(row, sorted[1..], keys, env)
  }

  function SortRows(rows: seq<Row>, keys: seq<SortItem>, env: Env): seq<Row> {
    if rows == [] then [] else InsertRow(rows[0], SortRows(rows[1..], keys, env), keys, env)
  }

  lemma {:induction false} InsertRowMultiset(row: Row, sorted: seq<Row>, keys: seq<SortItem>, env: Env)
    ensures multiset(InsertRow(row, sorted, keys, env)) == multiset{row} + multiset(sorted)
  {
    hide CompareBy;
    if sorted != [] {
      InsertRowMultiset(row, sorted[1..], keys, env);
      assert sorted == [sorted[0]] + sorted[1..];
    }
  }

  /** Sorting keeps every row, with its multiplicity. */
  lemma {:induction false} SortRowsMultiset(rows: seq<Row>, keys: seq<SortItem>, env: Env)
    ensures multiset(SortRows(rows, keys, env)) == multiset(rows)
  {
    if rows != [] {
      SortRowsMultiset(rows[1..], keys, env);
      InsertRowMultiset(rows[0], SortRows(rows[1..], keys, env), keys, env);
      assert rows == [rows[0]] + rows[1..];
    }
  }

  lemma {:induction false} CompareByAntisymmetric(a: Row, b: Row, keys: seq<SortItem>, env: Env)
    ensures Sign(CompareBy(b, a, keys, env)) == -Sign(CompareBy(a, b, keys, env))
  {
    hide Compare, Evaluate;
    if keys != [] {
      CompareAntisymmetric(Evaluate(keys[0].expr, a, env), Evaluate(keys[0].expr, b, env));
      CompareByAntisymmetric(a, b, keys[1..], env);
    }
  }

  lemma {:induction false} CompareByTransitive(a: Row, b: Row, c: Row, keys: seq<SortItem>, env: Env)
    ensures Chain(CompareBy(a, b, keys, env), CompareBy(b, c, keys, env), CompareBy(a, c, keys, env))
  {
    hide Compare, Evaluate;
    if keys != [] {
      var x, y, z := Evaluate(keys[0].expr, a, env), Evaluate(keys[0].expr, b, env), Evaluate(keys[0].expr, c, env);
      CompareByTransitive(a, b, c, keys[1..], env);
      CompareTransitive(x, y, z);
      CompareTransitive(z, y, x);
      CompareAntisymmetric(x, y);
      CompareAntisymmetric(y, z);
      CompareAntisymmetric(x, z);
      if Compare(x, y) == 0 && Compare(y, z) == 0 {
        TiesCompose(x, y, z);
      }
    }
  }

  ghost predicate Sorted(rows: seq<Row>, keys: seq<SortItem>, env: Env) {
    forall i, j :: 0 <= i < j < |rows| ==> CompareBy(rows[i], rows[j], keys, env) <= 0
  }

  lemma {:induction false} InsertRowSorted(row: Row, sorted: seq<Row>, keys: seq<SortItem>, env: Env)
    requires Sorted(sorted, keys, env)
    ensures Sorted(InsertRow(row, sorted, keys, env), keys, env)
  {
    hide CompareBy;
    var r := InsertRow(row, sorted, keys, env);
    if sorted != [] && CompareBy(row, sorted[0], keys, env) > 0 {
      CompareByAntisymmetric(row, sorted[0], keys, env);
      InsertRowSorted(row, sorted[1..], keys, env);
      InsertRowMultiset(row, sorted[1..], keys, env);
      var tail := InsertRow(row, sorted[1..], keys, env);
      forall j | 0 <= j < |tail| ensures CompareBy(sorted[0], tail[j], keys, env) <= 0 {
        assert tail[j] in multiset(tail);
        if tail[j] != row {
          assert tail[j] in sorted[1..];
          var k :| 0 <= k < |sorted[1..]| && sorted[1..][k] == tail[j];
          assert sorted[k + 1] == tail[j];
        }
      }
    } else if sorted != [] {
      forall j | 0 <= j < |sorted| ensures CompareBy(row, sorted[j], keys, env) <= 0 {
        CompareByTransitive(row, sorted[0], sorted[j], keys, env);
      }
    }
  }

  lemma {:induction false} SortRowsSorted(rows: seq<Row>, keys: seq<SortItem>, env: Env)
    ensures Sorted(SortRows(rows, keys, env), keys, env)
  {
    if rows != [] {
      SortRowsSorted(rows[1..], keys, env);
      InsertRowSorted(rows[0], SortRows(rows[1..], keys, env), keys, env);
    }
  }

  // ---- the implicit order of a paged query --------------------------------------------------------------------

  function Columns(items: seq<ReturnItem>): (r: seq<string>)
    ensures |r| == |items| && forall i :: 0 <= i < |r| ==> r[i] == items[i].ColumnName()
  {
    seq(|items|, i requires 0 <= i < |items| => items[i].ColumnName())
  }

  /**
   The column a reference to `name` in an ORDER BY reads: that of the first item projecting the variable `name` itself,
   if there is one, else the column of that name.
   */
  function ResolvedColumn(items: seq<ReturnItem>, name: string): string {
    if items == [] then name
    else if items[0].expr == VariableRef(name) then items[0].ColumnName()
    else ResolvedColumn(items[1..], name)
  }

  /** The columns an unordered paged query is sorted by: a reference to every output column, resolved like any other. */
  function ResolvedColumns(items: seq<ReturnItem>): (r: seq<string>)
    ensures |r| == |items| && forall i :: 0 <= i < |r| ==> r[i] == ResolvedColumn(items, items[i].ColumnName())
  {
    seq(|items|, i requires 0 <= i < |items| => ResolvedColumn(items, items[i].ColumnName()))
  }

  function Ascending(columns: seq<string>): seq<SortItem> {
    if columns == [] then [] else [SortItem(VariableRef(columns[0]), false)] + Ascending(columns[1..])
  }

  function Cell(row: Row, column: string): Value {
    if column in row then row[column] else NullV
  }

  /** What the wire shows of a row, by grouping key. */
  function CellKeys(row: Row, columns: seq<string>): (r: seq<string>)
    ensures |r| == |columns| && forall i :: 0 <= i < |r| ==> r[i] == GroupKey(Cell(row, columns[i]))
  {
    if columns == [] then [] else [GroupKey(Cell(row, columns[0]))] + CellKeys(row, columns[1..])
  }

  /** Rows tie in an ascending order exactly when they agree in its columns. */
  lemma {:induction false} AscendingTies(a: Row, b: Row, order: seq<string>, env: Env)
    ensures CompareBy(a, b, Ascending(order), env) == 0 <==> CellKeys(a, order) == CellKeys(b, order)
  {
    hide Compare, GroupKey;
    if order != [] {
      AscendingTies(a, b, order[1..], env);
      TiesAreEqualKeys(Cell(a, order[0]), Cell(b, order[0]));
      var keys := Ascending(order);
      assert keys[0] == SortItem(VariableRef(order[0]), false) && keys[1..] == Ascending(order[1..]);
      assert CellKeys(a, order)[0] == GroupKey(Cell(a, order[0])) && CellKeys(b, order)[0] == GroupKey(Cell(b, order[0]));
      assert CellKeys(a, order)[1..] == CellKeys(a, order[1..]) && CellKeys(b, order)[1..] == CellKeys(b, order[1..]);
    }
  }

  /** Every output column is sorted by. */
  ghost predicate Covers(order: seq<string>, columns: seq<string>) {
    forall c :: c in columns ==> c in order
  }

  /** Rows that agree in the columns sorted by agree in all output columns. */
  ghost predicate TellsApart(all: seq<Row>, order: seq<string>, columns: seq<string>) {
    forall a, b :: a in all && b in all && CellKeys(a, order) == CellKeys(b, order) ==> CellKeys(a, columns) == CellKeys(b, columns)
  }

  lemma CoveredIsToldApart(all: seq<Row>, order: seq<string>, columns: seq<string>)
    requires Covers(order, columns)
    ensures TellsApart(all, order, columns)
  {
    forall a, b | a in all && b in all && CellKeys(a, order) == CellKeys(b, order) ensures CellKeys(a, columns) == CellKeys(b, columns) {
      forall i | 0 <= i < |columns| ensures CellKeys(a, columns)[i] == CellKeys(b, columns)[i] {
        assert columns[i] in order;
        var j :| 0 <= j < |order| && order[j] == columns[i];
        assert CellKeys(a, order)[j] == CellKeys(b, order)[j];
      }
    }
  }

  lemma TiesShowTheSame(all: seq<Row>, a: Row, b: Row, order: seq<string>, columns: seq<string>, env: Env)
    requires TellsApart(all, order, columns) && a in all && b in all && CompareBy(a, b, Ascending(order), env) == 0
    ensures CellKeys(a, columns) == CellKeys(b, columns)
  {
    hide CompareBy, GroupKey, Cell, Ascending, CellKeys;
    AscendingTies(a, b, order, env);
  }

  function AllKeys(rows: seq<Row>, columns: seq<string>): (r: seq<seq<string>>)
    ensures |r| == |rows| && forall i :: 0 <= i < |r| ==> r[i] == CellKeys(rows[i], columns)
  {
    seq(|rows|, i requires 0 <= i < |rows| => CellKeys(rows[i], columns))
  }

  lemma RemoveAt(s: seq<Row>, i: nat)
    requires i < |s|
    ensures multiset(s[..i] + s[i + 1..]) == multiset(s) - multiset{s[i]}
  {
    assert s == s[..i] + [s[i]] + s[i + 1..];
  }

  lemma SortedWithout(s: seq<Row>, i: nat, keys: seq<SortItem>, env: Env)
    requires i < |s| && Sorted(s, keys, env)
    ensures Sorted(s[..i] + s[i + 1..], keys, env)
  {
    hide CompareBy;
    var t := s[..i] + s[i + 1..];
    forall a, b | 0 <= a < b < |t| ensures CompareBy(t[a], t[b], keys, env) <= 0 {
      assert t[a] == s[if a < i then a else a + 1] && t[b] == s[if b < i then b else b + 1];
    }
  }

  /** The element at the head of one sorted arrangement ties with every element before it in the other. */
  lemma TiesBefore(a: seq<Row>, b: seq<Row>, i: nat, keys: seq<SortItem>, env: Env)
    requires Sorted(a, keys, env) && Sorted(b, keys, env) && multiset(a) == multiset(b)
    requires |a| > 0 && i < |b| && b[i] == a[0]
    ensures forall j :: 0 <= j <= i ==> CompareBy(b[j], a[0], keys, env) == 0
  {
    hide CompareBy;
    forall j | 0 <= j <= i ensures CompareBy(b[j], a[0], keys, env) == 0 {
      assert b[j] in multiset(a);
      var k :| 0 <= k < |a| && a[k] == b[j];
      CompareByAntisymmetric(b[j], a[0], keys, env);
      if k == 0 || j == i {
        CompareByAntisymmetric(a[0], a[0], keys, env);
      }
    }
  }

  /** Two sorted arrangements of the same rows show the same cells, position by position. */
  lemma {:induction false} SortedKeysAreUnique(all: seq<Row>, a: seq<Row>, b: seq<Row>, order: seq<string>, columns: seq<string>, env: Env)
    requires TellsApart(all, order, columns) && multiset(a) == multiset(b) && forall row :: row in b ==> row in all
    requires Sorted(a, Ascending(order), env) && Sorted(b, Ascending(order), env)
    ensures AllKeys(a, columns) == AllKeys(b, columns)
    decreases |a|
  {
    hide CompareBy, CellKeys, Ascending, TellsApart, Sorted;
    var keys := Ascending(order);
    if a == [] {
      assert |multiset(b)| == 0;
    } else {
      assert a[0] in multiset(b);
      var i: nat :| i < |b| && b[i] == a[0];
      TiesBefore(a, b, i, keys, env);
      var rest := Dropped(b, i, keys, env);
      var tail := Dropped(a, 0, keys, env);
      forall row | row in rest ensures row in all {
        assert row in b[..i] || row in b[i + 1..];
      }
      SortedKeysAreUnique(all, tail, rest, order, columns, env);
      SamePositions(all, a, b, i, order, columns, env);
    }
  }

  lemma SamePositions(all: seq<Row>, a: seq<Row>, b: seq<Row>, i: nat, order: seq<string>, columns: seq<string>, env: Env)
    requires TellsApart(all, order, columns) && i < |b| && |a| > 0 && a[0] == b[i] && forall row :: row in b ==> row in all
    requires AllKeys(a[1..], columns) == AllKeys(b[..i] + b[i + 1..], columns)
    requires forall k :: 0 <= k <= i ==> CompareBy(b[k], a[0], Ascending(order), env) == 0
    ensures AllKeys(a, columns) == AllKeys(b, columns)
  {
    hide CompareBy, CellKeys, Ascending, TellsApart;
    assert |a[1..]| == |AllKeys(a[1..], columns)| == |b[..i] + b[i + 1..]|;
    forall j | 0 <= j < |b| ensures AllKeys(a, columns)[j] == AllKeys(b, columns)[j] {
      SamePosition(all, a, b, i, j, order, columns, env);
    }
  }

  ghost function Dropped(s: seq<Row>, i: nat, keys: seq<SortItem>, env: Env): (t: seq<Row>)
    requires i < |s| && Sorted(s, keys, env)
    ensures t == s[..i] + s[i + 1..] && |t| == |s| - 1 && (i == 0 ==> t == s[1..])
    ensures Sorted(t, keys, env) && multiset(t) == multiset(s) - multiset{s[i]}
  {
    RemoveAt(s, i);
    SortedWithout(s, i, keys, env);
    s[..i] + s[i + 1..]
  }

  /** Up to the place the head was found, everything ties with the head; behind it, nothing has moved. */
  lemma SamePosition(all: seq<Row>, a: seq<Row>, b: seq<Row>, i: nat, j: nat, order: seq<string>, columns: seq<string>, env: Env)
    requires TellsApart(all, order, columns) && i < |b| == |a| && j < |b| && a[0] == b[i] && forall row :: row in b ==> row in all
    requires AllKeys(a[1..], columns) == AllKeys(b[..i] + b[i + 1..], columns)
    requires forall k :: 0 <= k <= i ==> CompareBy(b[k], a[0], Ascending(order), env) == 0
    ensures CellKeys(a[j], columns) == CellKeys(b[j], columns)
  {
    hide CompareBy, CellKeys, Ascending, TellsApart;
    if j <= i {
      TiesShowTheSame(all, b[j], a[0], order, columns, env);
    }
    if 0 < j {
      var rest := b[..i] + b[i + 1..];
      assert a[1..][j - 1] == a[j];
      assert AllKeys(a[1..], columns)[j - 1] == AllKeys(rest, columns)[j - 1];
      if j <= i {
        assert rest[j - 1] == b[j - 1];
        TiesShowTheSame(all, b[j - 1], a[0], order, columns, env);
      } else {
        assert rest[j - 1] == b[j];
      }
    }
  }

  // ---- pages --------------------------------------------------------------------------------------------------

  function MinNat(a: nat, b: nat): nat {
    if a < b then a else b
  }

  /** The rows a page shows: at most `cap` rows after the first `skip`. */
  function PageOf<T>(rows: seq<T>, skip: nat, cap: nat): seq<T> {
    rows[MinNat(skip, |rows|)..MinNat(skip + cap, |rows|)]
  }

  /** The paging loop: discard, collect, then peek one row further. */
  method Page(rows: seq<Row>, skip: nat, cap: nat) returns (page: seq<Row>, hasMore: bool)
    requires cap > 0
    ensures page == PageOf(rows, skip, cap)
    ensures hasMore <==> skip + cap < |rows|
  {
    page := [];
    hasMore := false;
    var skipped := 0;
    var i := 0;
    while i < |rows|
      invariant 0 <= i <= |rows|
      invariant skipped == MinNat(skip, i)
      invariant page == rows[skipped..i] && |page| <= cap
      invariant !hasMore
    {
      if skipped < skip {
        skipped := skipped + 1;
      } else if |page| >= cap {
        hasMore := true;
        break;
      } else {
        page := page + [rows[i]];
      }
      i := i + 1;
    }
  }

  /** The run behind a page: some enumeration of the projected rows, sorted by the given columns. */
  function RunOf(rows: seq<Row>, order: seq<string>, env: Env): seq<Row> {
    SortRows(rows, Ascending(order), env)
  }

  /** What the pages of the runs show, page k being cut from run k. */
  function Pages(runs: seq<seq<Row>>, cap: nat, order: seq<string>, columns: seq<string>, env: Env, from: nat): seq<seq<string>> {
    if runs == [] then []
    else AllKeys(PageOf(RunOf(runs[0], order, env), from * cap, cap), columns)
         + Pages(runs[1..], cap, order, columns, env, from + 1)
  }

  lemma RunsAgree(all: seq<Row>, a: seq<Row>, b: seq<Row>, order: seq<string>, columns: seq<string>, env: Env)
    requires TellsApart(all, order, columns) && multiset(a) == multiset(all) == multiset(b)
    ensures AllKeys(RunOf(a, order, env), columns) == AllKeys(RunOf(b, order, env), columns)
  {
    var keys := Ascending(order);
    SortRowsMultiset(a, keys, env);
    SortRowsMultiset(b, keys, env);
    SortRowsSorted(a, keys, env);
    SortRowsSorted(b, keys, env);
    hide TellsApart, Sorted, SortRows, CellKeys;
    forall row | row in RunOf(b, order, env) ensures row in all {
      assert row in multiset(RunOf(b, order, env));
    }
    SortedKeysAreUnique(all, RunOf(a, order, env), RunOf(b, order, env), order, columns, env);
  }

  lemma KeysOfPage(rows: seq<Row>, skip: nat, cap: nat, columns: seq<string>)
    ensures AllKeys(PageOf(rows, skip, cap), columns) == PageOf(AllKeys(rows, columns), skip, cap)
  {
    hide CellKeys;
    var l, r := AllKeys(PageOf(rows, skip, cap), columns), PageOf(AllKeys(rows, columns), skip, cap);
    assert |l| == |r|;
    forall i | 0 <= i < |l| ensures l[i] == r[i] {
    }
  }

  lemma PagesMeet<T>(s: seq<T>, at: nat, cap: nat)
    ensures PageOf(s, at, cap) + s[MinNat(at + cap, |s|)..] == s[MinNat(at, |s|)..]
  {
  }

  lemma {:induction false} PagesFrom(all: seq<Row>, runs: seq<seq<Row>>, cap: nat, order: seq<string>, columns: seq<string>,
                                     env: Env, from: nat)
    requires TellsApart(all, order, columns) && forall i :: 0 <= i < |runs| ==> multiset(runs[i]) == multiset(all)
    requires |all| <= (from + |runs|) * cap
    ensures Pages(runs, cap, order, columns, env, from)
         == AllKeys(RunOf(all, order, env), columns)[MinNat(from * cap, |RunOf(all, order, env)|)..]
    decreases |runs|
  {
    hide CellKeys, RunOf, PageOf, TellsApart;
    var full := AllKeys(RunOf(all, order, env), columns);
    RunLength(all, order, env);
    if runs != [] {
      var run := RunOf(runs[0], order, env);
      RunsAgree(all, runs[0], all, order, columns, env);
      KeysOfPage(run, from * cap, cap, columns);
      assert from + 1 + |runs[1..]| == from + |runs|;
      PagesFrom(all, runs[1..], cap, order, columns, env, from + 1);
      assert (from + 1) * cap == from * cap + cap;
      PagesMeet(full, from * cap, cap);
    }
  }

  lemma RunLength(rows: seq<Row>, order: seq<string>, env: Env)
    ensures |RunOf(rows, order, env)| == |rows|
  {
    SortRowsMultiset(rows, Ascending(order), env);
    assert |multiset(RunOf(rows, order, env))| == |multiset(rows)|;
  }

  /** The runs each enumerate these rows, in an order of their own. */
  ghost predicate RunsOf(runs: seq<seq<Row>>, all: seq<Row>) {
    forall i :: 0 <= i < |runs| ==> multiset(runs[i]) == multiset(all)
  }

  /** Enough pages of these rows, each from a run of its own, show the whole sorted result once. */
  ghost predicate PagesStableFor(all: seq<Row>, order: seq<string>, columns: seq<string>, env: Env) {
    forall runs: seq<seq<Row>>, cap: nat :: RunsOf(runs, all) && |all| <= |runs| * cap ==>
      Pages(runs, cap, order, columns, env, 0) == AllKeys(RunOf(all, order, env), columns)
  }

  lemma PagesConcatenate(all: seq<Row>, order: seq<string>, columns: seq<string>, env: Env)
    requires TellsApart(all, order, columns)
    ensures PagesStableFor(all, order, columns, env)
  {
    hide TellsApart, CellKeys;
    forall runs: seq<seq<Row>>, cap: nat | RunsOf(runs, all) && |all| <= |runs| * cap
      ensures Pages(runs, cap, order, columns, env, 0) == AllKeys(RunOf(all, order, env), columns)
    {
      PagesFrom(all, runs, cap, order, columns, env, 0);
      assert 0 * cap == 0;
    }
  }

  // ---- when pages are not stable ------------------------------------------------------------------------------

  /** How many rows come before one. */
  function LessIn(row: Row, s: seq<Row>, keys: seq<SortItem>, env: Env): (n: nat)
    ensures n <= |s|
  {
    if s == [] then 0 else (if CompareBy(row, s[0], keys, env) > 0 then 1 else 0) + LessIn(row, s[1..], keys, env)
  }

  lemma {:induction false} LessConcat(row: Row, s: seq<Row>, t: seq<Row>, keys: seq<SortItem>, env: Env)
    ensures LessIn(row, s + t, keys, env) == LessIn(row, s, keys, env) + LessIn(row, t, keys, env)
  {
    hide CompareBy;
    if s == [] {
      assert s + t == t;
    } else {
      assert (s + t)[0] == s[0] && (s + t)[1..] == s[1..] + t;
      LessConcat(row, s[1..], t, keys, env);
    }
  }

  lemma LessWithout(row: Row, t: seq<Row>, i: nat, keys: seq<SortItem>, env: Env)
    requires i < |t|
    ensures LessIn(row, t, keys, env) == LessIn(row, t[..i] + t[i + 1..], keys, env) + if CompareBy(row, t[i], keys, env) > 0 then 1 else 0
  {
    hide CompareBy;
    LessConcat(row, t[..i], t[i + 1..], keys, env);
    assert t == t[..i] + t[i..] && t[i..][1..] == t[i + 1..];
    LessConcat(row, t[..i], t[i..], keys, env);
  }

  lemma SameAt(s: seq<Row>, t: seq<Row>) returns (i: nat)
    requires multiset(s) == multiset(t) && s != []
    ensures i < |t| && t[i] == s[0] && multiset(s[..0] + s[1..]) == multiset(t[..i] + t[i + 1..])
    ensures |s[..0] + s[1..]| < |s|
  {
    assert s[0] in multiset(t);
    i :| 0 <= i < |t| && t[i] == s[0];
    RemoveAt(t, i);
    RemoveAt(s, 0);
  }

  lemma {:induction false} LessPermuted(row: Row, s: seq<Row>, t: seq<Row>, keys: seq<SortItem>, env: Env)
    requires multiset(s) == multiset(t)
    ensures LessIn(row, s, keys, env) == LessIn(row, t, keys, env)
    decreases |s|
  {
    if s == [] {
      assert |multiset(t)| == 0;
    } else {
      hide CompareBy, LessIn;
      var i := SameAt(s, t);
      LessPermuted(row, s[..0] + s[1..], t[..i] + t[i + 1..], keys, env);
      LessWithout(row, s, 0, keys, env);
      LessWithout(row, t, i, keys, env);
    }
  }

  lemma {:induction false} NoneBefore(row: Row, s: seq<Row>, keys: seq<SortItem>, env: Env)
    requires forall i :: 0 <= i < |s| ==> CompareBy(row, s[i], keys, env) <= 0
    ensures LessIn(row, s, keys, env) == 0
  {
    hide CompareBy;
    if s != [] {
      NoneBefore(row, s[1..], keys, env);
    }
  }

  /** An inserted row stands right behind the rows that come before it. */
  lemma {:induction false} InsertedAt(row: Row, sorted: seq<Row>, keys: seq<SortItem>, env: Env)
    requires Sorted(sorted, keys, env)
    ensures LessIn(row, sorted, keys, env) < |InsertRow(row, sorted, keys, env)|
    ensures InsertRow(row, sorted, keys, env)[LessIn(row, sorted, keys, env)] == row
  {
    hide CompareBy;
    if sorted == [] {
    } else if CompareBy(row, sorted[0], keys, env) <= 0 {
      forall i | 0 <= i < |sorted| ensures CompareBy(row, sorted[i], keys, env) <= 0 {
        if i > 0 {
          CompareByTransitive(row, sorted[0], sorted[i], keys, env);
        }
      }
      NoneBefore(row, sorted, keys, env);
    } else {
      InsertedAt(row, sorted[1..], keys, env);
    }
  }

  /** The first row of a run stands before all others it ties with. */
  lemma FirstStands(row: Row, rest: seq<Row>, keys: seq<SortItem>, env: Env)
    ensures LessIn(row, rest, keys, env) < |SortRows([row] + rest, keys, env)|
    ensures SortRows([row] + rest, keys, env)[LessIn(row, rest, keys, env)] == row
  {
    hide CompareBy, Sorted;
    SortRowsSorted(rest, keys, env);
    SortRowsMultiset(rest, keys, env);
    LessPermuted(row, SortRows(rest, keys, env), rest, keys, env);
    InsertedAt(row, SortRows(rest, keys, env), keys, env);
    assert ([row] + rest)[0] == row && ([row] + rest)[1..] == rest;
  }

  lemma {:induction false} TiedLess(a: Row, b: Row, s: seq<Row>, keys: seq<SortItem>, env: Env)
    requires CompareBy(a, b, keys, env) == 0
    ensures LessIn(a, s, keys, env) == LessIn(b, s, keys, env)
  {
    hide CompareBy;
    if s != [] {
      TiedLess(a, b, s[1..], keys, env);
      CompareByAntisymmetric(a, b, keys, env);
      CompareByTransitive(a, b, s[0], keys, env);
      CompareByTransitive(b, a, s[0], keys, env);
      CompareByTransitive(s[0], a, b, keys, env);
      CompareByTransitive(s[0], b, a, keys, env);
      CompareByAntisymmetric(a, s[0], keys, env);
      CompareByAntisymmetric(b, s[0], keys, env);
    }
  }

  lemma TiedFirst(a: Row, b: Row, rest: seq<Row>, keys: seq<SortItem>, env: Env)
    requires CompareBy(a, b, keys, env) == 0
    ensures LessIn(a, [b] + rest, keys, env) == LessIn(a, rest, keys, env)
  {
    hide CompareBy;
    assert ([b] + rest)[0] == b && ([b] + rest)[1..] == rest;
  }

  /** Two runs that differ only in which of two tied rows comes first. */
  lemma TiedRunsDiffer(a: Row, b: Row, rest: seq<Row>, order: seq<string>, columns: seq<string>, env: Env)
    requires CellKeys(a, order) == CellKeys(b, order) && CellKeys(a, columns) != CellKeys(b, columns)
    ensures AllKeys(RunOf([a, b] + rest, order, env), columns) != AllKeys(RunOf([b, a] + rest, order, env), columns)
  {
    hide CompareBy, CellKeys, LessIn, SortRows;
    var keys := Ascending(order);
    AscendingTies(a, b, order, env);
    AscendingTies(b, a, order, env);
    assert [a, b] + rest == [a] + ([b] + rest) && [b, a] + rest == [b] + ([a] + rest);
    FirstStands(a, [b] + rest, keys, env);
    FirstStands(b, [a] + rest, keys, env);
    TiedFirst(a, b, rest, keys, env);
    TiedFirst(b, a, rest, keys, env);
    TiedLess(a, b, rest, keys, env);
    KeysDifferAt(RunOf([a, b] + rest, order, env), RunOf([b, a] + rest, order, env), LessIn(a, rest, keys, env), columns);
  }

  lemma KeysDifferAt(s: seq<Row>, t: seq<Row>, n: nat, columns: seq<string>)
    requires n < |s| && n < |t| && CellKeys(s[n], columns) != CellKeys(t[n], columns)
    ensures AllKeys(s, columns) != AllKeys(t, columns)
  {
    hide CellKeys;
    assert AllKeys(s, columns)[n] == CellKeys(s[n], columns);
  }

  lemma OneWholePage(run: seq<Row>, all: seq<Row>, order: seq<string>, columns: seq<string>, env: Env)
    requires PagesStableFor(all, order, columns, env) && multiset(run) == multiset(all)
    ensures AllKeys(RunOf(run, order, env), columns) == AllKeys(RunOf(all, order, env), columns)
  {
    hide RunOf, CellKeys;
    RunLength(run, order, env);
    assert |multiset(run)| == |multiset(all)|;
    assert RunsOf([run], all) && |all| <= |[run]| * |all|;
    assert [run][1..] == [] && PageOf(RunOf(run, order, env), 0 * |all|, |all|) == RunOf(run, order, env);
    assert Pages([run], |all|, order, columns, env, 0) == AllKeys(RunOf(run, order, env), columns) + Pages([], |all|, order, columns, env, 1);
  }

  /** For these rows, pages are stable exactly when rows that tie in the order show the same. */
  lemma PagesStableForIff(all: seq<Row>, order: seq<string>, columns: seq<string>, env: Env)
    ensures PagesStableFor(all, order, columns, env) <==> TellsApart(all, order, columns)
  {
    hide CellKeys, RunOf;
    if TellsApart(all, order, columns) {
      PagesConcatenate(all, order, columns, env);
    } else if PagesStableFor(all, order, columns, env) {
      var a, b :| a in all && b in all && CellKeys(a, order) == CellKeys(b, order) && CellKeys(a, columns) != CellKeys(b, columns);
      var rest := BothTaken(all, a, b);
      hide PagesStableFor, TellsApart;
      TiedRunsDiffer(a, b, rest, order, columns, env);
      assert multiset([a, b] + rest) == multiset([b, a] + rest) == multiset(all);
      OneWholePage([a, b] + rest, all, order, columns, env);
      OneWholePage([b, a] + rest, all, order, columns, env);
    }
  }

  lemma OneRemoved(all: seq<Row>, a: Row) returns (rest: seq<Row>)
    requires a in all
    ensures multiset(rest) == multiset(all) - multiset{a}
  {
    var i :| 0 <= i < |all| && all[i] == a;
    RemoveAt(all, i);
    rest := all[..i] + all[i + 1..];
  }

  lemma BothTaken(all: seq<Row>, a: Row, b: Row) returns (rest: seq<Row>)
    requires a in all && b in all && a != b
    ensures multiset([a, b] + rest) == multiset(all)
  {
    var without := OneRemoved(all, a);
    assert b in multiset(without);
    rest := OneRemoved(without, b);
    assert multiset([a, b] + rest) == multiset{a, b} + multiset(rest);
  }

  /** Whatever the rows, pages are stable. */
  ghost predicate PagesAreStable(items: seq<ReturnItem>, env: Env) {
    forall all: seq<Row> :: PagesStableFor(all, ResolvedColumns(items), Columns(items), env)
  }

  /**
   Pages are stable for any rows exactly when every output column is read by the resolved implicit order. They are not when
   an alias hides a variable that is itself projected under another name: `RETURN a AS x, x AS y` is sorted by y twice.
   */
  lemma PagesAreStableIff(items: seq<ReturnItem>, env: Env)
    ensures PagesAreStable(items, env) <==> Covers(ResolvedColumns(items), Columns(items))
  {
    var order, columns := ResolvedColumns(items), Columns(items);
    hide ResolvedColumns, Columns, PagesStableFor, CellKeys, TellsApart;
    if Covers(order, columns) {
      forall all: seq<Row> ensures PagesStableFor(all, order, columns, env) {
        CoveredIsToldApart(all, order, columns);
        PagesConcatenate(all, order, columns, env);
      }
    } else {
      var c :| c in columns && c !in order;
      var all: seq<Row> := UncoveredRows(order, columns, c);
      PagesStableForIff(all, order, columns, env);
    }
  }

  lemma TruthKeysDiffer()
    ensures GroupKey(ScalarV(Bool(true))) != GroupKey(ScalarV(Bool(false)))
  {
    TiesAreEqualKeys(ScalarV(Bool(true)), ScalarV(Bool(false)));
  }

  /** Two rows that differ in a column the order does not read. */
  lemma UncoveredRows(order: seq<string>, columns: seq<string>, c: string) returns (all: seq<Row>)
    requires c in columns && c !in order
    ensures !TellsApart(all, order, columns)
  {
    TruthKeysDiffer();
    hide GroupKey;
    var a: Row, b: Row := map[c := ScalarV(Bool(true))], map[c := ScalarV(Bool(false))];
    all := [a, b];
    assert all[0] == a && all[1] == b;
    assert CellKeys(a, order) == CellKeys(b, order) by {
      forall i | 0 <= i < |order| ensures CellKeys(a, order)[i] == CellKeys(b, order)[i] {
        assert order[i] in order;
        assert Cell(a, order[i]) == NullV == Cell(b, order[i]);
      }
    }
    var k :| 0 <= k < |columns| && columns[k] == c;
    assert CellKeys(a, columns)[k] != CellKeys(b, columns)[k];
  }
}
