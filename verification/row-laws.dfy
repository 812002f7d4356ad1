/**
 What the operators behind a projection compute.

 `GroupsMean`: the groups are the rows by the keys of their grouping values, each in input order, in the order of their first
 rows. The aggregates are stated on the argument values of a group: `CountMeans`, `SumMeans`, `ExtremeMeans`, and under
 DISTINCT on the first value of every key (`AcceptedMeans`). `DistinctMeans`: DISTINCT keeps the first row of every key.
 `SkipMeans` and `LimitMeans` say which rows a fractional count lets through.
 */
module RowLaws {
  import opened Wrappers
  import opened Numbers
  import opened NumberText
  import opened Values
  import opened Query
  import opened Evaluation
  import opened Graphs
  import opened Seqs
  import opened Operators
  import opened ValueOrder
  import VarLength

  // ---- the first of each key ----------------------------------------------------------------------------------

  /** The elements whose key no earlier element has, and that is not already seen. */
  ghost function FirstsOf<T, K>(s: seq<T>, key: T -> K, seen: set<K>): seq<T> {
    if s == [] then []
    else if key(s[0]) in seen then FirstsOf(s[1..], key, seen)
    else [s[0]] + FirstsOf(s[1..], key, seen + {key(s[0])})
  }

  ghost predicate IsFirst<T, K>(s: seq<T>, key: T -> K, p: nat) {
    p < |s| && forall q :: 0 <= q < p ==> key(s[q]) != key(s[p])
  }

  ghost predicate IsNewFirst<T, K>(s: seq<T>, key: T -> K, seen: set<K>, p: nat) {
    IsFirst(s, key, p) && key(s[p]) !in seen
  }

  /** `kept` are the elements of `s` at the positions that are first of their key, in order. */
  ghost predicate KeepsFirsts<T, K>(s: seq<T>, key: T -> K, seen: set<K>, kept: seq<T>, at: seq<nat>) {
    && |at| == |kept|
    && (forall i :: 0 <= i < |at| ==> at[i] < |s| && kept[i] == s[at[i]])
    && (forall i, j :: 0 <= i < j < |at| ==> at[i] < at[j])
    && (forall p: nat :: p in at <==> IsNewFirst(s, key, seen, p))
  }

  function Shifted(at: seq<nat>): (r: seq<nat>)
    ensures |r| == |at| && forall i :: 0 <= i < |r| ==> r[i] == at[i] + 1
  {
    seq(|at|, i requires 0 <= i < |at| => at[i] + 1)
  }

  lemma FirstsSkip<T, K>(s: seq<T>, key: T -> K, seen: set<K>, kept: seq<T>, at: seq<nat>)
    requires s != [] && key(s[0]) in seen && KeepsFirsts(s[1..], key, seen, kept, at)
    ensures KeepsFirsts(s, key, seen, kept, Shifted(at))
  {
    hide IsNewFirst;
    forall p: nat ensures p in Shifted(at) <==> IsNewFirst(s, key, seen, p) {
      SkippedFirst(s, key, seen, p);
      if p > 0 {
        ShiftedMember(at, p);
      }
    }
  }

  lemma SkippedFirst<T, K>(s: seq<T>, key: T -> K, seen: set<K>, p: nat)
    requires s != [] && key(s[0]) in seen
    ensures IsNewFirst(s, key, seen, p) <==> p > 0 && IsNewFirst(s[1..], key, seen, p - 1)
  {
    if p > 0 {
      NextIsFirst(s, key, p);
    }
  }

  lemma NextIsFirst<T, K>(s: seq<T>, key: T -> K, p: nat)
    requires s != [] && p > 0
    ensures IsFirst(s, key, p) <==> IsFirst(s[1..], key, p - 1) && key(s[p]) != key(s[0])
  {
    if p < |s| && IsFirst(s[1..], key, p - 1) && key(s[p]) != key(s[0]) {
      forall q | 0 <= q < p ensures key(s[q]) != key(s[p]) {
        assert q > 0 ==> s[q] == s[1..][q - 1];
      }
    }
    if IsFirst(s, key, p) {
      forall q | 0 <= q < p - 1 ensures key(s[1..][q]) != key(s[1..][p - 1]) {
        assert s[1..][q] == s[q + 1];
      }
    }
  }

  lemma ShiftedMember(at: seq<nat>, p: nat)
    requires p > 0
    ensures p in Shifted(at) <==> p - 1 in at
  {
    if p - 1 in at {
      var i :| 0 <= i < |at| && at[i] == p - 1;
      assert Shifted(at)[i] == p;
    }
  }

  lemma TakenMember(at: seq<nat>, p: nat)
    ensures p in [0] + Shifted(at) <==> p == 0 || (p > 0 && p - 1 in at)
  {
    var all := [0] + Shifted(at);
    assert all[0] == 0;
    if p > 0 {
      ShiftedMember(at, p);
      assert p in all <==> p in Shifted(at);
    }
  }

  lemma TakenFirst<T, K>(s: seq<T>, key: T -> K, seen: set<K>, p: nat)
    requires s != [] && key(s[0]) !in seen
    ensures IsNewFirst(s, key, seen, p) <==> p == 0 || (p > 0 && IsNewFirst(s[1..], key, seen + {key(s[0])}, p - 1))
  {
    if p > 0 {
      NextIsFirst(s, key, p);
    }
  }

  lemma FirstsTake<T, K>(s: seq<T>, key: T -> K, seen: set<K>, kept: seq<T>, at: seq<nat>)
    requires s != [] && key(s[0]) !in seen && KeepsFirsts(s[1..], key, seen + {key(s[0])}, kept, at)
    ensures KeepsFirsts(s, key, seen, [s[0]] + kept, [0] + Shifted(at))
  {
    hide IsNewFirst;
    forall p: nat ensures p in [0] + Shifted(at) <==> IsNewFirst(s, key, seen, p) {
      TakenMember(at, p);
      TakenFirst(s, key, seen, p);
    }
  }

  lemma {:induction false} FirstsAreKept<T, K>(s: seq<T>, key: T -> K, seen: set<K>) returns (at: seq<nat>)
    ensures KeepsFirsts(s, key, seen, FirstsOf(s, key, seen), at)
  {
    if s == [] {
      at := [];
    } else if key(s[0]) in seen {
      var rest := FirstsAreKept(s[1..], key, seen);
      FirstsSkip(s, key, seen, FirstsOf(s[1..], key, seen), rest);
      at := Shifted(rest);
    } else {
      var rest := FirstsAreKept(s[1..], key, seen + {key(s[0])});
      FirstsTake(s, key, seen, FirstsOf(s[1..], key, seen + {key(s[0])}), rest);
      at := [0] + Shifted(rest);
    }
  }

  // ---- DISTINCT -----------------------------------------------------------------------------------------------

  function KeyBy(columns: seq<string>): Row -> seq<string> {
    (row: Row) => DistinctKey(row, columns)
  }

  lemma {:induction false} DistinctIsFirsts(rows: seq<Row>, columns: seq<string>, seen: set<seq<string>>)
    ensures DistinctRows(rows, columns, seen) == FirstsOf(rows, KeyBy(columns), seen)
  {
    if rows != [] {
      DistinctIsFirsts(rows[1..], columns, seen);
      DistinctIsFirsts(rows[1..], columns, seen + {DistinctKey(rows[0], columns)});
    }
  }

  /** Rows show the same when each column is in both or in neither, with values that compare as equal. */
  predicate ShowSame(a: Row, b: Row, columns: seq<string>) {
    forall c :: c in columns ==> (c in a <==> c in b) && (c in a && c in b ==> Compare(a[c], b[c]) == 0)
  }

  /** DISTINCT keeps, in order, the rows that no earlier row shows the same as. */
  lemma DistinctMeans(rows: seq<Row>, columns: seq<string>) returns (at: seq<nat>)
    ensures var kept := DistinctRows(rows, columns, {});
            && |at| == |kept| && (forall i :: 0 <= i < |at| ==> at[i] < |rows| && kept[i] == rows[at[i]])
            && (forall i, j :: 0 <= i < j < |at| ==> at[i] < at[j])
            && (forall p: nat :: p in at <==> p < |rows| && forall q :: 0 <= q < p ==> !ShowSame(rows[q], rows[p], columns))
  {
    hide Compare, GroupKey, ShowSame, DistinctKey, FirstsOf;
    DistinctIsFirsts(rows, columns, {});
    at := FirstsAreKept(rows, KeyBy(columns), {});
    forall a, b | a in rows && b in rows ensures DistinctKey(a, columns) == DistinctKey(b, columns) <==> ShowSame(a, b, columns) {
      SameKeys(a, b, columns);
    }
    forall p: nat ensures IsFirst(rows, KeyBy(columns), p) <==> p < |rows| && forall q :: 0 <= q < p ==> !ShowSame(rows[q], rows[p], columns) {
      forall q | 0 <= q < p < |rows| ensures KeyBy(columns)(rows[q]) == KeyBy(columns)(rows[p]) <==> ShowSame(rows[q], rows[p], columns) {
        assert rows[q] in rows && rows[p] in rows;
      }
    }
  }

  /** No value has the key of a missing column. */
  lemma KeyIsDefined(v: Value)
    ensures GroupKey(v) != "undefined"
  {
    assert |GroupKey(v)| > 0 && GroupKey(v)[0] != 'u';
  }

  lemma SameKeys(a: Row, b: Row, columns: seq<string>)
    ensures DistinctKey(a, columns) == DistinctKey(b, columns) <==> ShowSame(a, b, columns)
  {
    hide Compare, GroupKey;
    var ka, kb := DistinctKey(a, columns), DistinctKey(b, columns);
    forall v ensures GroupKey(v) != "undefined" {
      KeyIsDefined(v);
    }
    forall c | c in a && c in b ensures GroupKey(a[c]) == GroupKey(b[c]) <==> Compare(a[c], b[c]) == 0 {
      TiesAreEqualKeys(a[c], b[c]);
    }
    if ka == kb {
      forall c | c in columns ensures (c in a <==> c in b) && (c in a && c in b ==> Compare(a[c], b[c]) == 0) {
        var i :| 0 <= i < |columns| && columns[i] == c;
        assert ka[i] == kb[i];
      }
    }
    if ShowSame(a, b, columns) {
      forall i | 0 <= i < |columns| ensures ka[i] == kb[i] {
        assert columns[i] in columns;
      }
    }
  }

  // ---- groups -------------------------------------------------------------------------------------------------

  function KeyOfRow(row: Row, grouping: seq<ReturnItem>, env: Env): seq<string> {
    ValueKeys(ItemValues(row, grouping, env))
  }

  function InGroup(key: seq<string>, grouping: seq<ReturnItem>, env: Env): Row -> bool {
    (row: Row) => KeyOfRow(row, grouping, env) == key
  }

  /** Every row with the key of this position comes after one with the other key. */
  ghost predicate StartsBefore(rows: seq<Row>, grouping: seq<ReturnItem>, env: Env, a: seq<string>, b: seq<string>) {
    exists p :: 0 <= p < |rows| && KeyOfRow(rows[p], grouping, env) == a && forall q :: 0 <= q <= p ==> KeyOfRow(rows[q], grouping, env) != b
  }

  /** The group has the values of its first row, and all rows of its key in input order. */
  ghost predicate GroupOk(rows: seq<Row>, grouping: seq<ReturnItem>, env: Env, group: Group) {
    && group.rows != [] && group.values == ItemValues(group.rows[0], grouping, env)
    && group.rows == Filter(rows, InGroup(ValueKeys(group.values), grouping, env))
  }

  ghost predicate HasGroup(groups: seq<Group>, key: seq<string>) {
    exists i :: 0 <= i < |groups| && ValueKeys(groups[i].values) == key
  }

  ghost predicate Grouped(rows: seq<Row>, grouping: seq<ReturnItem>, env: Env, groups: seq<Group>) {
    && (forall i :: 0 <= i < |groups| ==> GroupOk(rows, grouping, env, groups[i]))
    && (forall i, j :: 0 <= i < j < |groups| ==>
          ValueKeys(groups[i].values) != ValueKeys(groups[j].values)
          && StartsBefore(rows, grouping, env, ValueKeys(groups[i].values), ValueKeys(groups[j].values)))
    && (forall row :: row in rows ==> HasGroup(groups, KeyOfRow(row, grouping, env)))
  }

  /** Where a row goes: to the group with its key, if there is one. */
  lemma {:induction false} AddedWhere(groups: seq<Group>, values: seq<Value>, row: Row) returns (k: nat)
    ensures k <= |groups| && (forall i :: 0 <= i < k ==> ValueKeys(groups[i].values) != ValueKeys(values))
    ensures k < |groups| ==> ValueKeys(groups[k].values) == ValueKeys(values)
                             && AddToGroups(groups, values, row) == groups[k := Group(groups[k].values, groups[k].rows + [row])]
    ensures k == |groups| ==> AddToGroups(groups, values, row) == groups + [Group(values, [row])]
  {
    hide ValueKeys;
    if groups == [] || ValueKeys(groups[0].values) == ValueKeys(values) {
      k := 0;
    } else {
      k := AddedWhere(groups[1..], values, row);
      k := k + 1;
    }
  }

  lemma InNoGroup(rows: seq<Row>, row: Row, grouping: seq<ReturnItem>, env: Env, group: Group)
    requires GroupOk(rows, grouping, env, group)
    ensures if KeyOfRow(row, grouping, env) == ValueKeys(group.values) then GroupOk(rows + [row], grouping, env, Group(group.values, group.rows + [row]))
            else GroupOk(rows + [row], grouping, env, group)
  {
    hide ItemValues, ValueKeys;
    FilterConcat(rows, [row], InGroup(ValueKeys(group.values), grouping, env));
    assert [row][1..] == [];
  }

  lemma StartsStill(rows: seq<Row>, row: Row, grouping: seq<ReturnItem>, env: Env, a: seq<string>, b: seq<string>)
    requires StartsBefore(rows, grouping, env, a, b)
    ensures StartsBefore(rows + [row], grouping, env, a, b)
  {
    hide KeyOfRow;
    var p :| 0 <= p < |rows| && KeyOfRow(rows[p], grouping, env) == a && forall q :: 0 <= q <= p ==> KeyOfRow(rows[q], grouping, env) != b;
    assert forall q :: 0 <= q <= p ==> (rows + [row])[q] == rows[q];
  }

  lemma NewGroup(rows: seq<Row>, row: Row, grouping: seq<ReturnItem>, env: Env, groups: seq<Group>)
    requires Grouped(rows, grouping, env, groups) && !HasGroup(groups, KeyOfRow(row, grouping, env))
    ensures GroupOk(rows + [row], grouping, env, Group(ItemValues(row, grouping, env), [row]))
    ensures forall i :: 0 <= i < |groups| ==> StartsBefore(rows + [row], grouping, env, ValueKeys(groups[i].values), KeyOfRow(row, grouping, env))
  {
    hide ItemValues, ValueKeys;
    var key := KeyOfRow(row, grouping, env);
    forall x | x in rows ensures !InGroup(key, grouping, env)(x) {
      assert HasGroup(groups, KeyOfRow(x, grouping, env));
    }
    FilterNone(rows, InGroup(key, grouping, env));
    FilterConcat(rows, [row], InGroup(key, grouping, env));
    assert [row][1..] == [];
    forall i | 0 <= i < |groups| ensures StartsBefore(rows + [row], grouping, env, ValueKeys(groups[i].values), key) {
      var k := ValueKeys(groups[i].values);
      assert GroupOk(rows, grouping, env, groups[i]);
      FilterMember(rows, InGroup(k, grouping, env), groups[i].rows[0]);
      var p :| 0 <= p < |rows| && rows[p] == groups[i].rows[0];
      assert (rows + [row])[p] == rows[p];
      forall q | 0 <= q <= p ensures KeyOfRow((rows + [row])[q], grouping, env) != key {
        assert (rows + [row])[q] == rows[q] && rows[q] in rows;
      }
    }
  }

  lemma GroupsKept(rows: seq<Row>, row: Row, grouping: seq<ReturnItem>, env: Env, groups: seq<Group>)
    requires Grouped(rows, grouping, env, groups)
    ensures Grouped(rows + [row], grouping, env, AddToGroups(groups, ItemValues(row, grouping, env), row))
  {
    hide ItemValues, ValueKeys, GroupOk, StartsBefore;
    var values := ItemValues(row, grouping, env);
    var more := AddToGroups(groups, values, row);
    var k := AddedWhere(groups, values, row);
    forall i | 0 <= i < |groups| ensures GroupOk(rows + [row], grouping, env, more[i]) && ValueKeys(more[i].values) == ValueKeys(groups[i].values) {
      InNoGroup(rows, row, grouping, env, groups[i]);
    }
    if k == |groups| {
      NewGroup(rows, row, grouping, env, groups);
    }
    forall i, j | 0 <= i < j < |more|
      ensures ValueKeys(more[i].values) != ValueKeys(more[j].values)
      ensures StartsBefore(rows + [row], grouping, env, ValueKeys(more[i].values), ValueKeys(more[j].values))
    {
      if j < |groups| {
        StartsStill(rows, row, grouping, env, ValueKeys(groups[i].values), ValueKeys(groups[j].values));
      }
    }
    forall x | x in rows + [row] ensures HasGroup(more, KeyOfRow(x, grouping, env)) {
      if x in rows {
        assert HasGroup(groups, KeyOfRow(x, grouping, env));
        var i :| 0 <= i < |groups| && ValueKeys(groups[i].values) == KeyOfRow(x, grouping, env);
        assert ValueKeys(more[i].values) == KeyOfRow(x, grouping, env);
      } else {
        assert ValueKeys(more[k].values) == KeyOfRow(x, grouping, env);
      }
    }
  }

  /** The groups are the rows by their keys, in the order of their first rows. */
  lemma {:induction false} GroupsMean(rows: seq<Row>, grouping: seq<ReturnItem>, env: Env)
    ensures Grouped(rows, grouping, env, GroupRows(rows, grouping, env))
    decreases |rows|
  {
    hide Grouped, AddToGroups, ItemValues;
    if rows == [] {
      NoGroups(grouping, env);
    } else {
      var n := |rows| - 1;
      GroupsMean(rows[..n], grouping, env);
      GroupsKept(rows[..n], rows[n], grouping, env, GroupRows(rows[..n], grouping, env));
      assert rows[..n] + [rows[n]] == rows;
    }
  }

  lemma NoGroups(grouping: seq<ReturnItem>, env: Env)
    ensures Grouped([], grouping, env, [])
  {
  }

  // ---- what an aggregate sees of a group ----------------------------------------------------------------------

  function ArgumentOf(item: AggregateItem, row: Row, env: Env): Value {
    if item.star || item.args == [] then NullV else Evaluate(item.args[0], row, env)
  }

  function Arguments(rows: seq<Row>, item: AggregateItem, env: Env): (r: seq<Value>)
    ensures |r| == |rows| && forall i :: 0 <= i < |r| ==> r[i] == ArgumentOf(item, rows[i], env)
  {
    seq(|rows|, i requires 0 <= i < |rows| => ArgumentOf(item, rows[i], env))
  }

  function KeyOfValue(): Value -> string {
    (v: Value) => GroupKey(v)
  }

  lemma {:induction false} AcceptedIs(rows: seq<Row>, item: AggregateItem, seen: set<string>, env: Env)
    ensures Accepted(rows, item, seen, env)
         == if item.distinct && !item.star then FirstsOf(Arguments(rows, item, env), KeyOfValue(), seen) else Arguments(rows, item, env)
  {
    hide GroupKey, Evaluate;
    if rows != [] {
      var v := ArgumentOf(item, rows[0], env);
      AcceptedIs(rows[1..], item, seen + {GroupKey(v)}, env);
      assert GroupKey(v) in seen ==> seen + {GroupKey(v)} == seen;
      assert Arguments(rows, item, env)[1..] == Arguments(rows[1..], item, env);
      assert Arguments(rows, item, env) == [v] + Arguments(rows[1..], item, env);
    }
  }

  /** The argument of every row; under DISTINCT those that are equal to no earlier one. */
  lemma AcceptedMeans(rows: seq<Row>, item: AggregateItem, env: Env) returns (at: seq<nat>)
    ensures var vs, accepted := Arguments(rows, item, env), Accepted(rows, item, {}, env);
            if !item.distinct || item.star then accepted == vs
            else
              && |at| == |accepted| && (forall i :: 0 <= i < |at| ==> at[i] < |vs| && accepted[i] == vs[at[i]])
              && (forall i, j :: 0 <= i < j < |at| ==> at[i] < at[j])
              && (forall p: nat :: p in at <==> p < |vs| && forall q :: 0 <= q < p ==> Compare(vs[q], vs[p]) != 0)
  {
    hide GroupKey, Evaluate, Compare, FirstsOf, KeepsFirsts;
    AcceptedIs(rows, item, {}, env);
    var vs := Arguments(rows, item, env);
    at := FirstsAreKept(vs, KeyOfValue(), {});
    FirstsByOrder(vs, FirstsOf(vs, KeyOfValue(), {}), at);
  }

  lemma FirstsByOrder(vs: seq<Value>, kept: seq<Value>, at: seq<nat>)
    requires KeepsFirsts(vs, KeyOfValue(), {}, kept, at)
    ensures |at| == |kept| && (forall i :: 0 <= i < |at| ==> at[i] < |vs| && kept[i] == vs[at[i]])
    ensures forall i, j :: 0 <= i < j < |at| ==> at[i] < at[j]
    ensures forall p: nat :: p in at <==> p < |vs| && forall q :: 0 <= q < p ==> Compare(vs[q], vs[p]) != 0
  {
    hide GroupKey, Compare;
    forall a, b ensures GroupKey(a) == GroupKey(b) <==> Compare(a, b) == 0 {
      TiesAreEqualKeys(a, b);
    }
  }

  // ---- what it makes of them ----------------------------------------------------------------------------------

  lemma WholeAmount(n: nat)
    ensures Amount(IntNumber(n)) == n as real
  {
    NormalizeKeepsAmount(n, 0);
  }

  /** How many values are not null. */
  function Present(vs: seq<Value>): nat {
    if vs == [] then 0 else (if vs[0] == NullV then 0 else 1) + Present(vs[1..])
  }

  lemma {:induction false} PresentCount(vs: seq<Value>)
    ensures |NonNulls(vs)| == Present(vs)
  {
    if vs != [] {
      PresentCount(vs[1..]);
      FilterEqual(vs[1..], v => v != NullV, v => v != NullV);
    }
  }

  /** count(*) is the number of rows, count the number of values that are not null. */
  lemma CountMeans(item: AggregateItem, vs: seq<Value>, env: Env)
    requires LowerAll(item.fname) == "count"
    ensures IsNumber(AggregateValue(item, vs, env)) && AmountOf(AggregateValue(item, vs, env)) == (if item.star then |vs| else Present(vs)) as real
  {
    hide Amount;
    PresentCount(vs);
    WholeAmount(|vs|);
    WholeAmount(Present(vs));
  }

  /** `kept` are the elements that satisfy p, at their positions in order. */
  ghost predicate Keeps<T>(s: seq<T>, p: T -> bool, kept: seq<T>, at: seq<nat>) {
    && |at| == |kept|
    && (forall i :: 0 <= i < |at| ==> at[i] < |s| && kept[i] == s[at[i]])
    && (forall i, j :: 0 <= i < j < |at| ==> at[i] < at[j])
    && (forall q: nat :: q in at <==> q < |s| && p(s[q]))
  }

  lemma KeepsSkip<T>(s: seq<T>, p: T -> bool, kept: seq<T>, at: seq<nat>)
    requires s != [] && !p(s[0]) && Keeps(s[1..], p, kept, at)
    ensures Keeps(s, p, kept, Shifted(at))
  {
    forall q: nat ensures q in Shifted(at) <==> q < |s| && p(s[q]) {
      if q > 0 {
        ShiftedMember(at, q);
      }
    }
  }

  lemma KeepsTake<T>(s: seq<T>, p: T -> bool, kept: seq<T>, at: seq<nat>)
    requires s != [] && p(s[0]) && Keeps(s[1..], p, kept, at)
    ensures Keeps(s, p, [s[0]] + kept, [0] + Shifted(at))
  {
    forall q: nat ensures q in [0] + Shifted(at) <==> q < |s| && p(s[q]) {
      TakenMember(at, q);
    }
  }

  lemma {:induction false} FilterKeeps<T>(s: seq<T>, p: T -> bool) returns (at: seq<nat>)
    ensures Keeps(s, p, Filter(s, p), at)
  {
    if s == [] {
      at := [];
    } else {
      hide Keeps;
      var rest := FilterKeeps(s[1..], p);
      if p(s[0]) {
        KeepsTake(s, p, Filter(s[1..], p), rest);
        at := [0] + Shifted(rest);
      } else {
        KeepsSkip(s, p, Filter(s[1..], p), rest);
        at := Shifted(rest);
      }
    }
  }

  /** collect lists, in order, exactly the values that are not null. */
  lemma CollectMeans(item: AggregateItem, vs: seq<Value>, env: Env) returns (at: seq<nat>)
    requires LowerAll(item.fname) == "collect"
    ensures var list := AggregateValue(item, vs, env);
            && list.ListV? && |list.items| == |at| && (forall i, j :: 0 <= i < j < |at| ==> at[i] < at[j])
            && (forall i :: 0 <= i < |at| ==> at[i] < |vs| && list.items[i] == vs[at[i]])
            && forall p: nat :: p in at <==> p < |vs| && vs[p] != NullV
  {
    hide Filter;
    at := FilterKeeps(vs, v => v != NullV);
    FilterEqual(vs, v => v != NullV, v => v != NullV);
  }

  /** What the numbers among the values add up to, and how many they are. */
  function SumOf(vs: seq<Value>): real {
    if vs == [] then 0.0 else (if IsNumber(vs[0]) then AmountOf(vs[0]) else 0.0) + SumOf(vs[1..])
  }

  function Numeric(vs: seq<Value>): nat {
    if vs == [] then 0 else (if IsNumber(vs[0]) then 1 else 0) + Numeric(vs[1..])
  }

  function AmountsOf(ns: seq<Number>): real {
    if ns == [] then 0.0 else Amount(ns[0]) + AmountsOf(ns[1..])
  }

  lemma {:induction false} NumbersSum(vs: seq<Value>)
    ensures AmountsOf(NumbersOf(vs)) == SumOf(vs) && |NumbersOf(vs)| == Numeric(vs)
  {
    hide Amount;
    if vs != [] {
      NumbersSum(vs[1..]);
      var f := (v: Value) => if v.ScalarV? && v.scalar.Num? then [v.scalar.n] else [];
      FlatMapEqual(vs[1..], f, (v: Value) => if v.ScalarV? && v.scalar.Num? then [v.scalar.n] else []);
      var rest := NumbersOf(vs[1..]);
      assert NumbersOf(vs) == (if IsNumber(vs[0]) then [vs[0].scalar.n] else []) + rest;
      if IsNumber(vs[0]) {
        assert ([vs[0].scalar.n] + rest)[1..] == rest;
      } else {
        assert [] + rest == rest;
      }
    }
  }

  /** Addition without rounding. */
  ghost predicate AddsExactly(env: Env) {
    forall a: Number, b: Number :: Amount(env.arithmetic(Add, a, b)) == Amount(a) + Amount(b)
  }

  lemma {:induction false} AmountsMore(ns: seq<Number>, n: Number)
    ensures AmountsOf(ns + [n]) == AmountsOf(ns) + Amount(n)
  {
    hide Amount;
    if ns == [] {
      assert ns + [n] == [n];
    } else {
      AmountsMore(ns[1..], n);
      assert (ns + [n])[1..] == ns[1..] + [n];
    }
  }

  lemma {:induction false} TotalIs(ns: seq<Number>, env: Env)
    requires AddsExactly(env)
    ensures Amount(Total(ns, env)) == AmountsOf(ns)
    decreases |ns|
  {
    if ns == [] {
      assert Amount(Decimal(0, 0)) == 0.0;
    } else {
      hide Amount;
      var n := |ns| - 1;
      TotalIs(ns[..n], env);
      AmountsMore(ns[..n], ns[n]);
      assert ns[..n] + [ns[n]] == ns;
    }
  }

  /** sum adds up the numbers among the values; avg divides that by how many they are, and is null when there are none. */
  lemma SumMeans(item: AggregateItem, vs: seq<Value>, env: Env)
    requires AddsExactly(env) && LowerAll(item.fname) in {"sum", "avg"}
    ensures LowerAll(item.fname) == "sum" ==> IsNumber(AggregateValue(item, vs, env)) && AmountOf(AggregateValue(item, vs, env)) == SumOf(vs)
    ensures LowerAll(item.fname) == "avg" ==>
              if Numeric(vs) == 0 then AggregateValue(item, vs, env) == NullV
              else exists sum: Number, count: Number :: AggregateValue(item, vs, env) == ScalarV(Num(env.arithmetic(Div, sum, count)))
                                        && Amount(sum) == SumOf(vs) && Amount(count) == Numeric(vs) as real
  {
    hide Amount;
    NumbersSum(vs);
    TotalIs(NumbersOf(vs), env);
    WholeAmount(Numeric(vs));
  }

  /** The first of the values before which, in the wanted direction, none comes. */
  ghost predicate IsExtreme(vs: seq<Value>, largest: bool, i: nat) {
    && i < |vs|
    && (forall j :: 0 <= j < |vs| ==> if largest then !Below(vs[i], vs[j]) else !Below(vs[j], vs[i]))
    && (forall j :: 0 <= j < i ==> if largest then Below(vs[j], vs[i]) else Below(vs[i], vs[j]))
  }

  predicate Beats(a: Value, b: Value, largest: bool) {
    if largest then Compare(a, b) > 0 else Compare(a, b) < 0
  }

  ghost predicate IsBest(vs: seq<Value>, largest: bool, i: nat) {
    && i < |vs|
    && (forall j :: 0 <= j < |vs| ==> !Beats(vs[j], vs[i], largest))
    && (forall j :: 0 <= j < i ==> Beats(vs[i], vs[j], largest))
  }

  /** Looking on from a best value so far gives a best value of all. */
  lemma {:induction false} ExtremeOn(before: seq<Value>, vs: seq<Value>, largest: bool, i: nat) returns (k: nat)
    requires IsBest(before, largest, i)
    ensures IsBest(before + vs, largest, k) && (before + vs)[k] == Extreme(vs, before[i], largest)
    decreases |vs|
  {
    hide Compare;
    if vs == [] {
      k := i;
      assert before + vs == before;
    } else {
      var more := before + [vs[0]];
      assert more + vs[1..] == before + vs;
      if Beats(vs[0], before[i], largest) {
        forall j | 0 <= j < |before| ensures Beats(vs[0], before[j], largest) && !Beats(before[j], vs[0], largest) {
          BetterStill(vs[0], before[i], before[j], largest);
        }
        NotBeaten(vs[0], largest);
        k := ExtremeOn(more, vs[1..], largest, |before|);
      } else {
        k := ExtremeOn(more, vs[1..], largest, i);
      }
    }
  }

  lemma NotBeaten(a: Value, largest: bool)
    ensures !Beats(a, a, largest)
  {
    hide Compare;
    CompareAntisymmetric(a, a);
  }

  lemma BetterStill(a: Value, b: Value, c: Value, largest: bool)
    requires Beats(a, b, largest) && !Beats(c, b, largest)
    ensures Beats(a, c, largest) && !Beats(c, a, largest)
  {
    hide Compare;
    CompareAntisymmetric(a, b);
    CompareAntisymmetric(b, c);
    CompareAntisymmetric(a, c);
    CompareTransitive(a, b, c);
    CompareTransitive(c, b, a);
  }

  /** min and max are the first of the values that are not null before, or after, which none comes; without one they are null. */
  lemma ExtremeMeans(item: AggregateItem, vs: seq<Value>, env: Env) returns (k: nat)
    requires LowerAll(item.fname) in {"min", "max"}
    ensures var present := NonNulls(vs);
            if present == [] then AggregateValue(item, vs, env) == NullV
            else IsExtreme(present, LowerAll(item.fname) == "max", k) && AggregateValue(item, vs, env) == present[k]
  {
    hide Below, Compare;
    var present, largest := NonNulls(vs), LowerAll(item.fname) == "max";
    k := 0;
    if present != [] {
      assert [present[0]] + present[1..] == present;
      NotBeaten(present[0], largest);
      k := ExtremeOn([present[0]], present[1..], largest, 0);
      forall a, b ensures Compare(a, b) < 0 <==> Below(a, b) {
        CompareMeans(a, b);
      }
      forall a, b ensures Compare(a, b) > 0 <==> Below(b, a) {
        CompareAntisymmetric(a, b);
      }
    }
  }

  /** The names of the aggregates are told in any case. */
  lemma AggregateNames(fname: string, other: string)
    requires |fname| == |other| && forall i :: 0 <= i < |fname| ==> Lower(fname[i]) == Lower(other[i])
    ensures IsAggregateName(fname) <==> IsAggregateName(other)
    ensures LowerAll(fname) == LowerAll(other)
  {
    LowerIs(fname);
    LowerIs(other);
    assert LowerAll(fname) == LowerAll(other);
  }

  lemma {:induction false} LowerIs(s: string)
    ensures |LowerAll(s)| == |s| && forall i :: 0 <= i < |s| ==> LowerAll(s)[i] == Lower(s[i])
  {
    if s != "" {
      LowerIs(s[1..]);
    }
  }

  // ---- cells --------------------------------------------------------------------------------------------------

  /** The item is the last with its column name. */
  predicate IsLastItem(items: seq<ReturnItem>, i: nat) {
    i < |items| && forall j :: i < j < |items| ==> items[j].ColumnName() != items[i].ColumnName()
  }

  /** A projected row has a cell for every item, of two with one column name the later one's. */
  lemma {:induction false} ProjectedCell(row: Row, items: seq<ReturnItem>, env: Env, i: nat)
    requires IsLastItem(items, i)
    ensures items[i].ColumnName() in ProjectRow(row, items, env)
    ensures ProjectRow(row, items, env)[items[i].ColumnName()] == Evaluate(items[i].expr, row, env)
    decreases |items|
  {
    hide Evaluate;
    var n := |items| - 1;
    if i < n {
      assert items[n].ColumnName() != items[i].ColumnName();
      ProjectedCell(row, items[..n], env, i);
    }
  }

  predicate HasColumn(items: seq<ReturnItem>, column: string) {
    exists i :: 0 <= i < |items| && items[i].ColumnName() == column
  }

  /** And it has no other cell. */
  lemma {:induction false} ProjectedColumns(row: Row, items: seq<ReturnItem>, env: Env, column: string)
    ensures column in ProjectRow(row, items, env) <==> HasColumn(items, column)
    decreases |items|
  {
    hide Evaluate;
    if items != [] {
      var n := |items| - 1;
      ProjectedColumns(row, items[..n], env, column);
      if HasColumn(items[..n], column) {
        var i :| 0 <= i < n && items[..n][i].ColumnName() == column;
        assert items[i].ColumnName() == column;
      }
      if i :| 0 <= i < |items| && items[i].ColumnName() == column {
        assert i < n ==> items[..n][i].ColumnName() == column;
      }
    }
  }

  predicate IsLastAggregate(aggregates: seq<AggregateItem>, i: nat) {
    i < |aggregates| && forall j :: i < j < |aggregates| ==> aggregates[j].column != aggregates[i].column
  }

  predicate NoAggregateIn(aggregates: seq<AggregateItem>, column: string) {
    forall j :: 0 <= j < |aggregates| ==> aggregates[j].column != column
  }

  lemma {:induction false} AggregateCell(row: Row, group: Group, aggregates: seq<AggregateItem>, env: Env, i: nat)
    requires IsLastAggregate(aggregates, i)
    ensures var cells := AggregateCells(row, group, aggregates, env); var item := aggregates[i];
            item.column in cells && cells[item.column] == AggregateValue(item, Accepted(group.rows, item, {}, env), env)
    decreases |aggregates|
  {
    hide AggregateValue, Accepted;
    var n := |aggregates| - 1;
    if i < n {
      assert aggregates[n].column != aggregates[i].column;
      AggregateCell(row, group, aggregates[..n], env, i);
    }
  }

  lemma {:induction false} OtherCell(row: Row, group: Group, aggregates: seq<AggregateItem>, env: Env, c: string)
    requires NoAggregateIn(aggregates, c)
    ensures c in AggregateCells(row, group, aggregates, env) <==> c in row
    ensures c in row ==> AggregateCells(row, group, aggregates, env)[c] == row[c]
    decreases |aggregates|
  {
    hide AggregateValue, Accepted;
    if aggregates != [] {
      var n := |aggregates| - 1;
      assert aggregates[n].column != c;
      OtherCell(row, group, aggregates[..n], env, c);
    }
  }

  lemma {:induction false} GroupingCell(values: seq<Value>, grouping: seq<ReturnItem>, i: nat)
    requires |values| == |grouping| && IsLastItem(grouping, i)
    ensures grouping[i].ColumnName() in GroupingCells(values, grouping) && GroupingCells(values, grouping)[grouping[i].ColumnName()] == values[i]
    decreases |grouping|
  {
    var n := |grouping| - 1;
    if i < n {
      assert grouping[n].ColumnName() != grouping[i].ColumnName();
      GroupingCell(values[..n], grouping[..n], i);
    }
  }

  /** A row for a group: the values of its first row under the grouping columns, and the aggregates of its rows. */
  ghost predicate GroupRow(out: Row, group: Group, grouping: seq<ReturnItem>, aggregates: seq<AggregateItem>, env: Env) {
    && (forall i: nat :: IsLastAggregate(aggregates, i) ==>
          var item := aggregates[i];
          item.column in out && out[item.column] == AggregateValue(item, Accepted(group.rows, item, {}, env), env))
    && (forall i: nat :: IsLastItem(grouping, i) && NoAggregateIn(aggregates, grouping[i].ColumnName()) && group.rows != [] ==>
          grouping[i].ColumnName() in out && out[grouping[i].ColumnName()] == Evaluate(grouping[i].expr, group.rows[0], env))
  }

  lemma LastAggregateAt(aggregates: seq<AggregateItem>, i: nat)
    requires IsLastAggregate(aggregates, i)
    ensures i < |aggregates|
  {
  }

  lemma LastItems(items: seq<ReturnItem>)
    ensures forall i: nat :: IsLastItem(items, i) ==> i < |items|
  {
  }

  lemma EmittedIs(rows: seq<Row>, group: Group, grouping: seq<ReturnItem>, aggregates: seq<AggregateItem>, env: Env)
    requires GroupOk(rows, grouping, env, group) || (group == Group([], []) && grouping == [])
    ensures GroupRow(EmitGroup(group, grouping, aggregates, env), group, grouping, aggregates, env)
  {
    hide AggregateValue, Accepted, AggregateCells, GroupingCells, Evaluate, InGroup, NoAggregateIn, IsLastAggregate, IsLastItem;
    var cells := GroupingCells(group.values, grouping);
    forall i: nat | IsLastAggregate(aggregates, i)
      ensures i < |aggregates|
      ensures var item := aggregates[i]; var out := AggregateCells(cells, group, aggregates, env);
              item.column in out && out[item.column] == AggregateValue(item, Accepted(group.rows, item, {}, env), env)
    {
      LastAggregateAt(aggregates, i);
      AggregateCell(cells, group, aggregates, env, i);
    }
    forall i: nat | IsLastItem(grouping, i) && i < |grouping| && NoAggregateIn(aggregates, grouping[i].ColumnName()) && group.rows != []
      ensures var c := grouping[i].ColumnName(); var out := AggregateCells(cells, group, aggregates, env);
              c in out && out[c] == Evaluate(grouping[i].expr, group.rows[0], env)
    {
      GroupingCell(group.values, grouping, i);
      OtherCell(cells, group, aggregates, env, grouping[i].ColumnName());
    }
    LastItems(grouping);
  }

  lemma {:induction false} OnePerGroup(groups: seq<Group>, grouping: seq<ReturnItem>, aggregates: seq<AggregateItem>, env: Env, f: Group -> seq<Row>)
    requires forall g :: f(g) == [EmitGroup(g, grouping, aggregates, env)]
    ensures |FlatMap(groups, f)| == |groups|
    ensures forall i :: 0 <= i < |groups| ==> FlatMap(groups, f)[i] == EmitGroup(groups[i], grouping, aggregates, env)
  {
    hide EmitGroup;
    if groups != [] {
      OnePerGroup(groups[1..], grouping, aggregates, env, f);
    }
  }

  lemma NoRows(rows: seq<Row>, grouping: seq<ReturnItem>, env: Env)
    requires rows != []
    ensures !Grouped(rows, grouping, env, [])
  {
    hide GroupOk, StartsBefore, KeyOfRow;
    assert rows[0] in rows && !HasGroup([], KeyOfRow(rows[0], grouping, env));
  }

  /** An aggregation: one row for every group of the rows; one for no rows at all, when there is nothing to group by. */
  lemma AggregationMeans(rows: seq<Row>, grouping: seq<ReturnItem>, aggregates: seq<AggregateItem>, env: Env) returns (groups: seq<Group>)
    ensures Grouped(rows, grouping, env, groups) || (rows == [] && grouping == [] && groups == [Group([], [])])
    ensures rows == [] && grouping == [] ==> groups == [Group([], [])]
    ensures var out := AggregateRows(rows, grouping, aggregates, env);
            |out| == |groups| && forall i :: 0 <= i < |out| ==> GroupRow(out[i], groups[i], grouping, aggregates, env)
  {
    hide EmitGroup, GroupRow, GroupOk, StartsBefore, FlatMap;
    GroupsMean(rows, grouping, env);
    groups := GroupRows(rows, grouping, env);
    if groups == [] && grouping == [] {
      if rows != [] {
        NoRows(rows, grouping, env);
      }
      groups := [Group([], [])];
    }
    OnePerGroup(groups, grouping, aggregates, env, EmitEach(grouping, aggregates, env));
    forall i | 0 <= i < |groups| ensures GroupRow(EmitGroup(groups[i], grouping, aggregates, env), groups[i], grouping, aggregates, env) {
      EmittedIs(rows, groups[i], grouping, aggregates, env);
    }
  }

  // ---- SKIP and LIMIT -----------------------------------------------------------------------------------------

  lemma WholeAndPart(n: Number, k: int)
    requires n.e < 0
    ensures k as real <= Amount(n) <==> k * Pow10(-n.e) <= n.m
    ensures Amount(n) <= k as real <==> n.m <= k * Pow10(-n.e)
  {
    var whole: Decimal := Decimal(k * Pow10(-n.e), n.e);
    assert Pow10(0) == 1;
    AmountScaled(Decimal(k, 0), n.e);
    AmountScaled(n, n.e);
    ZeroPower(k);
    assert Scaled(Decimal(k, 0), n.e) == k * Pow10(-n.e) && Scaled(n, n.e) == n.m;
    hide Amount, Pow10, TenTo, Times;
    ScaledOrders(k * Pow10(-n.e), n.m, TenTo(n.e));
    ScaledOrders(n.m, k * Pow10(-n.e), TenTo(n.e));
  }

  lemma ZeroPower(k: int)
    ensures Amount(Decimal(k, 0)) == k as real
  {
  }

  lemma ScaledOrders(x: int, y: int, p: real)
    requires p > 0.0
    ensures x <= y <==> Times(x as real, p) <= Times(y as real, p)
  {
    if x <= y {
      assert (y as real - x as real) * p >= 0.0;
    } else {
      assert (x as real - y as real) * p > 0.0;
    }
  }

  lemma WholeIs(n: Number)
    requires n.e >= 0
    ensures Amount(n) == Scaled(n, 0) as real
  {
    AmountScaled(n, 0);
  }

  lemma NegativeAmount(n: Number)
    ensures n.m <= 0 <==> Amount(n) <= 0.0
  {
    hide TenTo;
    var p := TenTo(n.e);
    if n.m <= 0 {
      assert (-n.m) as real * p >= 0.0;
    } else {
      assert n.m as real * p > 0.0;
    }
  }

  /** SKIP drops as many rows as there are whole ones in the count; none for a negative count. */
  lemma SkipMeans(n: Number)
    ensures if Amount(n) <= 0.0 then SkipCount(n) == 0 else SkipCount(n) as real <= Amount(n) < (SkipCount(n) + 1) as real
  {
    hide Amount, Pow10;
    NegativeAmount(n);
    if n.m > 0 {
      if n.e >= 0 {
        WholeIs(n);
      } else {
        var k, p := SkipCount(n), Pow10(-n.e);
        WholeAndPart(n, k);
        WholeAndPart(n, k + 1);
        Quotient(n.m, p);
      }
    }
  }

  lemma Quotient(m: nat, p: int)
    requires p >= 1
    ensures m / p * p <= m < (m / p + 1) * p
    ensures m % p == 0 <==> m / p * p == m
  {
  }

  /** LIMIT lets through the least whole number of rows that is not below the count; none for a negative count. */
  lemma LimitMeans(n: Number)
    ensures Amount(n) <= LimitCount(n) as real && (LimitCount(n) == 0 || (LimitCount(n) - 1) as real < Amount(n))
  {
    hide Amount, Pow10;
    NegativeAmount(n);
    if n.m > 0 {
      if n.e >= 0 {
        WholeIs(n);
      } else {
        var q, p := n.m / Pow10(-n.e), Pow10(-n.e);
        Quotient(n.m, p);
        WholeAndPart(n, q);
        WholeAndPart(n, q + 1);
      }
    }
  }

  // ---- UNWIND and nulls ---------------------------------------------------------------------------------------

  lemma {:induction false} OnePerItem(row: Row, items: seq<Value>, variable: string, f: Value -> seq<Row>)
    requires forall item :: f(item) == [row[variable := item]]
    ensures |FlatMap(items, f)| == |items|
    ensures forall i :: 0 <= i < |items| ==> FlatMap(items, f)[i] == row[variable := items[i]]
  {
    if items != [] {
      OnePerItem(row, items[1..], variable, f);
    }
  }

  ghost predicate SameBut(a: Row, b: Row, v: string) {
    forall w :: w != v ==> (w in a <==> w in b) && (w in a && w in b ==> a[w] == b[w])
  }

  /** UNWIND of a list gives a row for every item, in order, the rest of the row unchanged; of null none. */
  lemma UnwindMeans(row: Row, expr: Expr, variable: string, env: Env)
    ensures forall out :: out in UnwindRow(row, expr, variable, env) ==> variable in out && SameBut(row, out, variable)
    ensures var v, out := Evaluate(expr, row, env), UnwindRow(row, expr, variable, env);
            if v.ListV? then |out| == |v.items| && forall i :: 0 <= i < |out| ==> variable in out[i] && out[i][variable] == v.items[i]
            else |out| == (if v == NullV then 0 else 1) && forall i :: 0 <= i < |out| ==> variable in out[i] && out[i][variable] == v
  {
    hide Evaluate;
    var v := Evaluate(expr, row, env);
    if v.ListV? {
      OnePerItem(row, v.items, variable, item => [row[variable := item]]);
    }
  }

  /** Padding sets the variables to null and leaves every other. */
  lemma {:induction false} PaddedMeans(row: Row, vars: seq<string>)
    ensures forall v :: v in vars ==> v in Padded(row, vars) && Padded(row, vars)[v] == NullV
    ensures forall v :: v !in vars ==> (v in Padded(row, vars) <==> v in row)
    ensures forall v :: v !in vars && v in row ==> Padded(row, vars)[v] == row[v]
    decreases |vars|
  {
    if vars != [] {
      PaddedMeans(row[vars[0] := NullV], vars[1..]);
      assert forall v :: v in vars <==> v == vars[0] || v in vars[1..];
    }
  }

  // ---- trails -------------------------------------------------------------------------------------------------

  /** The row shows the trail: its end, its relationships in order, and the whole of it as the path. */
  ghost predicate ShowsTrail(row: Row, out: Row, to: string, rel: RelPattern, pathVar: Option<string>, t: VarLength.Trail)
    requires t.nodes != []
  {
    && to in out && out[to] == NodeV(t.nodes[|t.nodes| - 1])
    && (pathVar.Some? ==> pathVar.value in out && out[pathVar.value] == PathV(t.nodes, t.rels))
    && (rel.variable.Some? ==> rel.variable.value in out && out[rel.variable.value].ListV? && |out[rel.variable.value].items| == |t.rels|
                               && forall i :: 0 <= i < |t.rels| ==> out[rel.variable.value].items[i] == RelV(t.rels[i]))
    && forall v :: v in row && v != to && Some(v) != pathVar && Some(v) != rel.variable ==> v in out && out[v] == row[v]
  }

  /** The names a variable-length hop binds are three. */
  predicate ThreeNames(to: string, rel: RelPattern, pathVar: Option<string>) {
    Some(to) != pathVar && Some(to) != rel.variable && (pathVar.Some? ==> pathVar != rel.variable)
  }

  function TrailEach(row: Row, to: string, rel: RelPattern, pathVar: Option<string>): VarLength.Trail -> seq<Row> {
    (t: VarLength.Trail) => if t.nodes == [] then [] else [TrailRow(row, to, rel, pathVar, t)]
  }

  /** A variable-length hop gives a row for every trail that it may follow, and shows it. */
  lemma TrailRowsMean(schema: Schema, g: Graph, row: Row, from: string, to: string, rel: RelPattern, hop: VarLength.Hop, pathVar: Option<string>)
    requires from in row && row[from].NodeV? && ThreeNames(to, rel, pathVar)
    ensures forall out :: out in VarLengthRow(schema, g, row, from, to, rel, hop, pathVar) ==>
              exists t :: VarLength.IsTrail(schema, g, hop, row[from].node, t) && VarLength.Wanted(schema, g, hop, t) && ShowsTrail(row, out, to, rel, pathVar, t)
    ensures forall t :: VarLength.IsTrail(schema, g, hop, row[from].node, t) && VarLength.Wanted(schema, g, hop, t) ==>
              exists out :: out in VarLengthRow(schema, g, row, from, to, rel, hop, pathVar) && ShowsTrail(row, out, to, rel, pathVar, t)
  {
    hide VarLength.Enumerate, VarLength.Wanted, FlatMap, ShowsTrail, TrailRow;
    var node := row[from].node;
    var trails, each := VarLength.Enumerate(schema, g, hop, node), TrailEach(row, to, rel, pathVar);
    FlatMapEqual(trails, (t: VarLength.Trail) => if t.nodes == [] then [] else [TrailRow(row, to, rel, pathVar, t)], each);
    var rows := VarLengthRow(schema, g, row, from, to, rel, hop, pathVar);
    forall out | out in rows
      ensures exists t :: VarLength.IsTrail(schema, g, hop, node, t) && VarLength.Wanted(schema, g, hop, t) && ShowsTrail(row, out, to, rel, pathVar, t)
    {
      FlatMapMember(trails, each, out);
      var t :| t in trails && out in each(t);
      VarLength.EmitsExactlyTheTrails(schema, g, hop, node, t);
      TrailRowShows(row, to, rel, pathVar, t);
    }
    forall t | VarLength.IsTrail(schema, g, hop, node, t) && VarLength.Wanted(schema, g, hop, t)
      ensures exists out :: out in rows && ShowsTrail(row, out, to, rel, pathVar, t)
    {
      VarLength.EmitsExactlyTheTrails(schema, g, hop, node, t);
      TrailRowShows(row, to, rel, pathVar, t);
      var out := TrailRow(row, to, rel, pathVar, t);
      assert out in each(t);
      FlatMapMember(trails, each, out);
    }
  }

  lemma TrailRowShows(row: Row, to: string, rel: RelPattern, pathVar: Option<string>, t: VarLength.Trail)
    requires t.nodes != [] && ThreeNames(to, rel, pathVar)
    ensures ShowsTrail(row, TrailRow(row, to, rel, pathVar, t), to, rel, pathVar, t)
  {
  }
}
