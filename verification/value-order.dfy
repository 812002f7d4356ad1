/**
 What comes first.

 `Below` says it without the comparison: numbers by their amount, texts by the first character in which they differ, false
 before true, lists and maps by their first difference, and kinds of values in a fixed order with null last. `CompareMeans`:
 the comparison is negative exactly then. So a sort by one key never lets it fall, or rise when descending
 (`AscendingNeverFalls`, `DescendingNeverRises`), and `<` in a condition is what it is on the amounts (`NumbersCompared`).
 */
module ValueOrder {
  import opened Wrappers
  import opened Numbers
  import opened NumberText
  import opened Text
  import opened Values
  import opened Query
  import opened Evaluation
  import opened Ordering

  // ---- numbers ------------------------------------------------------------------------------------------------

  function TenTo(e: int): (p: real)
    ensures p > 0.0
    decreases if e < 0 then -e else e
  {
    if e == 0 then 1.0 else if e > 0 then 10.0 * TenTo(e - 1) else TenTo(e + 1) / 10.0
  }

  function Times(x: real, y: real): real {
    x * y
  }

  /** What a decimal is worth. */
  function Amount(d: Decimal): real {
    Times(d.m as real, TenTo(d.e))
  }

  lemma {:induction false} TenTimes(e: int, n: nat)
    ensures TenTo(e + n) == Times(TenTo(e), Pow10(n) as real)
    decreases n
  {
    if n > 0 {
      TenTimes(e, n - 1);
      assert TenTo(e + n) == 10.0 * TenTo(e + n - 1);
      Tenfold(TenTo(e), Pow10(n - 1));
    } else {
      assert Pow10(0) as real == 1.0;
    }
  }

  lemma Tenfold(p: real, q: int)
    ensures 10.0 * Times(p, q as real) == Times(p, (10 * q) as real)
  {
    assert (10 * q) as real == 10.0 * (q as real);
  }

  lemma AmountScaled(d: Decimal, base: int)
    requires base <= d.e
    ensures Amount(d) == Times(Scaled(d, base) as real, TenTo(base))
  {
    TenTimes(base, d.e - base);
    hide TenTo, Pow10, Times;
    Regroup(d.m, TenTo(base), Pow10(d.e - base));
  }

  lemma Regroup(m: int, p: real, q: int)
    ensures Times(m as real, Times(p, q as real)) == Times((m * q) as real, p)
  {
    ProductAsReal(m, q);
    Associates(m as real, p, q as real);
  }

  lemma Associates(x: real, y: real, z: real)
    ensures x * (y * z) == (x * z) * y
  {
  }

  lemma ProductAsReal(m: int, q: int)
    ensures (m * q) as real == (m as real) * (q as real)
  {
  }

  lemma ScaledOrder(x: int, y: int, p: real)
    requires p > 0.0
    ensures x < y <==> Times(x as real, p) < Times(y as real, p)
  {
    if x < y {
      Grows(x as real, y as real, p);
    } else if y < x {
      Grows(y as real, x as real, p);
    }
  }

  lemma Grows(x: real, y: real, p: real)
    requires p > 0.0 && x < y
    ensures x * p < y * p
  {
    assert (y - x) * p > 0.0;
  }

  /** One number compares below another exactly if it is less. */
  lemma CompareNumbersMeans(a: Number, b: Number)
    ensures CompareNumbers(a, b) < 0 <==> Amount(a) < Amount(b)
  {
    hide Amount, Scaled, TenTo, Times;
    var base := Min(a.e, b.e);
    AmountScaled(a, base);
    AmountScaled(b, base);
    ScaledOrder(Scaled(a, base), Scaled(b, base), TenTo(base));
  }

  // ---- numerals -----------------------------------------------------------------------------------------------

  /** What digits are worth, each the tenth part of the one before it. */
  function Worth(s: string): real
    requires AllDigits(s)
  {
    if s == "" then 0.0 else 10.0 * Worth(s[..|s| - 1]) + (DigitOf(s[|s| - 1]) as real)
  }

  lemma {:induction false} WorthIsValue(s: string)
    requires AllDigits(s)
    ensures Worth(s) == ValueOf(s) as real
    decreases |s|
  {
    if s != "" {
      WorthIsValue(s[..|s| - 1]);
    }
  }

  lemma TenMore(e: int)
    ensures TenTo(e + 1) == 10.0 * TenTo(e)
  {
  }

  lemma {:induction false} NormalizeKeepsAmount(m: nat, e: int)
    ensures Amount(Normalize(m, e)) == Times(m as real, TenTo(e))
    decreases m
  {
    if m != 0 && m % 10 == 0 {
      NormalizeKeepsAmount(m / 10, e + 1);
      TenMore(e);
      hide TenTo, Amount;
      TenthTimes(m / 10, m, TenTo(e));
    }
  }

  lemma TenthTimes(tenth: nat, m: nat, p: real)
    requires m == 10 * tenth
    ensures Times(tenth as real, 10.0 * p) == Times(m as real, p)
  {
    assert m as real == 10.0 * (tenth as real);
  }

  /** A numeral is worth its digits, and those after the point as much less as there are of them. */
  lemma NumeralMeans(whole: string, fraction: string)
    requires whole != "" && AllDigits(whole) && AllDigits(fraction)
    ensures ReadDecimal(whole).Some? && Amount(ReadDecimal(whole).value) == Worth(whole)
    ensures fraction != "" ==>
              ReadDecimal(whole + "." + fraction).Some?
              && Amount(ReadDecimal(whole + "." + fraction).value) == Times(Worth(whole + fraction), TenTo(-|fraction|))
  {
    NumberText.ReadWhole(whole);
    NormalizeKeepsAmount(ValueOf(whole), 0);
    WorthIsValue(whole);
    assert Times(Worth(whole), TenTo(0)) == Worth(whole);
    if fraction != "" {
      ReadFraction(whole, fraction);
      hide ReadDecimal, Normalize, Amount, TenTo, Times;
      NormalizeKeepsAmount(ValueOf(whole + fraction), -|fraction|);
      WorthIsValue(whole + fraction);
    }
  }

  // ---- texts --------------------------------------------------------------------------------------------------

  /** They agree up to k, and there the first one ends, or has the smaller character. */
  predicate DiffersAt(a: string, b: string, k: nat) {
    && k <= |a| && k < |b| && a[..k] == b[..k]
    && (k == |a| || a[k] < b[k])
  }

  ghost predicate TextBelow(a: string, b: string) {
    exists k: nat :: DiffersAt(a, b, k)
  }

  lemma {:induction false} CompareStringsMeans(a: string, b: string)
    ensures CompareStrings(a, b) < 0 <==> TextBelow(a, b)
  {
    if a == "" || b == "" || a[0] != b[0] {
      if b != "" && (a == "" || a[0] < b[0]) {
        assert DiffersAt(a, b, 0);
      }
    } else {
      CompareStringsMeans(a[1..], b[1..]);
      if k: nat :| DiffersAt(a[1..], b[1..], k) {
        assert a[..k + 1] == [a[0]] + a[1..][..k] && b[..k + 1] == [b[0]] + b[1..][..k];
        assert DiffersAt(a, b, k + 1);
      }
      if k: nat :| DiffersAt(a, b, k) {
        assert k > 0;
        assert a[1..][..k - 1] == a[..k][1..] && b[1..][..k - 1] == b[..k][1..];
        assert DiffersAt(a[1..], b[1..], k - 1);
      }
    }
  }

  // ---- all values ---------------------------------------------------------------------------------------------

  predicate IsNumber(v: Value) {
    v.ScalarV? && v.scalar.Num?
  }

  predicate IsText(v: Value) {
    v.ScalarV? && v.scalar.Str?
  }

  predicate IsTruth(v: Value) {
    v.ScalarV? && v.scalar.Bool?
  }

  /** Numbers, texts, truth values, nodes, lists, maps, relationships, paths, and null last. */
  predicate KindBelow(a: Value, b: Value) {
    if IsNumber(b) then false
    else if IsNumber(a) then true
    else if IsText(b) then false
    else if IsText(a) then true
    else if IsTruth(b) then false
    else if IsTruth(a) then true
    else if b.NodeV? then false
    else if a.NodeV? then true
    else if b.ListV? then false
    else if a.ListV? then true
    else if b.MapV? then false
    else if a.MapV? then true
    else if b.RelV? then false
    else if a.RelV? then true
    else if b.PathV? then false
    else a.PathV?
  }

  /** The lists agree up to k, and there the first one ends, or has the lower item. */
  ghost predicate ItemsBelow(a: seq<Value>, b: seq<Value>, k: nat)
    decreases ValuesSize(a), 1 + |a|
  {
    && k <= |a| && k < |b|
    && (forall j :: 0 <= j < k ==> GroupKey(a[j]) == GroupKey(b[j]))
    && (k == |a| || (SizeOfItem(a, k); Below(a[k], b[k])))
  }

  /** The entries agree up to k, and there the first map ends, or has the lower key, or the same key and the lower value. */
  ghost predicate EntriesBelow(a: seq<Entry>, b: seq<Entry>, k: nat)
    decreases EntriesSize(a), 1 + |a|
  {
    && k <= |a| && k < |b|
    && (forall j :: 0 <= j < k ==> a[j].key == b[j].key && GroupKey(a[j].value) == GroupKey(b[j].value))
    && (k == |a| || TextBelow(a[k].key, b[k].key) || (a[k].key == b[k].key && (SizeOfEntry(a, k); Below(a[k].value, b[k].value))))
  }

  ghost predicate ListBelow(a: seq<Value>, b: seq<Value>)
    decreases ValuesSize(a), 2 + |a|
  {
    exists k: nat :: ItemsBelow(a, b, k)
  }

  ghost predicate MapBelow(a: seq<Entry>, b: seq<Entry>)
    decreases EntriesSize(a), 2 + |a|
  {
    exists k: nat :: EntriesBelow(a, b, k)
  }

  ghost predicate Below(a: Value, b: Value)
    decreases Size(a), 0
  {
    KindBelow(a, b) ||
    match (a, b)
    case (ScalarV(Num(x)), ScalarV(Num(y))) => Amount(x) < Amount(y)
    case (ScalarV(Str(x)), ScalarV(Str(y))) => TextBelow(x, y)
    case (ScalarV(Bool(x)), ScalarV(Bool(y))) => !x && y
    case (NodeV(x), NodeV(y)) => TextBelow(x.id, y.id)
    case (ListV(x), ListV(y)) => ListBelow(x, y)
    case (MapV(x), MapV(y)) => (SortSize(x); MapBelow(SortEntries(x), SortEntries(y)))
    case (RelV(x), RelV(y)) => TextBelow(RelKey(x), RelKey(y))
    case (PathV(ns, rs), PathV(ms, qs)) => TextBelow(PathKey(ns, rs), PathKey(ms, qs))
    case _ => false
  }

  lemma {:induction false} SizeOfItem(items: seq<Value>, k: nat)
    requires k < |items|
    ensures Size(items[k]) <= ValuesSize(items)
  {
    if k > 0 {
      SizeOfItem(items[1..], k - 1);
    }
  }

  lemma {:induction false} SizeOfEntry(entries: seq<Entry>, k: nat)
    requires k < |entries|
    ensures Size(entries[k].value) <= EntriesSize(entries)
  {
    if k > 0 {
      SizeOfEntry(entries[1..], k - 1);
    }
  }

  lemma KindsCompared(a: Value, b: Value)
    requires TypeRank(a) != TypeRank(b)
    ensures Compare(a, b) < 0 <==> KindBelow(a, b)
    ensures Below(a, b) <==> KindBelow(a, b)
  {
  }

  lemma SameKind(a: Value, b: Value)
    requires TypeRank(a) == TypeRank(b)
    ensures !KindBelow(a, b)
  {
  }

  /** The comparison is negative exactly if the first value comes before the second. */
  lemma {:induction false} CompareMeans(a: Value, b: Value)
    ensures Compare(a, b) < 0 <==> Below(a, b)
    decreases Size(a), 0
  {
    hide CompareStrings, CompareNumbers, PathKey, RelKey, SortEntries, CompareItems, CompareEntries, TextBelow, Amount;
    if TypeRank(a) != TypeRank(b) {
      KindsCompared(a, b);
    } else {
      SameKind(a, b);
      match a {
        case ScalarV(Num(n)) => CompareNumbersMeans(n, b.scalar.n);
        case ScalarV(Str(s)) => CompareStringsMeans(s, b.scalar.s);
        case ScalarV(Bool(x)) =>
        case NullV =>
        case NodeV(n) => CompareStringsMeans(n.id, b.node.id);
        case ListV(items) => CompareItemsMeans(items, b.items);
        case MapV(entries) =>
          SortSize(entries);
          CompareEntriesMeans(SortEntries(entries), SortEntries(b.entries));
        case RelV(r) => CompareStringsMeans(RelKey(r), RelKey(b.rel));
        case PathV(nodes, rels) => CompareStringsMeans(PathKey(nodes, rels), PathKey(b.nodes, b.rels));
      }
    }
  }

  lemma {:induction false} CompareItemsMeans(a: seq<Value>, b: seq<Value>)
    ensures CompareItems(a, b) < 0 <==> ListBelow(a, b)
    decreases ValuesSize(a), 1 + |a|
  {
    hide Compare, Below, GroupKey;
    if a == [] || b == [] {
      if a == [] && b != [] {
        assert ItemsBelow(a, b, 0);
      }
    } else {
      CompareMeans(a[0], b[0]);
      TiesAreEqualKeys(a[0], b[0]);
      CompareItemsMeans(a[1..], b[1..]);
      ItemsBelowNext(a, b);
      if Compare(a[0], b[0]) < 0 {
        assert ItemsBelow(a, b, 0);
      }
    }
  }

  lemma ItemsBelowNext(a: seq<Value>, b: seq<Value>)
    requires a != [] && b != []
    ensures ListBelow(a, b)
       <==> Below(a[0], b[0]) || (GroupKey(a[0]) == GroupKey(b[0]) && ListBelow(a[1..], b[1..]))
  {
    hide Below, GroupKey;
    if Below(a[0], b[0]) {
      assert ItemsBelow(a, b, 0);
    }
    if k: nat :| ItemsBelow(a[1..], b[1..], k) {
      if GroupKey(a[0]) == GroupKey(b[0]) {
        assert forall j :: 0 < j <= k ==> a[j] == a[1..][j - 1] && b[j] == b[1..][j - 1];
        assert ItemsBelow(a, b, k + 1);
      }
    }
    if k: nat :| ItemsBelow(a, b, k) {
      if k > 0 {
        assert forall j :: 0 <= j < k - 1 ==> a[1..][j] == a[j + 1] && b[1..][j] == b[j + 1];
        assert ItemsBelow(a[1..], b[1..], k - 1);
      }
    }
  }

  lemma {:induction false} CompareEntriesMeans(a: seq<Entry>, b: seq<Entry>)
    ensures CompareEntries(a, b) < 0 <==> MapBelow(a, b)
    decreases EntriesSize(a), 1 + |a|
  {
    hide Compare, Below, GroupKey, CompareStrings, TextBelow;
    if a == [] || b == [] {
      if a == [] && b != [] {
        assert EntriesBelow(a, b, 0);
      }
    } else {
      CompareStringsMeans(a[0].key, b[0].key);
      CompareStringsTies(a[0].key, b[0].key);
      CompareStringsMeans(b[0].key, a[0].key);
      CompareStringsAntisymmetric(a[0].key, b[0].key);
      CompareMeans(a[0].value, b[0].value);
      TiesAreEqualKeys(a[0].value, b[0].value);
      CompareEntriesMeans(a[1..], b[1..]);
      EntriesBelowNext(a, b);
    }
  }

  lemma EntriesBelowNext(a: seq<Entry>, b: seq<Entry>)
    requires a != [] && b != []
    ensures MapBelow(a, b)
       <==> TextBelow(a[0].key, b[0].key)
            || (a[0].key == b[0].key && (Below(a[0].value, b[0].value)
                                         || (GroupKey(a[0].value) == GroupKey(b[0].value) && MapBelow(a[1..], b[1..]))))
  {
    hide Below, GroupKey, TextBelow;
    if TextBelow(a[0].key, b[0].key) || (a[0].key == b[0].key && Below(a[0].value, b[0].value)) {
      assert EntriesBelow(a, b, 0);
    }
    if k: nat :| EntriesBelow(a[1..], b[1..], k) {
      if a[0].key == b[0].key && GroupKey(a[0].value) == GroupKey(b[0].value) {
        assert forall j :: 0 < j <= k ==> a[j] == a[1..][j - 1] && b[j] == b[1..][j - 1];
        assert EntriesBelow(a, b, k + 1);
      }
    }
    if k: nat :| EntriesBelow(a, b, k) {
      if k > 0 {
        assert forall j :: 0 <= j < k - 1 ==> a[1..][j] == a[j + 1] && b[1..][j] == b[j + 1];
        assert EntriesBelow(a[1..], b[1..], k - 1);
      }
    }
  }

  // ---- sorting ------------------------------------------------------------------------------------------------

  function KeyOf(row: Row, key: Expr, env: Env): Value {
    Evaluate(key, row, env)
  }

  /** The first key in which the rows differ puts one before the other, the other way round if it is descending. */
  ghost predicate RowBelow(a: Row, b: Row, keys: seq<SortItem>, env: Env, k: nat) {
    && k < |keys|
    && (forall j :: 0 <= j < k ==> GroupKey(KeyOf(a, keys[j].expr, env)) == GroupKey(KeyOf(b, keys[j].expr, env)))
    && if keys[k].descending then Below(KeyOf(b, keys[k].expr, env), KeyOf(a, keys[k].expr, env))
       else Below(KeyOf(a, keys[k].expr, env), KeyOf(b, keys[k].expr, env))
  }

  lemma {:induction false} CompareByMeans(a: Row, b: Row, keys: seq<SortItem>, env: Env)
    ensures CompareBy(a, b, keys, env) < 0 <==> exists k: nat :: RowBelow(a, b, keys, env, k)
  {
    hide Compare, Below, Evaluate, GroupKey;
    if keys != [] {
      var x, y := KeyOf(a, keys[0].expr, env), KeyOf(b, keys[0].expr, env);
      CompareMeans(x, y);
      CompareMeans(y, x);
      CompareAntisymmetric(x, y);
      TiesAreEqualKeys(x, y);
      CompareByMeans(a, b, keys[1..], env);
      RowBelowNext(a, b, keys, env);
    }
  }

  lemma RowBelowNext(a: Row, b: Row, keys: seq<SortItem>, env: Env)
    requires keys != []
    ensures (exists k: nat :: RowBelow(a, b, keys, env, k))
       <==> RowBelow(a, b, keys, env, 0)
            || (GroupKey(KeyOf(a, keys[0].expr, env)) == GroupKey(KeyOf(b, keys[0].expr, env)) && exists k: nat :: RowBelow(a, b, keys[1..], env, k))
  {
    hide Below, GroupKey, KeyOf;
    if k: nat :| RowBelow(a, b, keys[1..], env, k) {
      if GroupKey(KeyOf(a, keys[0].expr, env)) == GroupKey(KeyOf(b, keys[0].expr, env)) {
        assert forall j :: 0 < j <= k ==> keys[j] == keys[1..][j - 1];
        assert RowBelow(a, b, keys, env, k + 1);
      }
    }
    if k: nat :| RowBelow(a, b, keys, env, k) {
      if k > 0 {
        assert forall j :: 0 <= j < k ==> keys[1..][j] == keys[j + 1];
        assert RowBelow(a, b, keys[1..], env, k - 1);
      }
    }
  }

  /** In a sorted result no row comes behind one that it should come before. */
  lemma SortedByKeys(rows: seq<Row>, keys: seq<SortItem>, env: Env, i: nat, j: nat, k: nat)
    requires i < j < |SortRows(rows, keys, env)|
    ensures !RowBelow(SortRows(rows, keys, env)[j], SortRows(rows, keys, env)[i], keys, env, k)
  {
    hide CompareBy, SortRows, RowBelow;
    SortRowsSorted(rows, keys, env);
    var sorted := SortRows(rows, keys, env);
    CompareByAntisymmetric(sorted[i], sorted[j], keys, env);
    CompareByMeans(sorted[j], sorted[i], keys, env);
  }

  /** Sorted by one key, no row has a key below that of a row before it; descending, none has a key above. */
  lemma SortedByOneKey(rows: seq<Row>, key: Expr, descending: bool, env: Env, i: nat, j: nat)
    requires i < j < |SortRows(rows, [SortItem(key, descending)], env)|
    ensures var sorted := SortRows(rows, [SortItem(key, descending)], env); var x, y := KeyOf(sorted[i], key, env), KeyOf(sorted[j], key, env);
            if descending then !Below(x, y) else !Below(y, x)
  {
    hide Below, KeyOf, SortRows;
    SortedByKeys(rows, [SortItem(key, descending)], env, i, j, 0);
  }

  function AmountOf(v: Value): real
    requires IsNumber(v)
  {
    Amount(v.scalar.n)
  }

  lemma {:induction false} SortedAreRows(rows: seq<Row>, keys: seq<SortItem>, env: Env, i: nat)
    requires i < |SortRows(rows, keys, env)|
    ensures SortRows(rows, keys, env)[i] in rows
  {
    hide SortRows;
    SortRowsMultiset(rows, keys, env);
    assert SortRows(rows, keys, env)[i] in multiset(SortRows(rows, keys, env));
  }

  /** Rows whose key is a number come out with amounts that never fall. */
  lemma AscendingNeverFalls(rows: seq<Row>, key: Expr, env: Env, i: nat, j: nat)
    requires i < j < |SortRows(rows, [SortItem(key, false)], env)| && forall row :: row in rows ==> IsNumber(KeyOf(row, key, env))
    ensures var sorted := SortRows(rows, [SortItem(key, false)], env);
            && IsNumber(KeyOf(sorted[i], key, env)) && IsNumber(KeyOf(sorted[j], key, env))
            && AmountOf(KeyOf(sorted[i], key, env)) <= AmountOf(KeyOf(sorted[j], key, env))
  {
    hide SortRows, Evaluate, Amount;
    SortedByOneKey(rows, key, false, env, i, j);
    SortedAreRows(rows, [SortItem(key, false)], env, i);
    SortedAreRows(rows, [SortItem(key, false)], env, j);
  }

  /** Descending, they never rise. */
  lemma DescendingNeverRises(rows: seq<Row>, key: Expr, env: Env, i: nat, j: nat)
    requires i < j < |SortRows(rows, [SortItem(key, true)], env)| && forall row :: row in rows ==> IsNumber(KeyOf(row, key, env))
    ensures var sorted := SortRows(rows, [SortItem(key, true)], env);
            && IsNumber(KeyOf(sorted[i], key, env)) && IsNumber(KeyOf(sorted[j], key, env))
            && AmountOf(KeyOf(sorted[i], key, env)) >= AmountOf(KeyOf(sorted[j], key, env))
  {
    hide SortRows, Evaluate, Amount;
    SortedByOneKey(rows, key, true, env, i, j);
    SortedAreRows(rows, [SortItem(key, true)], env, i);
    SortedAreRows(rows, [SortItem(key, true)], env, j);
  }

  // ---- conditions ---------------------------------------------------------------------------------------------

  predicate Comparable(l: Value, r: Value) {
    l.ScalarV? && r.ScalarV? && !KindBelow(l, r) && !KindBelow(r, l)
  }

  /** A comparison holds between scalars of one kind only, and there it is what the operator says of which comes first. */
  ghost predicate Holds(l: Value, op: ComparisonOp, r: Value) {
    && Comparable(l, r)
    && match op
       case Eq => l == r
       case Neq => l != r
       case Lt => Below(l, r)
       case Lte => !Below(r, l)
       case Gt => Below(r, l)
       case Gte => !Below(l, r)
  }

  /** What a comparison in a condition lets through. */
  lemma ComparisonMeans(left: Expr, op: ComparisonOp, right: Expr, row: Row, env: Env)
    ensures Passes(Comparison(left, op, right), row, env) <==> Holds(Evaluate(left, row, env), op, Evaluate(right, row, env))
  {
    var l, r := Evaluate(left, row, env), Evaluate(right, row, env);
    CompareMeans(l, r);
    CompareMeans(r, l);
    CompareAntisymmetric(l, r);
    KindsAreRanks(l, r);
    hide Below, Compare, KindBelow;
  }

  lemma KindsAreRanks(a: Value, b: Value)
    ensures KindBelow(a, b) || KindBelow(b, a) <==> TypeRank(a) != TypeRank(b)
  {
  }

  /** Between numbers it is the comparison of what they are worth. */
  lemma NumbersCompared(a: Number, op: ComparisonOp, b: Number)
    ensures Holds(ScalarV(Num(a)), op, ScalarV(Num(b)))
       <==> match op
            case Eq => Amount(a) == Amount(b)
            case Neq => Amount(a) != Amount(b)
            case Lt => Amount(a) < Amount(b)
            case Lte => Amount(a) <= Amount(b)
            case Gt => Amount(a) > Amount(b)
            case Gte => Amount(a) >= Amount(b)
  {
    CompareNumbersMeans(a, b);
    CompareNumbersMeans(b, a);
    CompareNumbersAntisymmetric(a, b);
    CompareNumbersTies(a, b);
    hide Amount;
  }

  function Opposite(op: ComparisonOp): ComparisonOp {
    match op
    case Eq => Neq
    case Neq => Eq
    case Lt => Gte
    case Lte => Gt
    case Gt => Lte
    case Gte => Lt
  }

  /** Negating a comparison is comparing the opposite way if and only if both sides are scalars of one kind. */
  lemma NegationIsOppositeIff(left: Expr, op: ComparisonOp, right: Expr, row: Row, env: Env)
    ensures (Passes(Boolean(Not, [Comparison(left, op, right)]), row, env) <==> Passes(Comparison(left, Opposite(op), right), row, env))
       <==> Comparable(Evaluate(left, row, env), Evaluate(right, row, env))
  {
    ComparisonMeans(left, op, right, row, env);
    ComparisonMeans(left, Opposite(op), right, row, env);
    NegationMeans(Comparison(left, op, right), row, env);
    hide Below, KindBelow, Evaluate;
  }

  lemma NegationMeans(e: Expr, row: Row, env: Env)
    ensures Passes(Boolean(Not, [e]), row, env) <==> !Passes(e, row, env)
  {
    assert EvaluateAll([e], row, env)[0] == Evaluate(e, row, env);
  }

  function Negations(es: seq<Expr>): (r: seq<Expr>)
    ensures |r| == |es| && forall i :: 0 <= i < |es| ==> r[i] == Boolean(Not, [es[i]])
  {
    seq(|es|, i requires 0 <= i < |es| => Boolean(Not, [es[i]]))
  }

  /** AND lets a row through that every operand does, OR one that some operand does; and each is the other of the negations. */
  lemma ConnectivesMean(es: seq<Expr>, row: Row, env: Env)
    ensures Passes(Boolean(And, es), row, env) <==> forall e :: e in es ==> Passes(e, row, env)
    ensures Passes(Boolean(Or, es), row, env) <==> exists e :: e in es && Passes(e, row, env)
    ensures Passes(Boolean(Not, [Boolean(Or, es)]), row, env) <==> Passes(Boolean(And, Negations(es)), row, env)
    ensures Passes(Boolean(Not, [Boolean(And, es)]), row, env) <==> Passes(Boolean(Or, Negations(es)), row, env)
  {
    AndOrMean(es, row, env);
    AndOrMean(Negations(es), row, env);
    NegationMeans(Boolean(Or, es), row, env);
    NegationMeans(Boolean(And, es), row, env);
    forall i | 0 <= i < |es| ensures Passes(Negations(es)[i], row, env) <==> !Passes(es[i], row, env) {
      NegationMeans(es[i], row, env);
    }
    hide Passes, Negations;
    assert forall i :: 0 <= i < |es| ==> es[i] in es && Negations(es)[i] in Negations(es);
  }

  lemma AndOrMean(es: seq<Expr>, row: Row, env: Env)
    ensures Passes(Boolean(And, es), row, env) <==> forall e :: e in es ==> Passes(e, row, env)
    ensures Passes(Boolean(Or, es), row, env) <==> exists e :: e in es && Passes(e, row, env)
  {
    var vs := EvaluateAll(es, row, env);
    assert forall i :: 0 <= i < |es| ==> es[i] in es && (Truthy(vs[i]) <==> Passes(es[i], row, env));
    assert Evaluate(Boolean(And, es), row, env) == ScalarV(Bool(forall i :: 0 <= i < |vs| ==> Truthy(vs[i])));
    assert Evaluate(Boolean(Or, es), row, env) == ScalarV(Bool(exists i :: 0 <= i < |vs| && Truthy(vs[i])));
    hide Evaluate, EvaluateAll;
  }

  /** IS NULL holds of null and of nothing else, IS NOT NULL of all else; so a comparison lets no row through where it holds. */
  lemma NullTests(e: Expr, op: ComparisonOp, other: Expr, row: Row, env: Env)
    ensures Passes(IsNull(e, false), row, env) <==> Evaluate(e, row, env).NullV?
    ensures Passes(IsNull(e, true), row, env) <==> !Passes(IsNull(e, false), row, env)
    ensures Passes(IsNull(e, false), row, env) ==> !Passes(Comparison(e, op, other), row, env) && !Passes(Comparison(other, op, e), row, env)
  {
  }

  /** IN a list is OR of the equalities with its items. */
  lemma MembershipMeans(e: Expr, list: seq<Expr>, row: Row, env: Env)
    ensures Passes(In(e, list), row, env) <==> exists x :: x in list && Passes(Comparison(e, Eq, x), row, env)
  {
    var v, vs := Evaluate(e, row, env), EvaluateAll(list, row, env);
    InIsMember(e, list, row, env);
    forall i | 0 <= i < |list| ensures Passes(Comparison(e, Eq, list[i]), row, env) <==> v.ScalarV? && vs[i] == v {
      EqualityMeans(e, list[i], row, env);
    }
    hide Passes, Evaluate, EvaluateAll;
    assert forall i :: 0 <= i < |list| ==> list[i] in list && vs[i] in vs;
  }

  lemma InIsMember(e: Expr, list: seq<Expr>, row: Row, env: Env)
    ensures Passes(In(e, list), row, env) <==> Evaluate(e, row, env).ScalarV? && Evaluate(e, row, env) in EvaluateAll(list, row, env)
  {
    hide EvaluateAll;
  }

  lemma EqualityMeans(e: Expr, x: Expr, row: Row, env: Env)
    ensures Passes(Comparison(e, Eq, x), row, env) <==> Evaluate(e, row, env).ScalarV? && Evaluate(x, row, env) == Evaluate(e, row, env)
  {
  }

  /** Minus turns what a number is worth round. */
  lemma MinusMeans(e: Expr, row: Row, env: Env)
    requires IsNumber(Evaluate(e, row, env))
    ensures var v := Evaluate(UnaryMinus(e), row, env); IsNumber(v) && AmountOf(v) == -AmountOf(Evaluate(e, row, env))
  {
    var n := Evaluate(e, row, env).scalar.n;
    MinusTimes(n.m, TenTo(n.e));
  }

  lemma MinusTimes(m: int, p: real)
    ensures Times((-m) as real, p) == -Times(m as real, p)
  {
    assert (-m) as real == -(m as real);
  }

  // ---- positions and entries ---------------------------------------------------------------------------------

  /** What the number is worth is this position. */
  predicate IsPosition(n: Number, i: nat) {
    Amount(n) == i as real
  }

  lemma PositionIs(n: Number, i: nat)
    ensures IsPosition(n, i) <==> n.e >= 0 && Scaled(n, 0) == i
  {
    assert Pow10(0) == 1;
    if n.e >= 0 {
      AmountScaled(n, 0);
    } else {
      AmountScaled(n, n.e);
      AmountScaled(Decimal(i, 0), n.e);
      assert Amount(Decimal(i, 0)) == i as real;
      assert Pow10(-n.e) == 10 * Pow10(-n.e - 1);
      TenthOf(i, Pow10(-n.e - 1));
      Differ(n.m, i * Pow10(-n.e), TenTo(n.e));
    }
  }

  lemma Differ(x: int, y: int, p: real)
    requires x != y && p > 0.0
    ensures Times(x as real, p) != Times(y as real, p)
  {
    if x < y {
      Grows(x as real, y as real, p);
    } else {
      Grows(y as real, x as real, p);
    }
  }

  lemma TenthOf(i: nat, q: int)
    ensures (i * (10 * q)) % 10 == 0
  {
    assert i * (10 * q) == 10 * (i * q);
  }

  /** A list is read at the position a number is worth, counted from zero; any other number reads null. */
  lemma PositionMeans(items: seq<Value>, n: Number)
    ensures forall i: nat :: i < |items| && IsPosition(n, i) ==> EvaluateIndex(ListV(items), ScalarV(Num(n))) == items[i]
    ensures (forall i: nat :: i < |items| ==> !IsPosition(n, i)) ==> EvaluateIndex(ListV(items), ScalarV(Num(n))) == NullV
  {
    hide IsPosition, Scaled;
    forall i: nat ensures IsPosition(n, i) <==> n.e >= 0 && Scaled(n, 0) == i {
      PositionIs(n, i);
    }
    if n.e >= 0 {
      if n.m < 0 {
        BelowZero(n);
      } else if 0 <= Scaled(n, 0) < |items| {
        assert IsPosition(n, Scaled(n, 0));
      }
    }
  }

  lemma BelowZero(n: Number)
    requires n.e >= 0 && n.m < 0
    ensures Scaled(n, 0) < 0
  {
    ProductIsPositive(-n.m, Pow10(n.e));
    assert (-n.m) * Pow10(n.e) == -(n.m * Pow10(n.e));
  }

  /** The first entry of this name. */
  predicate IsEntry(entries: seq<Entry>, key: string, i: nat) {
    i < |entries| && entries[i].key == key && forall j :: 0 <= j < i ==> entries[j].key != key
  }

  /** A map is read by the name of an entry, of two the first. */
  lemma {:induction false} EntryMeans(entries: seq<Entry>, key: string, i: nat)
    requires IsEntry(entries, key, i)
    ensures EntryNamed(entries, key) == entries[i].value
  {
    if i > 0 {
      assert entries[0].key != key;
      assert IsEntry(entries[1..], key, i - 1);
      EntryMeans(entries[1..], key, i - 1);
    }
  }

  /** A name no entry has reads null. */
  lemma {:induction false} NoEntryMeans(entries: seq<Entry>, key: string)
    requires forall i :: 0 <= i < |entries| ==> entries[i].key != key
    ensures EntryNamed(entries, key) == NullV
  {
    if entries != [] {
      NoEntryMeans(entries[1..], key);
    }
  }
}
