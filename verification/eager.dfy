/**
 Write queries run clause by clause.

 Operators are generators: a row is pulled through the whole pipeline before the next one, so a read below a write would
 see what the write did to earlier rows. `Run` gives rows to a consumer in that interleaved order, with the graph as it is
 at that moment. `ClauseAtATime` is what the query means: each clause over all rows of the clause before. The plan puts a
 barrier around every write clause, and then the two agree (`DrainIsClauseAtATime`). Without barriers they do not
 (`UnfencedReadsItsOwnWrites`), nor above a LIMIT 0, which never pulls (`LimitZeroSkipsWrites`).
 */
module Eager {
  import opened Wrappers
  import opened Seqs

  /**
   `Read` turns a row into more rows in instalments, each reading the graph when it is asked for; `Gate` passes a row or
   not, looking at the rows before it; `Whole` needs all rows first; `Write` plans its actions for a row when the row
   arrives, then applies each and hands on its row.
   */
  datatype Op<!G, !R, !W> =
    | Source(rows: seq<R>)
    | Scan(scan: G -> seq<R>)
    | Read(child: Op<G, R, W>, steps: R -> nat, read: (G, R, nat) -> seq<R>)
    | Gate(child: Op<G, R, W>, keep: (seq<R>, R) -> bool)
    | Whole(child: Op<G, R, W>, change: seq<R> -> seq<R>)
    | Limit(child: Op<G, R, W>, count: nat)
    | Product(child: Op<G, R, W>, right: Op<G, R, W>, merge: (R, R) -> seq<R>)
    | Write(child: Op<G, R, W>, plan: (G, R) -> seq<W>, apply: (G, R, W) -> (G, R))
    | Barrier(child: Op<G, R, W>)

  // ---- interleaved runs ---------------------------------------------------------------------------------------

  /** The graph and the consumer's state after a row, and whether it wants more. */
  datatype Out<!G, !S> = Out(g: G, s: S, go: bool)

  type Sink<!G, !S, !R> = (G, S, R) -> Out<G, S>

  /** Hands rows that are at hand to a consumer, one by one. */
  function Feed<G, S, R>(rows: seq<R>, g: G, s: S, k: Sink<G, S, R>): Out<G, S> {
    if rows == [] then Out(g, s, true)
    else
      var o := k(g, s, rows[0]);
      if !o.go then o else Feed(rows[1..], o.g, o.s, k)
  }

  /** The instalments of one row from the i-th on, each read when it is due. */
  function Instalments<G, S, R>(row: R, i: nat, n: nat, read: (G, R, nat) -> seq<R>, g: G, s: S, k: Sink<G, S, R>): Out<G, S>
    decreases n - i
  {
    if i >= n then Out(g, s, true)
    else
      var o := Feed(read(g, row, i), g, s, k);
      if !o.go then o else Instalments(row, i + 1, n, read, o.g, o.s, k)
  }

  function ReadSink<G, S, R>(steps: R -> nat, read: (G, R, nat) -> seq<R>, k: Sink<G, S, R>): Sink<G, S, R> {
    (g: G, s: S, row: R) => Instalments(row, 0, steps(row), read, g, s, k)
  }

  function GateSink<G, S, R>(keep: (seq<R>, R) -> bool, k: Sink<G, S, R>): Sink<G, (S, seq<R>), R> {
    (g: G, t: (S, seq<R>), row: R) =>
      if !keep(t.1, row) then Out(g, (t.0, t.1 + [row]), true)
      else
        var o := k(g, t.0, row);
        Out(o.g, (o.s, t.1 + [row]), o.go)
  }

  /** The counter's third part says whether the consumer itself had enough. */
  function LimitSink<G, S, R>(n: nat, k: Sink<G, S, R>): Sink<G, (S, int, bool), R> {
    (g: G, t: (S, int, bool), row: R) =>
      var o := k(g, t.0, row);
      Out(o.g, (o.s, t.1 + 1, o.go), o.go && t.1 + 1 < n)
  }

  function WithLeft<R>(l: R, merge: (R, R) -> seq<R>): R -> seq<R> {
    (r: R) => merge(l, r)
  }

  function Pairs<R>(l: R, rights: seq<R>, merge: (R, R) -> seq<R>): seq<R> {
    FlatMap(rights, WithLeft(l, merge))
  }

  /** The actions planned for a row, applied one after the other. */
  function Actions<G, S, R, W>(ws: seq<W>, row: R, apply: (G, R, W) -> (G, R), g: G, s: S, k: Sink<G, S, R>): Out<G, S> {
    if ws == [] then Out(g, s, true)
    else
      var done := apply(g, row, ws[0]);
      var o := k(done.0, s, done.1);
      if !o.go then o else Actions(ws[1..], row, apply, o.g, o.s, k)
  }

  function WriteSink<G, S, R, W>(plan: (G, R) -> seq<W>, apply: (G, R, W) -> (G, R), k: Sink<G, S, R>): Sink<G, S, R> {
    (g: G, s: S, row: R) => Actions(plan(g, row), row, apply, g, s, k)
  }

  function Collect<G, R>(): Sink<G, seq<R>, R> {
    (g: G, rows: seq<R>, row: R) => Out(g, rows + [row], true)
  }

  /** The right side is buffered at the first left row. */
  function ProductSink<G, S, R, W>(right: Op<G, R, W>, merge: (R, R) -> seq<R>, k: Sink<G, S, R>): Sink<G, (S, Option<seq<R>>), R>
    decreases right, 1
  {
    (g: G, t: (S, Option<seq<R>>), l: R) =>
      if t.1.Some? then
        var o := Feed(Pairs(l, t.1.value, merge), g, t.0, k);
        Out(o.g, (o.s, t.1), o.go)
      else
        var rights := Run(right, g, [], Collect());
        var o := Feed(Pairs(l, rights.s, merge), rights.g, t.0, k);
        Out(o.g, (o.s, Some(rights.s)), o.go)
  }

  /** Pulls every row of an operator into a consumer, until it has enough. */
  function Run<G, S, R, W>(op: Op<G, R, W>, g: G, s: S, k: Sink<G, S, R>): Out<G, S>
    decreases op, 0
  {
    match op
    case Source(rows) => Feed(rows, g, s, k)
    case Scan(scan) => Feed(scan(g), g, s, k)
    case Read(child, steps, read) => Run(child, g, s, ReadSink(steps, read, k))
    case Gate(child, keep) =>
      var o := Run(child, g, (s, []), GateSink(keep, k));
      Out(o.g, o.s.0, o.go)
    case Whole(child, change) =>
      var o := Run(child, g, [], Collect());
      Feed(change(o.s), o.g, s, k)
    case Limit(child, n) =>
      if n == 0 then Out(g, s, true)
      else
        var o := Run(child, g, (s, 0, true), LimitSink(n, k));
        Out(o.g, o.s.0, o.s.2)
    case Product(left, right, merge) =>
      var o := Run(left, g, (s, None), ProductSink(right, merge, k));
      Out(o.g, o.s.0, o.go)
    case Write(child, plan, apply) => Run(child, g, s, WriteSink(plan, apply, k))
    case Barrier(child) =>
      var o := Run(child, g, [], Collect());
      Feed(o.s, o.g, s, k)
  }

  /** Every row, and the graph afterwards. */
  function Drain<G, R, W>(op: Op<G, R, W>, g: G): (seq<R>, G) {
    var o := Run(op, g, [], Collect());
    (o.s, o.g)
  }

  // ---- clause at a time ---------------------------------------------------------------------------------------

  datatype Step<!G, !R, !W> =
    | ScanStep(scan: G -> seq<R>)
    | ReadStep(steps: R -> nat, read: (G, R, nat) -> seq<R>)
    | GateStep(keep: (seq<R>, R) -> bool)
    | WholeStep(change: seq<R> -> seq<R>)
    | LimitStep(count: nat)
    | ProductStep(scan: G -> seq<R>, merge: (R, R) -> seq<R>)
    | WriteStep(plan: (G, R) -> seq<W>, apply: (G, R, W) -> (G, R))

  function AllInstalments<G, R>(row: R, i: nat, n: nat, read: (G, R, nat) -> seq<R>, g: G): seq<R>
    decreases n - i
  {
    if i >= n then [] else read(g, row, i) + AllInstalments(row, i + 1, n, read, g)
  }

  function ReadAll<G, R>(steps: R -> nat, read: (G, R, nat) -> seq<R>, g: G): R -> seq<R> {
    (row: R) => AllInstalments(row, 0, steps(row), read, g)
  }

  function Passed<R>(rows: seq<R>, seen: seq<R>, keep: (seq<R>, R) -> bool): seq<R> {
    if rows == [] then []
    else (if keep(seen, rows[0]) then [rows[0]] else []) + Passed(rows[1..], seen + [rows[0]], keep)
  }

  function Take<R>(rows: seq<R>, n: nat): seq<R> {
    if n < |rows| then rows[..n] else rows
  }

  function PairEach<R>(rights: seq<R>, merge: (R, R) -> seq<R>): R -> seq<R> {
    (l: R) => Pairs(l, rights, merge)
  }

  function ApplyAll<G, R, W>(ws: seq<W>, row: R, apply: (G, R, W) -> (G, R), g: G): (seq<R>, G) {
    if ws == [] then ([], g)
    else
      var done := apply(g, row, ws[0]);
      var rest := ApplyAll(ws[1..], row, apply, done.0);
      ([done.1] + rest.0, rest.1)
  }

  /** A write over all rows in order: each row planned and applied before the next is looked at. */
  function WriteAll<G, R, W>(rows: seq<R>, plan: (G, R) -> seq<W>, apply: (G, R, W) -> (G, R), g: G): (seq<R>, G) {
    if rows == [] then ([], g)
    else
      var first := ApplyAll(plan(g, rows[0]), rows[0], apply, g);
      var rest := WriteAll(rows[1..], plan, apply, first.1);
      (first.0 + rest.0, rest.1)
  }

  /** One clause over the rows of the clauses before it. */
  function OneClause<G, R, W>(step: Step<G, R, W>, rows: seq<R>, g: G): (seq<R>, G) {
    match step
    case ScanStep(scan) => (scan(g), g)
    case ReadStep(steps, read) => (FlatMap(rows, ReadAll(steps, read, g)), g)
    case GateStep(keep) => (Passed(rows, [], keep), g)
    case WholeStep(change) => (change(rows), g)
    case LimitStep(n) => (Take(rows, n), g)
    case ProductStep(scan, merge) => (FlatMap(rows, PairEach(scan(g), merge)), g)
    case WriteStep(plan, apply) => WriteAll(rows, plan, apply, g)
  }

  function ClauseAtATime<G, R, W>(steps: seq<Step<G, R, W>>, rows: seq<R>, g: G): (seq<R>, G) {
    if steps == [] then (rows, g)
    else
      var n := |steps| - 1;
      var before := ClauseAtATime(steps[..n], rows, g);
      OneClause(steps[n], before.0, before.1)
  }

  /** What a drained plan does: a LIMIT 0 asks for no row, so what is below it never happens. */
  function Drained<G, R, W>(steps: seq<Step<G, R, W>>, rows: seq<R>, g: G): (seq<R>, G) {
    if steps == [] then (rows, g)
    else
      var n := |steps| - 1;
      var before := Drained(steps[..n], rows, g);
      if steps[n] == LimitStep(0) then ([], g) else OneClause(steps[n], before.0, before.1)
  }

  // ---- the plan -----------------------------------------------------------------------------------------------

  /** The input of a write: fenced, unless it is fenced already or the query starts with the write. */
  function Fenced<G, R, W>(op: Option<Op<G, R, W>>, single: R): Op<G, R, W> {
    if op.None? then Source([single]) else if op.value.Barrier? then op.value else Barrier(op.value)
  }

  /** A write clause is fenced on both sides. */
  function Compile<G, R, W>(op: Option<Op<G, R, W>>, single: R, step: Step<G, R, W>): Op<G, R, W> {
    var input := if op.Some? then op.value else Source([single]);
    match step
    case ScanStep(scan) => Scan(scan)
    case ReadStep(steps, read) => Read(input, steps, read)
    case GateStep(keep) => Gate(input, keep)
    case WholeStep(change) => Whole(input, change)
    case LimitStep(n) => Limit(input, n)
    case ProductStep(scan, merge) => Product(input, Scan(scan), merge)
    case WriteStep(plan, apply) =>
      Barrier(Write(Fenced(op, single), plan, apply))
  }

  function CompileAll<G, R, W>(steps: seq<Step<G, R, W>>, single: R): Option<Op<G, R, W>> {
    if steps == [] then None
    else
      var n := |steps| - 1;
      Some(Compile(CompileAll(steps[..n], single), single, steps[n]))
  }

  /** Only the first clause scans on its own; a later one joins. */
  predicate ScansFirst<G, R, W>(steps: seq<Step<G, R, W>>) {
    forall i :: 0 <= i < |steps| ==> steps[i].ScanStep? ==> i == 0
  }

  /** ... and no clause is a LIMIT 0. */
  predicate Plannable<G, R, W>(steps: seq<Step<G, R, W>>) {
    ScansFirst(steps) && forall i :: 0 <= i < |steps| ==> steps[i] != LimitStep(0)
  }

  // ---- feeding ------------------------------------------------------------------------------------------------

  /** The consumer leaves the graph alone. */
  ghost predicate Quiet<G(!new), S(!new), R(!new)>(k: Sink<G, S, R>) {
    forall g, s, r :: k(g, s, r).g == g
  }

  lemma {:induction false} FeedQuiet<G(!new), S(!new), R(!new)>(rows: seq<R>, g: G, s: S, k: Sink<G, S, R>)
    requires Quiet(k)
    ensures Feed(rows, g, s, k).g == g
  {
    if rows != [] {
      var o := k(g, s, rows[0]);
      assert o.g == g;
      if o.go {
        FeedQuiet(rows[1..], o.g, o.s, k);
      }
    }
  }

  lemma {:induction false} FeedConcat<G(!new), S(!new), R(!new)>(a: seq<R>, b: seq<R>, g: G, s: S, k: Sink<G, S, R>)
    ensures Feed(a + b, g, s, k) == var o := Feed(a, g, s, k); if !o.go then o else Feed(b, o.g, o.s, k)
  {
    if a == [] {
      assert a + b == b;
    } else {
      var o := k(g, s, a[0]);
      assert (a + b)[1..] == a[1..] + b;
      if o.go {
        FeedConcat(a[1..], b, o.g, o.s, k);
      }
    }
  }

  lemma {:induction false} FeedCollect<G(!new), R(!new)>(rows: seq<R>, g: G, so: seq<R>)
    ensures Feed(rows, g, so, Collect<G, R>()) == Out(g, so + rows, true)
  {
    if rows == [] {
      assert so + rows == so;
    } else {
      FeedCollect(rows[1..], g, so + [rows[0]]);
      assert so + [rows[0]] + rows[1..] == so + rows;
    }
  }

  /** Feeding what each row produces is feeding all that is produced. */
  lemma {:induction false} FeedEach<G(!new), S(!new), R(!new)>(rows: seq<R>, f: R -> seq<R>, g: G, s: S, k: Sink<G, S, R>, each: Sink<G, S, R>)
    requires Quiet(k) && forall t, r :: each(g, t, r) == Feed(f(r), g, t, k)
    ensures Feed(rows, g, s, each) == Feed(FlatMap(rows, f), g, s, k)
  {
    if rows != [] {
      var o := each(g, s, rows[0]);
      assert o == Feed(f(rows[0]), g, s, k);
      FeedQuiet(f(rows[0]), g, s, k);
      FeedConcat(f(rows[0]), FlatMap(rows[1..], f), g, s, k);
      if o.go {
        FeedEach(rows[1..], f, g, o.s, k, each);
      }
    }
  }

  lemma {:induction false} InstalmentsQuiet<G(!new), S(!new), R(!new)>(row: R, i: nat, n: nat, read: (G, R, nat) -> seq<R>, g: G, s: S, k: Sink<G, S, R>)
    requires Quiet(k)
    ensures Instalments(row, i, n, read, g, s, k) == Feed(AllInstalments(row, i, n, read, g), g, s, k)
    decreases n - i
  {
    if i < n {
      var o := Feed(read(g, row, i), g, s, k);
      FeedQuiet(read(g, row, i), g, s, k);
      FeedConcat(read(g, row, i), AllInstalments(row, i + 1, n, read, g), g, s, k);
      if o.go {
        InstalmentsQuiet(row, i + 1, n, read, o.g, o.s, k);
      }
    }
  }

  lemma ReadQuiet<G(!new), S(!new), R(!new)>(steps: R -> nat, read: (G, R, nat) -> seq<R>, k: Sink<G, S, R>)
    requires Quiet(k)
    ensures Quiet(ReadSink(steps, read, k))
    ensures forall g, s, r :: ReadSink(steps, read, k)(g, s, r) == Feed(ReadAll(steps, read, g)(r), g, s, k)
  {
    forall g: G, s: S, r: R
      ensures ReadSink(steps, read, k)(g, s, r).g == g && ReadSink(steps, read, k)(g, s, r) == Feed(ReadAll(steps, read, g)(r), g, s, k)
    {
      InstalmentsQuiet(r, 0, steps(r), read, g, s, k);
      FeedQuiet(AllInstalments(r, 0, steps(r), read, g), g, s, k);
    }
  }

  lemma GateQuiet<G(!new), S(!new), R(!new)>(keep: (seq<R>, R) -> bool, k: Sink<G, S, R>)
    requires Quiet(k)
    ensures Quiet(GateSink(keep, k))
  {
    forall g: G, t: (S, seq<R>), row: R ensures GateSink(keep, k)(g, t, row).g == g {
      assert k(g, t.0, row).g == g;
    }
  }

  lemma {:induction false} FeedGate<G(!new), S(!new), R(!new)>(rows: seq<R>, seen: seq<R>, keep: (seq<R>, R) -> bool, g: G, s: S, k: Sink<G, S, R>)
    requires Quiet(k)
    ensures var o := Feed(rows, g, (s, seen), GateSink(keep, k)); Out(o.g, o.s.0, o.go) == Feed(Passed(rows, seen, keep), g, s, k)
  {
    if rows != [] {
      var rest := Passed(rows[1..], seen + [rows[0]], keep);
      if keep(seen, rows[0]) {
        var o := k(g, s, rows[0]);
        assert ([rows[0]] + rest)[1..] == rest;
        if o.go {
          FeedGate(rows[1..], seen + [rows[0]], keep, o.g, o.s, k);
        }
      } else {
        assert [] + rest == rest;
        FeedGate(rows[1..], seen + [rows[0]], keep, g, s, k);
      }
    }
  }

  lemma LimitQuiet<G(!new), S(!new), R(!new)>(n: nat, k: Sink<G, S, R>)
    requires Quiet(k)
    ensures Quiet(LimitSink(n, k))
  {
    forall g: G, t: (S, int, bool), row: R ensures LimitSink(n, k)(g, t, row).g == g {
      assert k(g, t.0, row).g == g;
    }
  }

  lemma {:induction false} FeedLimit<G(!new), S(!new), R(!new)>(rows: seq<R>, c: nat, n: nat, g: G, s: S, k: Sink<G, S, R>)
    requires Quiet(k) && c < n
    ensures var o := Feed(rows, g, (s, c, true), LimitSink(n, k)); Out(o.g, o.s.0, o.s.2) == Feed(Take(rows, n - c), g, s, k)
  {
    if rows != [] {
      var o := k(g, s, rows[0]);
      var taken := Take(rows, n - c);
      assert taken[0] == rows[0];
      if o.go {
        if c + 1 < n {
          FeedLimit(rows[1..], c + 1, n, o.g, o.s, k);
          assert taken[1..] == Take(rows[1..], n - (c + 1));
        } else {
          assert taken[1..] == [];
        }
      }
    }
  }

  // ---- runs of fenced plans -----------------------------------------------------------------------------------

  lemma {:induction false} FeedProduct<G(!new), S(!new), R(!new), W>(rows: seq<R>, right: Op<G, R, W>, merge: (R, R) -> seq<R>, g: G, s: S, k: Sink<G, S, R>, rights: seq<R>)
    requires Quiet(k) && Run(right, g, [], Collect()) == Out(g, rights, true)
    ensures var o := Feed(rows, g, (s, None), ProductSink(right, merge, k));
            Out(o.g, o.s.0, o.go) == Feed(FlatMap(rows, PairEach(rights, merge)), g, s, k)
  {
    if rows != [] {
      var first := Pairs(rows[0], rights, merge);
      var o := Feed(first, g, s, k);
      FeedQuiet(first, g, s, k);
      FeedConcat(first, FlatMap(rows[1..], PairEach(rights, merge)), g, s, k);
      if o.go {
        FeedBuffered(rows[1..], right, merge, g, o.s, k, rights);
      }
    }
  }

  lemma {:induction false} FeedBuffered<G(!new), S(!new), R(!new), W>(rows: seq<R>, right: Op<G, R, W>, merge: (R, R) -> seq<R>, g: G, s: S, k: Sink<G, S, R>, rights: seq<R>)
    requires Quiet(k)
    ensures var o := Feed(rows, g, (s, Some(rights)), ProductSink(right, merge, k));
            Out(o.g, o.s.0, o.go) == Feed(FlatMap(rows, PairEach(rights, merge)), g, s, k)
  {
    if rows != [] {
      var first := Pairs(rows[0], rights, merge);
      var o := Feed(first, g, s, k);
      FeedQuiet(first, g, s, k);
      FeedConcat(first, FlatMap(rows[1..], PairEach(rights, merge)), g, s, k);
      if o.go {
        FeedBuffered(rows[1..], right, merge, g, o.s, k, rights);
      }
    }
  }

  lemma ProductQuiet<G(!new), S(!new), R(!new), W>(scan: G -> seq<R>, merge: (R, R) -> seq<R>, k: Sink<G, S, R>)
    requires Quiet(k)
    ensures Quiet(ProductSink(Op<G, R, W>.Scan(scan), merge, k))
  {
    var right := Op<G, R, W>.Scan(scan);
    forall g: G, t: (S, Option<seq<R>>), l: R ensures ProductSink(right, merge, k)(g, t, l).g == g {
      FeedCollect(scan(g), g, []);
      if t.1.Some? {
        FeedQuiet(Pairs(l, t.1.value, merge), g, t.0, k);
      } else {
        FeedQuiet(Pairs(l, [] + scan(g), merge), g, t.0, k);
      }
    }
  }

  lemma {:induction false} ActionsCollect<G(!new), R(!new), W>(ws: seq<W>, row: R, apply: (G, R, W) -> (G, R), g: G, so: seq<R>)
    ensures Actions(ws, row, apply, g, so, Collect()) == Out(ApplyAll(ws, row, apply, g).1, so + ApplyAll(ws, row, apply, g).0, true)
  {
    if ws == [] {
      assert so + [] == so;
    } else {
      var done := apply(g, row, ws[0]);
      ActionsCollect(ws[1..], row, apply, done.0, so + [done.1]);
      var rest := ApplyAll(ws[1..], row, apply, done.0).0;
      assert so + [done.1] + rest == so + ([done.1] + rest);
    }
  }

  lemma {:induction false} FeedWrite<G(!new), R(!new), W>(rows: seq<R>, plan: (G, R) -> seq<W>, apply: (G, R, W) -> (G, R), g: G, so: seq<R>)
    ensures Feed(rows, g, so, WriteSink(plan, apply, Collect()))
         == Out(WriteAll(rows, plan, apply, g).1, so + WriteAll(rows, plan, apply, g).0, true)
  {
    if rows == [] {
      assert so + [] == so;
    } else {
      var first := ApplyAll(plan(g, rows[0]), rows[0], apply, g);
      ActionsCollect(plan(g, rows[0]), rows[0], apply, g, so);
      FeedWrite(rows[1..], plan, apply, first.1, so + first.0);
      var rest := WriteAll(rows[1..], plan, apply, first.1).0;
      assert so + first.0 + rest == so + (first.0 + rest);
    }
  }

  lemma FeedScanned<G(!new), S(!new), R(!new), W>(rows: seq<R>, scan: G -> seq<R>, merge: (R, R) -> seq<R>, g: G, s: S, k: Sink<G, S, R>)
    requires Quiet(k)
    ensures var o := Feed(rows, g, (s, None), ProductSink(Op<G, R, W>.Scan(scan), merge, k));
            Out(o.g, o.s.0, o.go) == Feed(FlatMap(rows, PairEach(scan(g), merge)), g, s, k)
  {
    FeedCollect(scan(g), g, []);
    assert [] + scan(g) == scan(g);
    FeedProduct(rows, Op<G, R, W>.Scan(scan), merge, g, s, k, scan(g));
  }

  lemma ScansFirstBefore<G(!new), R(!new), W>(steps: seq<Step<G, R, W>>)
    requires steps != [] && ScansFirst(steps)
    ensures ScansFirst(steps[..|steps| - 1])
  {
    var before := steps[..|steps| - 1];
    assert forall i :: 0 <= i < |before| ==> before[i] == steps[i];
  }

  /** Whatever the plan's rows are pulled into, its writes are over before the first row arrives. */
  lemma {:induction false} RunIsFeed<G(!new), S(!new), R(!new), W>(steps: seq<Step<G, R, W>>, single: R, g: G, s: S, k: Sink<G, S, R>)
    requires ScansFirst(steps) && Quiet(k)
    ensures var op := CompileAll(steps, single); var done := Drained(steps, [single], g);
            Run(if op.Some? then op.value else Source([single]), g, s, k) == Feed(done.0, done.1, s, k)
    decreases |steps|, 1
  {
    hide Feed, Quiet, PairEach, ReadAll, Passed, Take, WriteAll, FlatMap;
    if steps != [] {
      var n := |steps| - 1;
      var before := steps[..n];
      ScansFirstBefore(steps);
      var op := CompileAll(before, single);
      var input := if op.Some? then op.value else Source([single]);
      var done := Drained(before, [single], g);
      match steps[n] {
        case ScanStep(scan) =>
        case ReadStep(how, read) =>
          ReadQuiet(how, read, k);
          RunIsFeed(before, single, g, s, ReadSink(how, read, k));
          FeedEach(done.0, ReadAll(how, read, done.1), done.1, s, k, ReadSink(how, read, k));
        case GateStep(keep) =>
          GateQuiet(keep, k);
          RunIsFeed(before, single, g, (s, []), GateSink(keep, k));
          FeedGate(done.0, [], keep, done.1, s, k);
        case WholeStep(change) => WholeIsFeed(before, single, g);
        case LimitStep(count) =>
          if count == 0 {
            NothingFed(g, s, k);
            return;
          }
          LimitQuiet(count, k);
          RunIsFeed(before, single, g, (s, 0, true), LimitSink(count, k));
          FeedLimit(done.0, 0, count, done.1, s, k);
        case ProductStep(scan, merge) =>
          ProductQuiet<G, S, R, W>(scan, merge, k);
          RunIsFeed(before, single, g, (s, None), ProductSink(Op<G, R, W>.Scan(scan), merge, k));
          FeedScanned<G, S, R, W>(done.0, scan, merge, done.1, s, k);
        case WriteStep(plan, apply) => WriteIsFeed(steps, single, g);
      }
    }
  }

  lemma NothingFed<G(!new), S(!new), R(!new)>(g: G, s: S, k: Sink<G, S, R>)
    ensures Feed([], g, s, k) == Out(g, s, true)
  {
  }

  lemma CollectIsQuiet<G(!new), R(!new)>()
    ensures Quiet(Collect<G, R>())
  {
  }

  /** Collecting the rows of a plan. */
  lemma WholeIsFeed<G(!new), R(!new), W>(steps: seq<Step<G, R, W>>, single: R, g: G)
    requires ScansFirst(steps)
    ensures var op := CompileAll(steps, single); var done := Drained(steps, [single], g);
            Run(if op.Some? then op.value else Source([single]), g, [], Collect()) == Out(done.1, done.0, true)
    decreases |steps|, 2
  {
    CollectIsQuiet<G, R>();
    var done := Drained(steps, [single], g);
    RunIsFeed(steps, single, g, [], Collect<G, R>());
    FeedCollect(done.0, done.1, []);
    assert [] + done.0 == done.0;
  }

  /** What a write takes in is complete before the first row reaches it. */
  lemma FencedFeeds<G(!new), S(!new), R(!new), W>(steps: seq<Step<G, R, W>>, single: R, g: G, s: S, k: Sink<G, S, R>)
    requires ScansFirst(steps)
    ensures var done := Drained(steps, [single], g);
            Run(Fenced(CompileAll(steps, single), single), g, s, k) == Feed(done.0, done.1, s, k)
    decreases |steps|, 3
  {
    hide Drained, Feed, CompileAll;
    var op := CompileAll(steps, single);
    WholeIsFeed(steps, single, g);
    if op.None? {
      NothingBefore(steps, single, g);
    } else if op.value.Barrier? {
      BarrierFeeds(steps, single, g, op.value.child);
    }
  }

  /** A fenced write has taken all its input before it starts, and is over before anything above it gets a row. */
  lemma WriteIsFeed<G(!new), R(!new), W>(steps: seq<Step<G, R, W>>, single: R, g: G)
    requires ScansFirst(steps) && steps != [] && steps[|steps| - 1].WriteStep?
    ensures CompileAll(steps, single).value.Barrier?
    ensures var done := Drained(steps, [single], g);
            Run(CompileAll(steps, single).value.child, g, [], Collect()) == Out(done.1, done.0, true)
    decreases |steps|, 0
  {
    hide Feed, WriteAll, Fenced;
    var n := |steps| - 1;
    var before := steps[..n];
    var step := steps[n];
    ScansFirstBefore(steps);
    var done := Drained(before, [single], g);
    var sink := WriteSink(step.plan, step.apply, Collect<G, R>());
    FencedFeeds(before, single, g, [], sink);
    FeedWrite(done.0, step.plan, step.apply, done.1, []);
    var all := WriteAll(done.0, step.plan, step.apply, done.1);
    assert [] + all.0 == all.0;
  }

  lemma NothingBefore<G(!new), R(!new), W>(steps: seq<Step<G, R, W>>, single: R, g: G)
    requires CompileAll(steps, single).None?
    ensures Drained(steps, [single], g) == ([single], g)
  {
  }

  /** A plan that ends in a barrier: collecting below it gives the same rows. */
  lemma BarrierFeeds<G(!new), R(!new), W>(steps: seq<Step<G, R, W>>, single: R, g: G, child: Op<G, R, W>)
    requires ScansFirst(steps) && CompileAll(steps, single) == Some(Barrier(child))
    ensures var done := Drained(steps, [single], g); Run(child, g, [], Collect()) == Out(done.1, done.0, true)
    decreases |steps|, 1
  {
    WriteIsFeed(steps, single, g);
  }

  /** Without a LIMIT 0 nothing is skipped. */
  lemma {:induction false} NothingSkipped<G(!new), R(!new), W>(steps: seq<Step<G, R, W>>, rows: seq<R>, g: G)
    requires forall i :: 0 <= i < |steps| ==> steps[i] != LimitStep(0)
    ensures Drained(steps, rows, g) == ClauseAtATime(steps, rows, g)
    decreases |steps|
  {
    if steps != [] {
      NothingSkipped(steps[..|steps| - 1], rows, g);
    }
  }

  /** Draining the plan of a query gives the rows and the graph of its clauses after the last LIMIT 0, which none before feeds. */
  lemma DrainSkips<G(!new), R(!new), W>(steps: seq<Step<G, R, W>>, single: R, g: G)
    requires ScansFirst(steps) && steps != []
    ensures Drain(CompileAll(steps, single).value, g) == Drained(steps, [single], g)
  {
    hide Run, Drained;
    WholeIsFeed(steps, single, g);
  }

  /** Draining the plan of a write query gives the rows and the graph of running it clause by clause. */
  lemma DrainIsClauseAtATime<G(!new), R(!new), W>(steps: seq<Step<G, R, W>>, single: R, g: G)
    requires Plannable(steps) && steps != []
    ensures Drain(CompileAll(steps, single).value, g) == ClauseAtATime(steps, [single], g)
  {
    DrainSkips(steps, single, g);
    NothingSkipped(steps, [single], g);
  }

  // ---- why the fences -----------------------------------------------------------------------------------------

  /** Reads the graph, a number, twice. */
  function ReadTwice(): (int, int, nat) -> seq<int> {
    (g: int, row: int, i: nat) => [g]
  }

  function Two(): int -> nat {
    (row: int) => 2
  }

  function Once(): (int, int) -> seq<int> {
    (g: int, row: int) => [1]
  }

  function AddOne(): (int, int, int) -> (int, int) {
    (g: int, row: int, w: int) => (g + w, row)
  }

  /** A read feeding a write without a barrier sees the write's effect on its own earlier row. */
  lemma UnfencedReadsItsOwnWrites()
    ensures Drain(Write(Read(Source([0]), Two(), ReadTwice()), Once(), AddOne()), 0) == ([0, 1], 2)
    ensures ClauseAtATime([ReadStep(Two(), ReadTwice()), WriteStep(Once(), AddOne())], [0], 0) == ([0, 0], 2)
  {
    var k := WriteSink(Once(), AddOne(), Collect<int, int>());
    assert k(0, [], 0) == Out(1, [0], true) by {
      ActionsCollect(Once()(0, 0), 0, AddOne(), 0, []);
      AddOnce(0, 0);
      assert [] + [0] == [0];
    }
    assert k(1, [0], 1) == Out(2, [0, 1], true) by {
      ActionsCollect(Once()(1, 1), 1, AddOne(), 1, [0]);
      AddOnce(1, 1);
      assert [0] + [1] == [0, 1];
    }
    FeedOne(0, 0, [], k);
    FeedOne(1, 1, [0], k);
    assert Instalments(0, 0, 2, ReadTwice(), 0, [], k) == Out(2, [0, 1], true) by {
      assert Instalments(0, 2, 2, ReadTwice(), 2, [0, 1], k) == Out(2, [0, 1], true);
      assert Instalments(0, 1, 2, ReadTwice(), 1, [0], k) == Out(2, [0, 1], true);
    }
    FeedOne(0, 0, [], ReadSink(Two(), ReadTwice(), k));
    FencedTwice();
  }

  lemma FeedOne<G(!new), S(!new), R(!new)>(row: R, g: G, s: S, k: Sink<G, S, R>)
    ensures Feed([row], g, s, k) == k(g, s, row)
  {
    assert [row][1..] == [];
  }

  lemma AddOnce(row: int, g: int)
    ensures ApplyAll([1], row, AddOne(), g) == ([row], g + 1)
  {
    assert [1][1..] == [];
    assert ApplyAll([], row, AddOne(), g + 1) == ([], g + 1);
    assert [row] + [] == [row];
  }

  lemma FencedTwice()
    ensures ClauseAtATime([ReadStep(Two(), ReadTwice()), WriteStep(Once(), AddOne())], [0], 0) == ([0, 0], 2)
  {
    var read, write := Step<int, int, int>.ReadStep(Two(), ReadTwice()), Step<int, int, int>.WriteStep(Once(), AddOne());
    assert [read, write][..1] == [read] && [read][..0] == [];
    var each := ReadAll(Two(), ReadTwice(), 0);
    assert each(0) == [0, 0] by {
      assert AllInstalments(0, 2, 2, ReadTwice(), 0) == [];
      assert AllInstalments(0, 1, 2, ReadTwice(), 0) == [0] + [] == [0];
      assert AllInstalments(0, 0, 2, ReadTwice(), 0) == [0] + [0];
    }
    assert FlatMap([0], each) == [0, 0] + FlatMap([0][1..], each) == [0, 0];
    assert ClauseAtATime([read], [0], 0) == ([0, 0], 0);
    assert [1][1..] == [];
    AddOnce(0, 0);
    AddOnce(0, 1);
    assert [0, 0][1..] == [0] && [0][1..] == [];
    assert WriteAll([0], Once(), AddOne(), 1) == ([0], 2);
    assert WriteAll([0, 0], Once(), AddOne(), 0) == ([0, 0], 2);
  }

  /** Clauses after a LIMIT 0, down to which nothing happens, start with no row and the graph as it was. */
  lemma {:induction false} DrainedAfter<G(!new), R(!new), W>(steps: seq<Step<G, R, W>>, rows: seq<R>, g: G, i: nat)
    requires i < |steps| && steps[i] == LimitStep(0)
    ensures Drained(steps, rows, g) == Drained(steps[i + 1..], [], g)
    decreases |steps|
  {
    var n := |steps| - 1;
    if i < n {
      DrainedAfter(steps[..n], rows, g, i);
      assert steps[..n][i + 1..] == steps[i + 1..][..n - i - 1];
      assert steps[i + 1..][n - i - 1] == steps[n];
    } else {
      assert steps[i + 1..] == [];
    }
  }

  lemma {:induction false} ClausesAfter<G(!new), R(!new), W>(steps: seq<Step<G, R, W>>, rows: seq<R>, g: G, i: nat)
    requires i < |steps| && steps[i] == LimitStep(0)
    ensures ClauseAtATime(steps, rows, g) == ClauseAtATime(steps[i + 1..], [], ClauseAtATime(steps[..i], rows, g).1)
    decreases |steps|
  {
    var n := |steps| - 1;
    if i < n {
      ClausesAfter(steps[..n], rows, g, i);
      assert steps[..n][i + 1..] == steps[i + 1..][..n - i - 1] && steps[..n][..i] == steps[..i];
      assert steps[i + 1..][n - i - 1] == steps[n];
    } else {
      assert steps[i + 1..] == [] && steps[..n] == steps[..i];
    }
  }

  /**
   The last LIMIT 0 of a query, wherever it is: draining runs the clauses after it over the graph as it was, and clause at a
   time they run over what the clauses before it left. So the two agree if and only if those give the same from both.
   */
  lemma LimitZeroSkipsWrites<G(!new), R(!new), W>(steps: seq<Step<G, R, W>>, single: R, g: G, i: nat)
    requires ScansFirst(steps) && i < |steps| && steps[i] == LimitStep(0) && forall j :: i < j < |steps| ==> steps[j] != LimitStep(0)
    ensures var left := ClauseAtATime(steps[..i], [single], g).1;
            && Drain(CompileAll(steps, single).value, g) == ClauseAtATime(steps[i + 1..], [], g)
            && ClauseAtATime(steps, [single], g) == ClauseAtATime(steps[i + 1..], [], left)
            && (left == g ==> Drain(CompileAll(steps, single).value, g) == ClauseAtATime(steps, [single], g))
            && (i == |steps| - 1 && left != g ==> Drain(CompileAll(steps, single).value, g) != ClauseAtATime(steps, [single], g))
  {
    hide Drain, CompileAll;
    DrainSkips(steps, single, g);
    DrainedAfter(steps, [single], g, i);
    NothingSkipped(steps[i + 1..], [], g);
    ClausesAfter(steps, [single], g, i);
  }
}
