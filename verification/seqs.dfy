/** Filtering and flat-mapping of sequences. */
module Seqs {

  function Filter<T>(s: seq<T>, p: T -> bool): seq<T> {
    if s == [] then []
    else if p(s[0]) then [s[0]] + Filter(s[1..], p)
    else Filter(s[1..], p)
  }

  function FlatMap<S, T>(s: seq<S>, f: S -> seq<T>): seq<T> {
    if s == [] then [] else f(s[0]) + FlatMap(s[1..], f)
  }

  lemma {:induction false} FilterConcat<T>(a: seq<T>, b: seq<T>, p: T -> bool)
    ensures Filter(a + b, p) == Filter(a, p) + Filter(b, p)
  {
    if a == [] {
      assert a + b == b;
    } else {
      FilterConcat(a[1..], b, p);
      assert (a + b)[0] == a[0] && (a + b)[1..] == a[1..] + b;
    }
  }

  lemma {:induction false} FilterMember<T>(s: seq<T>, p: T -> bool, x: T)
    ensures x in Filter(s, p) <==> x in s && p(x)
  {
    if s != [] {
      FilterMember(s[1..], p, x);
      assert s == [s[0]] + s[1..];
    }
  }

  lemma {:induction false} FilterAll<T>(s: seq<T>, p: T -> bool)
    requires forall x :: x in s ==> p(x)
    ensures Filter(s, p) == s
  {
    if s != [] {
      FilterAll(s[1..], p);
      assert s == [s[0]] + s[1..];
    }
  }

  lemma {:induction false} FilterNone<T>(s: seq<T>, p: T -> bool)
    requires forall x :: x in s ==> !p(x)
    ensures Filter(s, p) == []
  {
    if s != [] {
      FilterNone(s[1..], p);
    }
  }

  lemma {:induction false} FilterEqual<T>(s: seq<T>, p: T -> bool, q: T -> bool)
    requires forall x :: x in s ==> p(x) == q(x)
    ensures Filter(s, p) == Filter(s, q)
  {
    if s != [] {
      FilterEqual(s[1..], p, q);
    }
  }

  lemma {:induction false} FilterTwice<T>(s: seq<T>, p: T -> bool, q: T -> bool)
    ensures Filter(Filter(s, p), q) == Filter(Filter(s, q), p)
  {
    if s != [] {
      FilterTwice(s[1..], p, q);
      var h := [s[0]];
      assert forall r: T -> bool :: Filter(h, r) == if r(h[0]) then h else [] by {
        assert h[1..] == [];
      }
      FilterConcat(if p(s[0]) then h else [], Filter(s[1..], p), q);
      FilterConcat(if q(s[0]) then h else [], Filter(s[1..], q), p);
    }
  }

  lemma {:induction false} FlatMapConcat<S, T>(a: seq<S>, b: seq<S>, f: S -> seq<T>)
    ensures FlatMap(a + b, f) == FlatMap(a, f) + FlatMap(b, f)
  {
    if a == [] {
      assert a + b == b;
    } else {
      FlatMapConcat(a[1..], b, f);
      assert (a + b)[0] == a[0] && (a + b)[1..] == a[1..] + b;
    }
  }

  lemma {:induction false} FlatMapEqual<S, T>(s: seq<S>, f: S -> seq<T>, g: S -> seq<T>)
    requires forall x :: x in s ==> f(x) == g(x)
    ensures FlatMap(s, f) == FlatMap(s, g)
  {
    if s != [] {
      FlatMapEqual(s[1..], f, g);
    }
  }

  /** Filtering what is produced: filter every piece. */
  lemma {:induction false} FilterFlatMap<S, T>(s: seq<S>, f: S -> seq<T>, p: T -> bool, g: S -> seq<T>)
    requires forall x :: x in s ==> g(x) == Filter(f(x), p)
    ensures Filter(FlatMap(s, f), p) == FlatMap(s, g)
  {
    if s != [] {
      FilterFlatMap(s[1..], f, p, g);
      FilterConcat(f(s[0]), FlatMap(s[1..], f), p);
    }
  }

  /** Producing from what a filter left: produce nothing from the rest. */
  lemma {:induction false} FlatMapFilter<S, T>(s: seq<S>, p: S -> bool, f: S -> seq<T>, g: S -> seq<T>)
    requires forall x :: x in s ==> g(x) == if p(x) then f(x) else []
    ensures FlatMap(Filter(s, p), f) == FlatMap(s, g)
  {
    if s != [] {
      FlatMapFilter(s[1..], p, f, g);
      if !p(s[0]) {
        assert g(s[0]) == [];
      } else {
        assert Filter(s, p)[0] == s[0] && Filter(s, p)[1..] == Filter(s[1..], p);
      }
    }
  }

  /** A production that only ever sees filtered input, or whose output is filtered afterwards, is the same. */
  lemma FilterCommutes<S, T>(s: seq<S>, p: S -> bool, f: S -> seq<T>, q: T -> bool, g: S -> seq<T>)
    requires forall x :: x in s ==> Filter(f(x), q) == if p(x) then g(x) else []
    ensures Filter(FlatMap(s, f), q) == FlatMap(Filter(s, p), g)
  {
    var h := x => if p(x) then g(x) else [];
    FilterFlatMap(s, f, q, h);
    FlatMapFilter(s, p, g, h);
  }

  lemma {:induction false} FlatMapMember<S, T>(s: seq<S>, f: S -> seq<T>, y: T)
    ensures y in FlatMap(s, f) <==> exists x :: x in s && y in f(x)
  {
    if s != [] {
      FlatMapMember(s[1..], f, y);
      assert s == [s[0]] + s[1..];
      if y in f(s[0]) {
        assert s[0] in s;
      }
      if exists x :: x in s && y in f(x) {
        var x :| x in s && y in f(x);
        assert x == s[0] || x in s[1..];
      }
    }
  }
}
