/**
 What the parser refuses, and what it makes of a key that is written twice.
 */
module Refusals {
  import opened Wrappers
  import opened Values
  import opened Query
  import opened Tokens
  import opened Lexing
  import opened Unparsing
  import opened Parsing
  import opened ExpressionRoundTrip
  import opened PatternRoundTrip
  import opened QueryRoundTrip

  /** A relationship that points both ways is refused, however it is spelled. */
  lemma BothArrowheadsRefused(sp: Spelling, rel: RelPattern, k: Pieces)
    requires RelOk(rel)
    ensures ParseRel(TokensOf(Sign(ArrowLeft, ShowDetail(sp, rel, Sign(ArrowRight, k))))) == Fail(BothArrowheads, TokensOf(k))
  {
    hide TokensOf, ShowDetail, ParseDetail, PropertiesOk;
    PutTokens(Sym(ArrowRight), k);
    ReadDetail(sp, rel, Sign(ArrowRight, k));
    PutTokens(Sym(ArrowLeft), ShowDetail(sp, rel, Sign(ArrowRight, k)));
  }

  /** So is a hop range whose end is below its start. */
  lemma EmptyRangeRefused(sp: Spelling, rel: RelPattern, k: Pieces)
    requires DetailOk(rel) && rel.maxHops.Some? && rel.maxHops.value < AtLeast(rel)
    ensures ParseRel(TokensOf(ShowRel(sp, rel, k))) == Fail(InvalidHopRange, TokensOf(k))
  {
    hide TokensOf, ShowDetail, ParseDetail, PropertiesOk;
    var right := Sign(if rel.direction.Outgoing? then ArrowRight else Dash, k);
    PutTokens(Sym(if rel.direction.Outgoing? then ArrowRight else Dash), k);
    ReadDetail(sp, rel, right);
    PutTokens(Sym(if rel.direction.Incoming? then ArrowLeft else Dash), ShowDetail(sp, rel, right));
  }

  /** CREATE and MERGE refuse a path whose relationships have properties. */
  lemma RelPropertiesRefused(sp: Spelling, path: PatternPath, k: Pieces)
    requires PathOk(path) && PathEnds(TokensOf(k)) && HasRelProps(path)
    ensures ParseWritePath(TokensOf(ShowPath(sp, path, k))) == Fail(RelPropsNotAllowed, TokensOf(k))
  {
    hide TokensOf, ShowPath, ParsePath, PathOk, HasRelProps, RereadPath;
    ReadPath(sp, path, k);
    RereadProps(path);
  }

  /** A RETURN refuses a WHERE. */
  lemma ReturnWhereRefused(sp: Spelling, p: Projection, k: Pieces)
    requires ProjectionOk(p.(isReturn := false)) && p.isReturn && p.where.Some? && NextClause(TokensOf(k))
    ensures ParseProjection(TokensOf(ShowProjection(sp, p, k))) == Fail(ReturnWhereNotAllowed, TokensOf(Tail(sp, p, k)))
  {
    hide TokensOf, ShowProjection, ShowReturnItems, ParseReturnItems, ReturnItemsOk, OptionalWritable, SortsOk, RereadItems, Ends, Ordered, ShowExpr, HeadIn;
    var q := p.(isReturn := false);
    var items := ShowReturnItems(sp, p.items, Tail(sp, p, k));
    SameTail(sp, p, q, k);
    ProjectionHead(sp, p, k);
    ReadTail(sp, q, k);
    ReadReturnItems(sp, p.items, Tail(sp, p, k));
    ItemsStart(sp, p.items, Tail(sp, p, k));
    SpacedWord(sp, "DISTINCT", items);
    SpacedWord(sp, "WHERE", ShowExpr(sp, p.where.value, OR, Ordered(sp, p, k)));
  }

  lemma SameTail(sp: Spelling, p: Projection, q: Projection, k: Pieces)
    requires q == p.(isReturn := false)
    ensures Tail(sp, q, k) == Tail(sp, p, k) && Ordered(sp, q, k) == Ordered(sp, p, k)
  {
    hide ShowWhere, ShowOrder, ShowOptional;
  }

  /** Nothing may follow a query's RETURN, however it is spelled. */
  lemma NothingAfterReturn(sp: Spelling, parts: seq<QueryPart>, word: string, k: Pieces)
    requires parts != [] && PartsOk(parts) && (forall p :: p in parts ==> PartPathsValid(p))
    requires parts[|parts| - 1].projection.Some? && word in CLAUSE_WORDS
    ensures Parse(TokensOf(ShowParts(sp, parts, Word(sp, word, k)))) == Err(SyntaxError(ExpectedEnd, TokensOf(Word(sp, word, k)).Length()))
  {
    hide *;
    ClauseWordIsNext(sp, parts, word, k);
    ReadParts(sp, parts, Word(sp, word, k));
    LeftOver(TokensOf(ShowParts(sp, parts, Word(sp, word, k))));
  }

  lemma ClauseWordIsNext(sp: Spelling, parts: seq<QueryPart>, word: string, k: Pieces)
    requires parts != [] && parts[|parts| - 1].projection.Some? && word in CLAUSE_WORDS
    ensures QueryEnds(parts, TokensOf(Word(sp, word, k))) && TokensOf(Word(sp, word, k)).Cons?
  {
  }

  lemma LeftOver(toks: TokenList)
    requires ParseParts(toks).Ok? && ParseParts(toks).value.rest.Cons?
    ensures Parse(toks) == Err(SyntaxError(ExpectedEnd, ParseParts(toks).value.rest.Length()))
  {
    hide ParseParts;
  }

  // ---- keys written twice -------------------------------------------------------------------------------------

  /** A key of a map literal that is written again keeps its place and has the new value. */
  lemma {:induction false} RepeatedFieldMeans(fields: seq<Field>, k: nat, e: Expr)
    requires k < |fields| && forall i :: 0 <= i < k ==> fields[i].key != fields[k].key
    ensures SetField(fields, fields[k].key, e) == fields[k := Field(fields[k].key, e)]
  {
    if k > 0 {
      RepeatedFieldMeans(fields[1..], k - 1, e);
      assert fields == [fields[0]] + fields[1..];
    }
  }

  /** A new key comes last. */
  lemma {:induction false} NewFieldIsLast(fields: seq<Field>, key: string, e: Expr)
    requires forall i :: 0 <= i < |fields| ==> fields[i].key != key
    ensures SetField(fields, key, e) == fields + [Field(key, e)]
  {
    if fields != [] {
      NewFieldIsLast(fields[1..], key, e);
      assert fields == [fields[0]] + fields[1..];
    }
  }

  /** The same of the properties of a pattern. */
  lemma {:induction false} RepeatedPropertyMeans(properties: seq<Property>, k: nat, v: Scalar)
    requires k < |properties| && forall i :: 0 <= i < k ==> properties[i].key != properties[k].key
    ensures SetScalar(properties, properties[k].key, v) == properties[k := Property(properties[k].key, v)]
  {
    if k > 0 {
      RepeatedPropertyMeans(properties[1..], k - 1, v);
      assert properties == [properties[0]] + properties[1..];
    }
  }

  lemma {:induction false} NewPropertyIsLast(properties: seq<Property>, key: string, v: Scalar)
    requires forall i :: 0 <= i < |properties| ==> properties[i].key != key
    ensures SetScalar(properties, key, v) == properties + [Property(key, v)]
  {
    if properties != [] {
      NewPropertyIsLast(properties[1..], key, v);
      assert properties == [properties[0]] + properties[1..];
    }
  }
}
