/**
 Parsing the text of a query.

 `QueryTextReadsBack`: the text of every query with a faithful text is read as that query, reread: expressions as in
 ExpressionRoundTrip, a bounded relationship without a minimum with its default, an empty ORDER BY as none. `UnchangedIff`
 says exactly which queries come back unchanged.
 */
module QueryRoundTrip {
  import opened Wrappers
  import opened Query
  import opened Tokens
  import opened Lexing
  import opened Unparsing
  import opened Parsing
  import opened ExpressionRoundTrip
  import opened PatternRoundTrip
  import opened CleanText

  // ---- queries with a text ------------------------------------------------------------------------------------

  predicate OptionalWritable(e: Option<Expr>) {
    e.Some? ==> Writable(e.value)
  }

  predicate SetItemOk(item: SetItem) {
    item.variable != "" && Writable(item.value) && (item.mode.SetProperty? ==> item.property.Some? && item.property.value != "")
  }

  predicate SetItemsOk(items: seq<SetItem>) {
    forall i :: 0 <= i < |items| ==> SetItemOk(items[i])
  }

  predicate RefsOk(refs: seq<PropertyRef>) {
    forall i :: 0 <= i < |refs| ==> refs[i].variable != "" && refs[i].property != ""
  }

  predicate WritePathsOk(paths: seq<PatternPath>) {
    PathsOk(paths) && NoRelProps(paths)
  }

  predicate ClauseOk(c: Clause) {
    match c
    case Match(paths, where, _) => paths != [] && PathsOk(paths) && OptionalWritable(where)
    case Unwind(expr, variable) => Writable(expr) && variable != ""
    case Create(paths) => paths != [] && WritePathsOk(paths)
    case Merge(pattern, onCreate, onMatch) => PathOk(pattern) && !HasRelProps(pattern) && SetItemsOk(onCreate) && SetItemsOk(onMatch)
    case SetClause(items) => items != [] && SetItemsOk(items)
    case Delete(targets, _) => targets != [] && AllWritable(targets)
    case Remove(refs) => refs != [] && RefsOk(refs)
  }

  predicate ReturnItemsOk(items: seq<ReturnItem>) {
    forall i :: 0 <= i < |items| ==> Writable(items[i].expr) && Named(items[i].alias)
  }

  predicate SortsOk(keys: seq<SortItem>) {
    forall i :: 0 <= i < |keys| ==> Writable(keys[i].expr)
  }

  /** A RETURN has no WHERE. */
  predicate ProjectionOk(p: Projection) {
    && p.items != [] && ReturnItemsOk(p.items)
    && OptionalWritable(p.where) && (p.isReturn ==> p.where.None?)
    && (p.orderBy.Some? ==> SortsOk(p.orderBy.value))
    && OptionalWritable(p.skip) && OptionalWritable(p.limit)
  }

  predicate ClausesOk(clauses: seq<Clause>) {
    forall c :: c in clauses ==> ClauseOk(c)
  }

  predicate EndsInWrite(clauses: seq<Clause>) {
    clauses != [] && clauses[|clauses| - 1].IsWriting()
  }

  /** Parts end in WITH, but the last in RETURN or, after a writing clause, in nothing. */
  predicate PartsOk(parts: seq<QueryPart>)
    decreases |parts|
  {
    && parts != []
    && ClausesOk(parts[0].reading)
    && (parts[0].projection.Some? ==> ProjectionOk(parts[0].projection.value))
    && if |parts| == 1 then (if parts[0].projection.None? then EndsInWrite(parts[0].reading) else parts[0].projection.value.isReturn)
       else parts[0].projection.Some? && !parts[0].projection.value.isReturn && PartsOk(parts[1..])
  }

  // ---- what comes back ----------------------------------------------------------------------------------------

  function RereadOptional(e: Option<Expr>): Option<Expr> {
    if e.None? then None else Some(Reread(e.value))
  }

  function RereadSetItem(item: SetItem): SetItem {
    SetItem(item.variable, if item.mode.SetProperty? then item.property else None, Reread(item.value), item.mode)
  }

  function RereadSetItems(items: seq<SetItem>): (r: seq<SetItem>)
    ensures |r| == |items|
  {
    if items == [] then [] else [RereadSetItem(items[0])] + RereadSetItems(items[1..])
  }

  function RereadClause(c: Clause): (r: Clause)
    ensures ClausePathsValid(c) ==> ClausePathsValid(r)
    ensures r.IsWriting() == c.IsWriting()
  {
    match c
    case Match(paths, where, optional) => Match(RereadPaths(paths), RereadOptional(where), optional)
    case Unwind(expr, variable) => Unwind(Reread(expr), variable)
    case Create(paths) => Create(RereadPaths(paths))
    case Merge(pattern, onCreate, onMatch) => Merge(RereadPath(pattern), RereadSetItems(onCreate), RereadSetItems(onMatch))
    case SetClause(items) => SetClause(RereadSetItems(items))
    case Delete(targets, detach) => Delete(RereadAll(targets), detach)
    case Remove(refs) => c
  }

  function RereadClauses(clauses: seq<Clause>): (r: seq<Clause>)
    ensures |r| == |clauses|
    ensures clauses != [] ==> r[|r| - 1].IsWriting() == clauses[|clauses| - 1].IsWriting()
  {
    if clauses == [] then [] else [RereadClause(clauses[0])] + RereadClauses(clauses[1..])
  }

  function RereadItems(items: seq<ReturnItem>): (r: seq<ReturnItem>)
    ensures |r| == |items|
  {
    if items == [] then [] else [ReturnItem(Reread(items[0].expr), items[0].alias)] + RereadItems(items[1..])
  }

  function RereadSorts(keys: seq<SortItem>): (r: seq<SortItem>)
    ensures |r| == |keys|
  {
    if keys == [] then [] else [SortItem(Reread(keys[0].expr), keys[0].descending)] + RereadSorts(keys[1..])
  }

  function RereadProjection(p: Projection): Projection {
    Projection(RereadItems(p.items), p.distinct,
               if p.orderBy.None? || p.orderBy.value == [] then None else Some(RereadSorts(p.orderBy.value)),
               RereadOptional(p.skip), RereadOptional(p.limit), p.isReturn, RereadOptional(p.where))
  }

  function RereadPart(part: QueryPart): QueryPart {
    QueryPart(RereadClauses(part.reading), if part.projection.None? then None else Some(RereadProjection(part.projection.value)))
  }

  function RereadParts(parts: seq<QueryPart>): (r: seq<QueryPart>)
    ensures |r| == |parts|
  {
    if parts == [] then [] else [RereadPart(parts[0])] + RereadParts(parts[1..])
  }

  // ---- what follows -------------------------------------------------------------------------------------------

  const CLAUSE_WORDS := {"MATCH", "OPTIONAL", "UNWIND", "CREATE", "MERGE", "SET", "DELETE", "DETACH", "REMOVE", "RETURN", "WITH"}

  /** The end of the text or one of these words. */
  predicate HeadIn(words: set<string>, toks: TokenList) {
    toks.Nil? || (toks.head.Keyword? && toks.head.text in words)
  }

  /** The end of the text or the word a clause starts with. */
  predicate NextClause(toks: TokenList) {
    HeadIn(CLAUSE_WORDS, toks)
  }

  const SLICE_WORDS := CLAUSE_WORDS + {"SKIP", "LIMIT"}
  const TAIL_WORDS := SLICE_WORDS + {"WHERE", "ORDER"}

  lemma WordsEnd(words: set<string>, toks: TokenList)
    requires HeadIn(words, toks) && words !! {"OR", "AND", "IS", "IN"}
    ensures Ends(toks) && PathEnds(toks) && !At(toks, Comma) && !AtIdentifier(toks)
    ensures forall w :: w !in words ==> !AtWord(toks, w)
  {
  }

  lemma OnEnds(toks: TokenList)
    requires AtIdentifier(toks)
    ensures Ends(toks) && PathEnds(toks) && !At(toks, Comma)
  {
  }

  // ---- clauses ------------------------------------------------------------------------------------------------

  lemma ReadOptional(sp: Spelling, word: string, e: Option<Expr>, k: Pieces)
    requires OptionalWritable(e) && Ends(TokensOf(k)) && !AtWord(TokensOf(k), word)
    ensures ParseOptional(word, TokensOf(ShowOptional(sp, word, e, k))) == Ok(Parsed(RereadOptional(e), TokensOf(k)))
    ensures e.Some? ==> TokensOf(ShowOptional(sp, word, e, k)).Cons? && TokensOf(ShowOptional(sp, word, e, k)).head == Keyword(word, sp.word(word))
    ensures ShowWhere(sp, e, k) == ShowOptional(sp, "WHERE", e, k)
  {
    hide TokensOf, ParseAt, ShowExpr, Reread, Writable, Ends;
    if e.Some? {
      SpacedWord(sp, word, ShowExpr(sp, e.value, OR, k));
      ReadWhole(sp, e.value, OR, k);
    }
  }

  /** Its first token: the word when there is an expression. */
  lemma OptionalHead(sp: Spelling, word: string, e: Option<Expr>, k: Pieces, words: set<string>)
    requires HeadIn(words, TokensOf(k))
    ensures HeadIn(words + {word}, TokensOf(ShowOptional(sp, word, e, k)))
  {
    hide TokensOf, ShowExpr;
    if e.Some? {
      SpacedWord(sp, word, ShowExpr(sp, e.value, OR, k));
    }
  }

  lemma ReadMatch(sp: Spelling, c: Clause, k: Pieces)
    requires c.Match? && ClauseOk(c) && ClausePathsValid(c) && NextClause(TokensOf(k))
    ensures ParseMatch(TokensOf(ShowClause(sp, c, k))) == Ok(Parsed(RereadClause(c), TokensOf(k)))
  {
    hide TokensOf, ShowPaths, ParsePaths, ParseOptional, RereadPaths, Ends, PathOk, Writable, RereadOptional, HeadIn, ShowExpr;
    var tail := ShowWhere(sp, c.where, k);
    WordsEnd(CLAUSE_WORDS, TokensOf(k));
    ReadOptional(sp, "WHERE", c.where, k);
    OptionalHead(sp, "WHERE", c.where, k, CLAUSE_WORDS);
    WordsEnd(CLAUSE_WORDS + {"WHERE"}, TokensOf(tail));
    ReadPaths(sp, false, c.paths, tail);
    var text := Word(sp, "MATCH", Gap(ShowPaths(sp, c.paths, tail)));
    SpacedWord(sp, "MATCH", ShowPaths(sp, c.paths, tail));
    SpacedWord(sp, "OPTIONAL", text);
  }

  lemma ReadUnwind(sp: Spelling, c: Clause, k: Pieces)
    requires c.Unwind? && ClauseOk(c)
    ensures ParseUnwind(TokensOf(ShowClause(sp, c, k))) == Ok(Parsed(RereadClause(c), TokensOf(k)))
  {
    hide TokensOf, ParseAt, ShowExpr, Reread, Writable, Ends;
    var named := Gap(Word(sp, "AS", Gap(Ident(c.variable, k))));
    PutTokens(Identifier(c.variable), k);
    SpacedWord(sp, "AS", Ident(c.variable, k));
    WordsEnd({"AS"}, TokensOf(named));
    ReadWhole(sp, c.expr, OR, named);
    SpacedWord(sp, "UNWIND", ShowExpr(sp, c.expr, OR, named));
  }

  lemma ReadSetItem(sp: Spelling, item: SetItem, k: Pieces)
    requires SetItemOk(item) && Ends(TokensOf(k))
    ensures ParseSetItem(TokensOf(ShowSetItem(sp, item, k))) == Ok(Parsed(RereadSetItem(item), TokensOf(k)))
    ensures AtIdentifier(TokensOf(ShowSetItem(sp, item, k)))
  {
    hide TokensOf, ParseAt, ShowExpr, Reread, Writable, Ends, Name, ExpectName;
    var e := ShowExpr(sp, item.value, OR, k);
    ReadWhole(sp, item.value, OR, k);
    SpacedSign(PlusEq, e);
    SpacedSign(EqSign, e);
    if item.mode.SetProperty? {
      var property := item.property.value;
      var rest := Name(property, Gap(Sign(EqSign, Gap(e))));
      NameReadsBack(property, Gap(Sign(EqSign, Gap(e))));
      PutTokens(Sym(Dot), rest);
      PutTokens(Identifier(item.variable), Sign(Dot, rest));
    } else {
      PutTokens(Identifier(item.variable), Gap(Sign(PlusEq, Gap(e))));
      PutTokens(Identifier(item.variable), Gap(Sign(EqSign, Gap(e))));
    }
  }

  lemma {:induction false} ReadSetItems(sp: Spelling, items: seq<SetItem>, k: Pieces)
    requires items != [] && SetItemsOk(items) && Ends(TokensOf(k)) && !At(TokensOf(k), Comma)
    ensures ParseSetItems(TokensOf(ShowSetItems(sp, items, k))) == Ok(Parsed(RereadSetItems(items), TokensOf(k)))
    decreases |items|
  {
    hide TokensOf, ShowSetItem, ParseSetItem, SetItemOk, RereadSetItem, Ends;
    if |items| == 1 {
      ReadSetItem(sp, items[0], k);
      assert RereadSetItems(items) == [RereadSetItem(items[0])] + RereadSetItems(items[1..]) == [RereadSetItem(items[0])];
    } else {
      var more := ShowSetItems(sp, items[1..], k);
      ClosingSign(Comma, Gap(more));
      PutTokens(Sym(Comma), more);
      ReadSetItem(sp, items[0], Sign(Comma, Gap(more)));
      ReadSetItems(sp, items[1..], k);
    }
  }

  lemma ReadSetWords(sp: Spelling, items: seq<SetItem>, k: Pieces)
    requires items != [] && SetItemsOk(items) && Ends(TokensOf(k)) && !At(TokensOf(k), Comma)
    ensures ParseSetWords(TokensOf(Word(sp, "SET", Gap(ShowSetItems(sp, items, k))))) == Ok(Parsed(RereadSetItems(items), TokensOf(k)))
    ensures AtWord(TokensOf(Word(sp, "SET", Gap(ShowSetItems(sp, items, k)))), "SET")
  {
    hide TokensOf, ShowSetItems, ParseSetItems, SetItemsOk, RereadSetItems, Ends;
    SpacedWord(sp, "SET", ShowSetItems(sp, items, k));
    ReadSetItems(sp, items, k);
  }

  /** After a MERGE's path or actions: another ON or the next clause. */
  predicate AfterMerge(toks: TokenList) {
    AtOn(toks) || NextClause(toks)
  }

  lemma MergeEnds(toks: TokenList)
    requires AfterMerge(toks)
    ensures Ends(toks) && PathEnds(toks) && !At(toks, Comma)
  {
    hide HeadIn, Ends;
    if AtOn(toks) {
      OnEnds(toks);
    } else {
      WordsEnd(CLAUSE_WORDS, toks);
    }
  }

  lemma OnTokens(sp: Spelling, word: string, items: seq<SetItem>, k: Pieces)
    requires items != []
    ensures TokensOf(ShowOneOn(sp, word, items, k))
         == Cons(Identifier(sp.on), Cons(Keyword(word, sp.word(word)), TokensOf(Word(sp, "SET", Gap(ShowSetItems(sp, items, k))))))
    ensures AtOn(TokensOf(ShowOneOn(sp, word, items, k)))
  {
    hide TokensOf, ShowSetItems;
    var rest := Word(sp, "SET", Gap(ShowSetItems(sp, items, k)));
    SpacedWord(sp, word, rest);
    PutTokens(Identifier(sp.on), Gap(Word(sp, word, Gap(rest))));
    PutTokens(Identifier(sp.on), Ident(sp.on, Gap(Word(sp, word, Gap(rest)))));
  }

  lemma OnHead(sp: Spelling, word: string, items: seq<SetItem>, k: Pieces)
    requires AfterMerge(TokensOf(k))
    ensures AfterMerge(TokensOf(ShowOn(sp, word, items, k)))
  {
    hide TokensOf, ShowSetItems, ShowOneOn;
    if items != [] {
      OnTokens(sp, word, items, k);
      OnTokens(sp, word, [items[0]], ShowOn(sp, word, items[1..], k));
    }
  }

  function WithActions(actions: OnActions, word: string, items: seq<SetItem>): OnActions {
    if word == "CREATE" then actions.(onCreate := actions.onCreate + RereadSetItems(items))
    else actions.(onMatch := actions.onMatch + RereadSetItems(items))
  }

  lemma ReadOneOn(sp: Spelling, word: string, items: seq<SetItem>, actions: OnActions, k: Pieces)
    requires word == "CREATE" || word == "MATCH"
    requires items != [] && SetItemsOk(items) && AfterMerge(TokensOf(k))
    ensures ParseOns(actions, TokensOf(ShowOneOn(sp, word, items, k))) == ParseOns(WithActions(actions, word, items), TokensOf(k))
  {
    hide TokensOf, ShowSetItems, ParseSetWords, SetItemsOk, AtOn, Ends, HeadIn, ShowOneOn, RereadSetItems;
    MergeEnds(TokensOf(k));
    OnTokens(sp, word, items, k);
    ReadSetWords(sp, items, k);
  }

  lemma {:induction false} ReadOn(sp: Spelling, word: string, items: seq<SetItem>, actions: OnActions, k: Pieces)
    requires word == "CREATE" || word == "MATCH"
    requires SetItemsOk(items) && AfterMerge(TokensOf(k))
    ensures ParseOns(actions, TokensOf(ShowOn(sp, word, items, k))) == ParseOns(WithActions(actions, word, items), TokensOf(k))
    decreases |items|
  {
    hide TokensOf, ParseOns, SetItemOk, AtOn, Ends, HeadIn, ShowOneOn, RereadSetItem;
    if items == [] {
      assert actions.onCreate + [] == actions.onCreate && actions.onMatch + [] == actions.onMatch;
    } else if sp.singly(items) {
      var first, rest := [items[0]], ShowOn(sp, word, items[1..], k);
      OnHead(sp, word, items[1..], k);
      ReadOneOn(sp, word, first, actions, rest);
      ReadOn(sp, word, items[1..], WithActions(actions, word, first), k);
      FirstAction(actions, word, items);
    } else {
      ReadOneOn(sp, word, items, actions, k);
    }
  }

  lemma FirstAction(actions: OnActions, word: string, items: seq<SetItem>)
    requires items != []
    ensures WithActions(WithActions(actions, word, [items[0]]), word, items[1..]) == WithActions(actions, word, items)
  {
    assert [items[0]][1..] == [];
    assert RereadSetItems([items[0]]) == [RereadSetItem(items[0])];
    assert RereadSetItems(items) == RereadSetItems([items[0]]) + RereadSetItems(items[1..]);
    var a, b := actions.onCreate, actions.onMatch;
    assert a + RereadSetItems([items[0]]) + RereadSetItems(items[1..]) == a + RereadSetItems(items);
    assert b + RereadSetItems([items[0]]) + RereadSetItems(items[1..]) == b + RereadSetItems(items);
  }

  /** The actions of a MERGE, in either order. */
  lemma ReadOns(sp: Spelling, c: Clause, k: Pieces)
    requires c.Merge? && SetItemsOk(c.onCreate) && SetItemsOk(c.onMatch) && NextClause(TokensOf(k))
    ensures AfterMerge(TokensOf(ShowOns(sp, c, k)))
    ensures ParseOns(OnActions([], []), TokensOf(ShowOns(sp, c, k))) == Ok(Parsed(OnActions(RereadSetItems(c.onCreate), RereadSetItems(c.onMatch)), TokensOf(k)))
  {
    hide TokensOf, ShowOn, ParseOns, SetItemsOk, RereadSetItems, HeadIn;
    var first, second := if sp.matchFirst(c) then "MATCH" else "CREATE", if sp.matchFirst(c) then "CREATE" else "MATCH";
    var items, others := if sp.matchFirst(c) then c.onMatch else c.onCreate, if sp.matchFirst(c) then c.onCreate else c.onMatch;
    OnHead(sp, second, others, k);
    OnHead(sp, first, items, ShowOn(sp, second, others, k));
    var none := OnActions([], []);
    ReadOn(sp, first, items, none, ShowOn(sp, second, others, k));
    ReadOn(sp, second, others, WithActions(none, first, items), k);
    var all := OnActions(RereadSetItems(c.onCreate), RereadSetItems(c.onMatch));
    assert [] + RereadSetItems(c.onCreate) == RereadSetItems(c.onCreate) && [] + RereadSetItems(c.onMatch) == RereadSetItems(c.onMatch);
    assert WithActions(WithActions(none, first, items), second, others) == all;
    NoMoreOns(all, TokensOf(k));
  }

  lemma ReadMerge(sp: Spelling, c: Clause, k: Pieces)
    requires c.Merge? && ClauseOk(c) && ClausePathsValid(c) && NextClause(TokensOf(k))
    ensures ParseMerge(TokensOf(ShowClause(sp, c, k))) == Ok(Parsed(RereadClause(c), TokensOf(k)))
  {
    hide TokensOf, ShowPath, ParsePath, ShowOns, ParseOns, PathOk, SetItemsOk, RereadPath, RereadSetItems, HeadIn, Ends, HasRelProps;
    var ons := ShowOns(sp, c, k);
    ReadOns(sp, c, k);
    MergeEnds(TokensOf(ons));
    RereadProps(c.pattern);
    ReadPath(sp, c.pattern, ons);
    SpacedWord(sp, "MERGE", ShowPath(sp, c.pattern, ons));
  }

  lemma NoMoreOns(actions: OnActions, toks: TokenList)
    requires NextClause(toks)
    ensures ParseOns(actions, toks) == Ok(Parsed(actions, toks))
  {
  }

  lemma {:induction false} ReadRefs(sp: Spelling, refs: seq<PropertyRef>, k: Pieces)
    requires refs != [] && RefsOk(refs) && !At(TokensOf(k), Comma)
    ensures ParseRefs(TokensOf(ShowRefs(sp, refs, k))) == Ok(Parsed(refs, TokensOf(k)))
    decreases |refs|
  {
    hide TokensOf, Name, ExpectName;
    var tail := if |refs| == 1 then k else Sign(Comma, Gap(ShowRefs(sp, refs[1..], k)));
    var name := Name(refs[0].property, tail);
    PutTokens(Identifier(refs[0].variable), Sign(Dot, name));
    PutTokens(Sym(Dot), name);
    NameReadsBack(refs[0].property, tail);
    if |refs| == 1 {
      assert refs == [PropertyRef(refs[0].variable, refs[0].property)];
    } else {
      PutTokens(Sym(Comma), Gap(ShowRefs(sp, refs[1..], k)));
      PutTokens(Sym(Comma), ShowRefs(sp, refs[1..], k));
      ReadRefs(sp, refs[1..], k);
      assert refs == [PropertyRef(refs[0].variable, refs[0].property)] + refs[1..];
    }
  }

  lemma ReadDelete(sp: Spelling, c: Clause, k: Pieces)
    requires c.Delete? && ClauseOk(c) && NextClause(TokensOf(k))
    ensures ParseDelete(TokensOf(ShowClause(sp, c, k))) == Ok(Parsed(RereadClause(c), TokensOf(k)))
  {
    hide TokensOf, ShowExprs, ParseExprs, AllWritable, RereadAll, HeadIn, Ends;
    WordsEnd(CLAUSE_WORDS, TokensOf(k));
    ReadExprs(sp, c.targets, k);
    var text := Word(sp, "DELETE", Gap(ShowExprs(sp, c.targets, k)));
    SpacedWord(sp, "DELETE", ShowExprs(sp, c.targets, k));
    SpacedWord(sp, "DETACH", text);
  }

  function FirstWord(c: Clause): string {
    match c
    case Match(_, _, optional) => if optional then "OPTIONAL" else "MATCH"
    case Unwind(_, _) => "UNWIND"
    case Create(_) => "CREATE"
    case Merge(_, _, _) => "MERGE"
    case SetClause(_) => "SET"
    case Delete(_, detach) => if detach then "DETACH" else "DELETE"
    case Remove(_) => "REMOVE"
  }

  lemma ClauseStarts(sp: Spelling, c: Clause, k: Pieces)
    requires ClausePathsValid(c)
    ensures TokensOf(ShowClause(sp, c, k)).Cons? && TokensOf(ShowClause(sp, c, k)).head == Keyword(FirstWord(c), sp.word(FirstWord(c)))
  {
    hide ShowPaths, ShowPath, ShowExpr, ShowExprs, ShowSetItems, ShowOn, ShowRefs, ShowWhere;
  }

  lemma ReadSimple(sp: Spelling, c: Clause, k: Pieces)
    requires (c.Create? || c.SetClause? || c.Remove?) && ClauseOk(c) && ClausePathsValid(c) && NextClause(TokensOf(k))
    ensures c.Create? ==> ParseCreate(TokensOf(ShowClause(sp, c, k))) == Ok(Parsed(RereadClause(c), TokensOf(k)))
    ensures c.SetClause? ==> ParseSet(TokensOf(ShowClause(sp, c, k))) == Ok(Parsed(RereadClause(c), TokensOf(k)))
    ensures c.Remove? ==> ParseRemove(TokensOf(ShowClause(sp, c, k))) == Ok(Parsed(RereadClause(c), TokensOf(k)))
  {
    hide TokensOf, ShowPaths, ParsePaths, ShowSetItems, ParseSetWords, ShowRefs, ParseRefs, RereadPaths, RereadSetItems, HeadIn, Ends,
      PathsOk, SetItemsOk, RefsOk, NoRelProps;
    WordsEnd(CLAUSE_WORDS, TokensOf(k));
    match c {
      case Create(paths) =>
        ReadPaths(sp, true, paths, k);
        SpacedWord(sp, "CREATE", ShowPaths(sp, paths, k));
      case SetClause(items) => ReadSetWords(sp, items, k);
      case Remove(refs) =>
        ReadRefs(sp, refs, k);
        SpacedWord(sp, "REMOVE", ShowRefs(sp, refs, k));
    }
  }

  lemma ReadClause(sp: Spelling, c: Clause, k: Pieces)
    requires ClauseOk(c) && ClausePathsValid(c) && NextClause(TokensOf(k))
    ensures ParseClause(TokensOf(ShowClause(sp, c, k))) == Some(Ok(Parsed(RereadClause(c), TokensOf(k))))
  {
    hide TokensOf, ShowClause, ClauseOk, RereadClause, HeadIn, ParseMatch, ParseUnwind, ParseCreate, ParseMerge, ParseSet, ParseDelete, ParseRemove;
    ClauseStarts(sp, c, k);
    match c
    case Match(_, _, _) => ReadMatch(sp, c, k);
    case Unwind(_, _) => ReadUnwind(sp, c, k);
    case Create(_) => ReadSimple(sp, c, k);
    case Merge(_, _, _) => ReadMerge(sp, c, k);
    case SetClause(_) => ReadSimple(sp, c, k);
    case Delete(_, _) => ReadDelete(sp, c, k);
    case Remove(_) => ReadSimple(sp, c, k);
  }

  // ---- projections --------------------------------------------------------------------------------------------

  lemma ReadReturnItem(sp: Spelling, item: ReturnItem, k: Pieces)
    requires Writable(item.expr) && Named(item.alias) && Ends(TokensOf(k)) && !AtWord(TokensOf(k), "AS")
    ensures ParseReturnItem(TokensOf(ShowReturnItem(sp, item, k))) == Ok(Parsed(ReturnItem(Reread(item.expr), item.alias), TokensOf(k)))
  {
    hide TokensOf, ParseAt, ShowExpr, Reread, Writable, Ends;
    if item.alias.None? {
      ReadWhole(sp, item.expr, OR, k);
    } else {
      var named := Gap(Word(sp, "AS", Gap(Ident(item.alias.value, k))));
      PutTokens(Identifier(item.alias.value), k);
      SpacedWord(sp, "AS", Ident(item.alias.value, k));
      WordsEnd({"AS"}, TokensOf(named));
      ReadWhole(sp, item.expr, OR, named);
    }
  }

  lemma {:induction false} ReadReturnItems(sp: Spelling, items: seq<ReturnItem>, k: Pieces)
    requires items != [] && ReturnItemsOk(items) && Ends(TokensOf(k)) && !At(TokensOf(k), Comma) && !AtWord(TokensOf(k), "AS")
    ensures ParseReturnItems(TokensOf(ShowReturnItems(sp, items, k))) == Ok(Parsed(RereadItems(items), TokensOf(k)))
    decreases |items|
  {
    hide TokensOf, ShowReturnItem, ParseReturnItem, Reread, Writable, Ends;
    if |items| == 1 {
      ReadReturnItem(sp, items[0], k);
      assert RereadItems(items) == [ReturnItem(Reread(items[0].expr), items[0].alias)] + RereadItems(items[1..])
          == [ReturnItem(Reread(items[0].expr), items[0].alias)];
    } else {
      var more := ShowReturnItems(sp, items[1..], k);
      ClosingSign(Comma, Gap(more));
      PutTokens(Sym(Comma), more);
      ReadReturnItem(sp, items[0], Sign(Comma, Gap(more)));
      ReadReturnItems(sp, items[1..], k);
    }
  }

  lemma ReadSort(sp: Spelling, item: SortItem, k: Pieces)
    requires Writable(item.expr) && Ends(TokensOf(k)) && !AtWord(TokensOf(k), "ASC") && !AtWord(TokensOf(k), "DESC")
    ensures Parsing.ParseSort(TokensOf(ShowSort(sp, item, k))) == Ok(Parsed(SortItem(Reread(item.expr), item.descending), TokensOf(k)))
  {
    hide TokensOf, ParseAt, ShowExpr, Reread, Writable, Ends;
    if item.descending || sp.asc(item) {
      var word := if item.descending then "DESC" else "ASC";
      var tail := Gap(Word(sp, word, k));
      PutTokens(Keyword(word, sp.word(word)), k);
      PutTokens(Keyword(word, sp.word(word)), Word(sp, word, k));
      WordsEnd({word}, TokensOf(tail));
      ReadWhole(sp, item.expr, OR, tail);
    } else {
      ReadWhole(sp, item.expr, OR, k);
    }
  }

  lemma {:induction false} ReadSorts(sp: Spelling, keys: seq<SortItem>, k: Pieces)
    requires keys != [] && SortsOk(keys) && Ends(TokensOf(k)) && !At(TokensOf(k), Comma)
    requires !AtWord(TokensOf(k), "ASC") && !AtWord(TokensOf(k), "DESC")
    ensures ParseSorts(TokensOf(ShowSorts(sp, keys, k))) == Ok(Parsed(RereadSorts(keys), TokensOf(k)))
    decreases |keys|
  {
    hide TokensOf, ShowSort, ParseSort, Reread, Writable, Ends;
    if |keys| == 1 {
      ReadSort(sp, keys[0], k);
      assert RereadSorts(keys) == [SortItem(Reread(keys[0].expr), keys[0].descending)] + RereadSorts(keys[1..])
          == [SortItem(Reread(keys[0].expr), keys[0].descending)];
    } else {
      var more := ShowSorts(sp, keys[1..], k);
      ClosingSign(Comma, Gap(more));
      PutTokens(Sym(Comma), more);
      ReadSort(sp, keys[0], Sign(Comma, Gap(more)));
      ReadSorts(sp, keys[1..], k);
    }
  }

  lemma ReadOrder(sp: Spelling, orderBy: Option<seq<SortItem>>, k: Pieces)
    requires orderBy.Some? ==> SortsOk(orderBy.value)
    requires HeadIn(SLICE_WORDS, TokensOf(k))
    ensures ParseOrder(TokensOf(ShowOrder(sp, orderBy, k)))
         == Ok(Parsed(if orderBy.None? || orderBy.value == [] then None else Some(RereadSorts(orderBy.value)), TokensOf(k)))
    ensures HeadIn(SLICE_WORDS + {"ORDER"}, TokensOf(ShowOrder(sp, orderBy, k)))
  {
    hide TokensOf, ShowSorts, ParseSorts, SortsOk, RereadSorts, Ends;
    WordsEnd(SLICE_WORDS, TokensOf(k));
    if orderBy.Some? && orderBy.value != [] {
      ReadSorts(sp, orderBy.value, k);
      SpacedWord(sp, "BY", ShowSorts(sp, orderBy.value, k));
      SpacedWord(sp, "ORDER", Word(sp, "BY", Gap(ShowSorts(sp, orderBy.value, k))));
    }
  }

  /** The clauses after the items, by name. */
  function Limited(sp: Spelling, p: Projection, k: Pieces): Pieces {
    ShowOptional(sp, "LIMIT", p.limit, k)
  }

  function Sliced(sp: Spelling, p: Projection, k: Pieces): Pieces {
    ShowOptional(sp, "SKIP", p.skip, Limited(sp, p, k))
  }

  function Ordered(sp: Spelling, p: Projection, k: Pieces): Pieces {
    ShowOrder(sp, p.orderBy, Sliced(sp, p, k))
  }

  function Tail(sp: Spelling, p: Projection, k: Pieces): Pieces {
    ShowWhere(sp, p.where, Ordered(sp, p, k))
  }

  lemma TailHeads(sp: Spelling, p: Projection, k: Pieces)
    requires ProjectionOk(p) && NextClause(TokensOf(k))
    ensures HeadIn(CLAUSE_WORDS + {"LIMIT"}, TokensOf(Limited(sp, p, k)))
    ensures HeadIn(SLICE_WORDS, TokensOf(Sliced(sp, p, k)))
    ensures HeadIn(SLICE_WORDS + {"ORDER"}, TokensOf(Ordered(sp, p, k)))
    ensures HeadIn(if p.where.None? then SLICE_WORDS + {"ORDER"} else TAIL_WORDS, TokensOf(Tail(sp, p, k)))
  {
    hide TokensOf, ShowOptional, ShowOrder, HeadIn, ReturnItemsOk, OptionalWritable, ShowExpr;
    OptionalHead(sp, "LIMIT", p.limit, k, CLAUSE_WORDS);
    OptionalHead(sp, "SKIP", p.skip, Limited(sp, p, k), CLAUSE_WORDS + {"LIMIT"});
    assert CLAUSE_WORDS + {"LIMIT"} + {"SKIP"} == SLICE_WORDS;
    ReadOrder(sp, p.orderBy, Sliced(sp, p, k));
    if p.where.Some? {
      OptionalHead(sp, "WHERE", p.where, Ordered(sp, p, k), SLICE_WORDS + {"ORDER"});
      WhereIsOptional(sp, p.where, Ordered(sp, p, k));
      assert SLICE_WORDS + {"ORDER"} + {"WHERE"} == TAIL_WORDS;
    }
  }

  lemma WhereIsOptional(sp: Spelling, e: Option<Expr>, k: Pieces)
    ensures ShowWhere(sp, e, k) == ShowOptional(sp, "WHERE", e, k)
  {
  }

  lemma ReadSlice(sp: Spelling, p: Projection, k: Pieces)
    requires ProjectionOk(p) && NextClause(TokensOf(k))
    ensures ParseOptional("LIMIT", TokensOf(Limited(sp, p, k))) == Ok(Parsed(RereadOptional(p.limit), TokensOf(k)))
    ensures ParseOptional("SKIP", TokensOf(Sliced(sp, p, k))) == Ok(Parsed(RereadOptional(p.skip), TokensOf(Limited(sp, p, k))))
  {
    hide TokensOf, ShowOptional, ParseOptional, HeadIn, ReturnItemsOk, RereadOptional, Ends, Writable, SortsOk;
    TailHeads(sp, p, k);
    WordsEnd(CLAUSE_WORDS, TokensOf(k));
    WordsEnd(CLAUSE_WORDS + {"LIMIT"}, TokensOf(Limited(sp, p, k)));
    ReadOptional(sp, "LIMIT", p.limit, k);
    ReadOptional(sp, "SKIP", p.skip, Limited(sp, p, k));
  }

  lemma ReadOrdered(sp: Spelling, p: Projection, k: Pieces)
    requires ProjectionOk(p) && NextClause(TokensOf(k))
    ensures ParseOrder(TokensOf(Ordered(sp, p, k))) == Ok(Parsed(RereadProjection(p).orderBy, TokensOf(Sliced(sp, p, k))))
  {
    hide TokensOf, ShowOrder, ParseOrder, HeadIn, ReturnItemsOk, RereadOptional, SortsOk, RereadItems, RereadSorts, OptionalWritable, Sliced;
    TailHeads(sp, p, k);
    ReadOrder(sp, p.orderBy, Sliced(sp, p, k));
  }

  lemma ReadTail(sp: Spelling, p: Projection, k: Pieces)
    requires ProjectionOk(p) && NextClause(TokensOf(k))
    ensures ParseProjectionWhere(p.isReturn, TokensOf(Tail(sp, p, k))) == Ok(Parsed(RereadOptional(p.where), TokensOf(Ordered(sp, p, k))))
    ensures Ends(TokensOf(Tail(sp, p, k))) && !At(TokensOf(Tail(sp, p, k)), Comma) && !AtWord(TokensOf(Tail(sp, p, k)), "AS")
  {
    hide TokensOf, ShowOptional, ShowWhere, ShowOrder, ParseOptional, HeadIn, ReturnItemsOk, RereadOptional, Ends, Writable, SortsOk, Ordered;
    TailHeads(sp, p, k);
    WordsEnd(SLICE_WORDS + {"ORDER"}, TokensOf(Ordered(sp, p, k)));
    WordsEnd(if p.where.None? then SLICE_WORDS + {"ORDER"} else TAIL_WORDS, TokensOf(Tail(sp, p, k)));
    ReadOptional(sp, "WHERE", p.where, Ordered(sp, p, k));
  }

  lemma ItemsStart(sp: Spelling, items: seq<ReturnItem>, k: Pieces)
    requires items != [] && ReturnItemsOk(items)
    ensures !AtWord(TokensOf(ShowReturnItems(sp, items, k)), "DISTINCT")
  {
    hide TokensOf, ShowExpr, Writable;
    var tail := if |items| == 1 then k else Sign(Comma, Gap(ShowReturnItems(sp, items[1..], k)));
    ExprStarts(sp, items[0].expr, OR, if items[0].alias.None? then tail else Gap(Word(sp, "AS", Gap(Ident(items[0].alias.value, tail)))));
  }

  lemma ProjectionHead(sp: Spelling, p: Projection, k: Pieces)
    ensures var word := if p.isReturn then "RETURN" else "WITH"; var items := ShowReturnItems(sp, p.items, Tail(sp, p, k));
            TokensOf(ShowProjection(sp, p, k)) == Cons(Keyword(word, sp.word(word)), TokensOf(if p.distinct then Word(sp, "DISTINCT", Gap(items)) else items))
  {
    hide TokensOf, ShowReturnItems, ShowOptional, ShowWhere, ShowOrder;
    var items := ShowReturnItems(sp, p.items, Tail(sp, p, k));
    SpacedWord(sp, "DISTINCT", items);
    SpacedWord(sp, if p.isReturn then "RETURN" else "WITH", items);
    SpacedWord(sp, if p.isReturn then "RETURN" else "WITH", Word(sp, "DISTINCT", Gap(items)));
  }

  lemma ProjectionStarts(sp: Spelling, p: Projection, k: Pieces)
    ensures AtProjection(TokensOf(ShowProjection(sp, p, k))) && NextClause(TokensOf(ShowProjection(sp, p, k)))
    ensures ParseClause(TokensOf(ShowProjection(sp, p, k))) == None
  {
    hide ShowProjection, ShowReturnItems, Tail, ParseMatch, ParseUnwind, ParseCreate, ParseMerge, ParseSet, ParseDelete, ParseRemove, TokensOf;
    ProjectionHead(sp, p, k);
  }

  lemma ReadProjection(sp: Spelling, p: Projection, k: Pieces)
    requires ProjectionOk(p) && NextClause(TokensOf(k))
    ensures ParseProjection(TokensOf(ShowProjection(sp, p, k))) == Ok(Parsed(RereadProjection(p), TokensOf(k)))
    ensures AtProjection(TokensOf(ShowProjection(sp, p, k))) && NextClause(TokensOf(ShowProjection(sp, p, k)))
    ensures ParseClause(TokensOf(ShowProjection(sp, p, k))) == None
  {
    hide TokensOf, ShowProjection, ShowReturnItems, ParseReturnItems, ParseOptional, ParseOrder, ParseProjectionWhere, ReturnItemsOk,
      RereadOptional, RereadItems, RereadSorts, Ends, Writable, SortsOk, OptionalWritable, Tail, Ordered, Sliced, Limited, ParseClause;
    var items := ShowReturnItems(sp, p.items, Tail(sp, p, k));
    ProjectionStarts(sp, p, k);
    ProjectionHead(sp, p, k);
    ReadTail(sp, p, k);
    ReadOrdered(sp, p, k);
    ReadSlice(sp, p, k);
    ReadReturnItems(sp, p.items, Tail(sp, p, k));
    ItemsStart(sp, p.items, Tail(sp, p, k));
    SpacedWord(sp, "DISTINCT", items);
    WordsEnd(CLAUSE_WORDS, TokensOf(k));
  }

  // ---- parts --------------------------------------------------------------------------------------------------

  lemma NoClause(toks: TokenList)
    requires ParseClause(toks) == None
    ensures ParseClauses(toks) == Ok(Parsed([], toks))
  {
    hide ParseClause;
  }

  /** What a part leaves after its clauses: its projection or, without one, what follows. */
  function AfterClauses(sp: Spelling, projection: Option<Projection>, k: Pieces): Pieces {
    if projection.None? then k else ShowProjection(sp, projection.value, k)
  }

  lemma ClausesHead(sp: Spelling, clauses: seq<Clause>, projection: Option<Projection>, k: Pieces)
    requires (forall c :: c in clauses ==> ClausePathsValid(c)) && (projection.Some? ==> ProjectionOk(projection.value)) && NextClause(TokensOf(k))
    ensures NextClause(TokensOf(ShowClauses(sp, clauses, projection, k)))
  {
    hide TokensOf, ShowClause, ShowProjection, ProjectionOk;
    if clauses == [] {
      if projection.Some? {
        ReadProjection(sp, projection.value, k);
      }
    } else {
      assert clauses[0] in clauses;
      ClauseStarts(sp, clauses[0], k);
      ClauseStarts(sp, clauses[0], Gap(ShowClauses(sp, clauses[1..], projection, k)));
    }
  }

  lemma {:induction false} ReadClauses(sp: Spelling, clauses: seq<Clause>, projection: Option<Projection>, k: Pieces)
    requires ClausesOk(clauses) && forall c :: c in clauses ==> ClausePathsValid(c)
    requires (projection.Some? ==> ProjectionOk(projection.value)) && NextClause(TokensOf(k))
    requires projection.None? ==> TokensOf(k).Nil?
    ensures ParseClauses(TokensOf(ShowClauses(sp, clauses, projection, k)))
         == Ok(Parsed(RereadClauses(clauses), TokensOf(AfterClauses(sp, projection, k))))
    decreases |clauses|
  {
    hide TokensOf, ShowClause, ShowProjection, ProjectionOk, ParseClause, ClauseOk, RereadClause, HeadIn;
    if clauses == [] {
      if projection.Some? {
        ReadProjection(sp, projection.value, k);
      } else {
        EndHasNoClause(TokensOf(k));
      }
      NoClause(TokensOf(AfterClauses(sp, projection, k)));
    } else {
      assert clauses[0] in clauses;
      if |clauses| == 1 && projection.None? {
        ReadClause(sp, clauses[0], k);
        EndHasNoClause(TokensOf(k));
        NoClause(TokensOf(k));
        assert RereadClauses(clauses) == [RereadClause(clauses[0])] + RereadClauses(clauses[1..]) == [RereadClause(clauses[0])] + [];
      } else {
        var more := ShowClauses(sp, clauses[1..], projection, k);
        ClausesHead(sp, clauses[1..], projection, k);
        PutTokens(Sym(Comma), more);
        ReadClause(sp, clauses[0], Gap(more));
        ReadClauses(sp, clauses[1..], projection, k);
      }
    }
  }

  lemma EndHasNoClause(toks: TokenList)
    requires toks.Nil?
    ensures ParseClause(toks) == None && !AtProjection(toks)
  {
  }

  /** Where a query stops: at the end of the text, or behind its RETURN. */
  predicate QueryEnds(parts: seq<QueryPart>, toks: TokenList) {
    toks.Nil? || (parts != [] && parts[|parts| - 1].projection.Some? && NextClause(toks))
  }

  lemma PartsHead(sp: Spelling, parts: seq<QueryPart>, k: Pieces)
    requires PartsOk(parts) && (forall p :: p in parts ==> PartPathsValid(p)) && QueryEnds(parts, TokensOf(k))
    ensures NextClause(TokensOf(ShowParts(sp, parts, k)))
  {
    hide TokensOf, ShowClauses, ProjectionOk, ClausesOk;
    assert PartPathsValid(parts[0]);
    var tail := if |parts| == 1 then k else Gap(ShowParts(sp, parts[1..], k));
    if |parts| > 1 {
      PartsHead(sp, parts[1..], k);
      PutTokens(Sym(Comma), ShowParts(sp, parts[1..], k));
    }
    ClausesHead(sp, parts[0].reading, parts[0].projection, tail);
  }

  lemma {:induction false} ReadParts(sp: Spelling, parts: seq<QueryPart>, k: Pieces)
    requires PartsOk(parts) && (forall p :: p in parts ==> PartPathsValid(p)) && QueryEnds(parts, TokensOf(k))
    ensures ParseParts(TokensOf(ShowParts(sp, parts, k))) == Ok(Parsed(RereadParts(parts), TokensOf(k)))
    decreases |parts|
  {
    hide TokensOf, ShowClauses, ProjectionOk, ClausesOk, ParseClauses, ParseProjection, RereadProjection, RereadClauses, ShowProjection, HeadIn, AtProjection;
    assert PartPathsValid(parts[0]);
    var tail := if |parts| == 1 then k else Gap(ShowParts(sp, parts[1..], k));
    assert NextClause(TokensOf(tail)) by {
      if |parts| == 1 {
        if TokensOf(k).Nil? {
          EndIsNext(TokensOf(k));
        }
      } else {
        PartsHead(sp, parts[1..], k);
        PutTokens(Sym(Comma), ShowParts(sp, parts[1..], k));
      }
    }
    ReadClauses(sp, parts[0].reading, parts[0].projection, tail);
    if parts[0].projection.None? {
      EndHasNoClause(TokensOf(k));
      assert RereadParts(parts) == [RereadPart(parts[0])] + RereadParts(parts[1..]) == [RereadPart(parts[0])];
    } else {
      ReadProjection(sp, parts[0].projection.value, tail);
      ReturnsAlike(parts[0].projection.value);
      if |parts| == 1 {
        assert RereadParts(parts) == [RereadPart(parts[0])] + RereadParts(parts[1..]) == [RereadPart(parts[0])];
      } else {
        PutTokens(Sym(Comma), ShowParts(sp, parts[1..], k));
        ReadParts(sp, parts[1..], k);
      }
    }
  }

  lemma EndIsNext(toks: TokenList)
    requires toks.Nil?
    ensures NextClause(toks)
  {
  }

  lemma ReturnsAlike(p: Projection)
    ensures RereadProjection(p).isReturn == p.isReturn
  {
  }

  // ---- no token runs into the next ----------------------------------------------------------------------------

  lemma OptionalClean(sp: Spelling, word: string, e: Option<Expr>, k: Pieces)
    requires word in KEYWORDS && OptionalWritable(e) && Tidy(k)
    ensures Tidy(ShowOptional(sp, word, e, k))
  {
    hide Tidy, Clean, Closes, ShowExpr, Writable;
    if e.Some? {
      ExprClean(sp, e.value, OR, k);
      SpacedWordClean(sp, word, ShowExpr(sp, e.value, OR, k));
    }
  }

  lemma SetItemClean(sp: Spelling, item: SetItem, k: Pieces)
    requires SetItemOk(item) && Tidy(k)
    ensures Clean(ShowSetItem(sp, item, k))
  {
    hide Tidy, Clean, Closes, ShowExpr, Writable, NameToken;
    var e := ShowExpr(sp, item.value, OR, k);
    ExprClean(sp, item.value, OR, k);
    SpacedClean(PlusEq, e);
    SpacedClean(EqSign, e);
    if item.mode.SetProperty? {
      NameClean(item.property.value, Gap(Sign(EqSign, Gap(e))));
      DotClean(item.variable, Name(item.property.value, Gap(Sign(EqSign, Gap(e)))));
    } else {
      NameClean(item.variable, Gap(Sign(PlusEq, Gap(e))));
      NameClean(item.variable, Gap(Sign(EqSign, Gap(e))));
    }
  }

  lemma {:induction false} SetItemsClean(sp: Spelling, items: seq<SetItem>, k: Pieces)
    requires SetItemsOk(items) && Tidy(k)
    ensures Clean(ShowSetItems(sp, items, k))
    decreases |items|
  {
    hide Clean, Closes, ShowSetItem, SetItemOk;
    if |items| == 1 {
      SetItemClean(sp, items[0], k);
    } else if items != [] {
      SetItemsClean(sp, items[1..], k);
      CommaTidy(ShowSetItems(sp, items[1..], k));
      SetItemClean(sp, items[0], Sign(Comma, Gap(ShowSetItems(sp, items[1..], k))));
    }
  }

  lemma OneOnClean(sp: Spelling, word: string, items: seq<SetItem>, k: Pieces)
    requires word in KEYWORDS && SetItemsOk(items) && Tidy(k)
    ensures Tidy(ShowOneOn(sp, word, items, k))
  {
    hide Tidy, Clean, Closes, ShowSetItems, SetItemsOk, IsPlain, UpperAll;
    SetItemsClean(sp, items, k);
    SpacedWordClean(sp, "SET", ShowSetItems(sp, items, k));
    SpacedWordClean(sp, word, Word(sp, "SET", Gap(ShowSetItems(sp, items, k))));
    OnIsName(sp);
    NameClean(sp.on, Gap(Word(sp, word, Gap(Word(sp, "SET", Gap(ShowSetItems(sp, items, k)))))));
    GapTidy(Ident(sp.on, Gap(Word(sp, word, Gap(Word(sp, "SET", Gap(ShowSetItems(sp, items, k))))))));
  }

  lemma OnIsName(sp: Spelling)
    ensures sp.on != ""
  {
  }

  lemma {:induction false} OnClean(sp: Spelling, word: string, items: seq<SetItem>, k: Pieces)
    requires word in KEYWORDS && SetItemsOk(items) && Tidy(k)
    ensures Tidy(ShowOn(sp, word, items, k))
    decreases |items|
  {
    hide Tidy, ShowOneOn, SetItemOk;
    if items != [] {
      if sp.singly(items) {
        OnClean(sp, word, items[1..], k);
        OneOnClean(sp, word, [items[0]], ShowOn(sp, word, items[1..], k));
      } else {
        OneOnClean(sp, word, items, k);
      }
    }
  }

  lemma OnsClean(sp: Spelling, c: Clause, k: Pieces)
    requires c.Merge? && SetItemsOk(c.onCreate) && SetItemsOk(c.onMatch) && Tidy(k)
    ensures Tidy(ShowOns(sp, c, k))
  {
    hide Tidy, ShowOn, SetItemsOk;
    OnClean(sp, "MATCH", c.onMatch, k);
    OnClean(sp, "CREATE", c.onCreate, k);
    OnClean(sp, "CREATE", c.onCreate, ShowOn(sp, "MATCH", c.onMatch, k));
    OnClean(sp, "MATCH", c.onMatch, ShowOn(sp, "CREATE", c.onCreate, k));
  }

  lemma {:induction false} RefsClean(sp: Spelling, refs: seq<PropertyRef>, k: Pieces)
    requires RefsOk(refs) && Tidy(k)
    ensures Clean(ShowRefs(sp, refs, k))
    decreases |refs|
  {
    hide Clean, Closes, NameToken;
    if refs != [] {
      var tail := if |refs| == 1 then k else Sign(Comma, Gap(ShowRefs(sp, refs[1..], k)));
      if |refs| > 1 {
        RefsClean(sp, refs[1..], k);
        CommaTidy(ShowRefs(sp, refs[1..], k));
      }
      NameClean(refs[0].property, tail);
      DotClean(refs[0].variable, Name(refs[0].property, tail));
    }
  }

  lemma ClauseClean(sp: Spelling, c: Clause, k: Pieces)
    requires ClauseOk(c) && ClausePathsValid(c) && Tidy(k)
    ensures Clean(ShowClause(sp, c, k))
  {
    hide Tidy, Clean, Closes, ShowPaths, ShowPath, ShowExpr, ShowExprs, ShowSetItems, ShowOn, ShowRefs, ShowOptional, ShowWhere,
      PathsOk, PathOk, SetItemsOk, RefsOk, Writable, AllWritable, NoRelProps, HasRelProps;
    match c
    case Match(paths, where, _) =>
      OptionalClean(sp, "WHERE", where, k);
      WhereIsOptional(sp, where, k);
      TidyIsClean(ShowWhere(sp, where, k));
      PathsClean(sp, paths, ShowWhere(sp, where, k));
      SpacedWordClean(sp, "MATCH", ShowPaths(sp, paths, ShowWhere(sp, where, k)));
      SpacedWordClean(sp, "OPTIONAL", Word(sp, "MATCH", Gap(ShowPaths(sp, paths, ShowWhere(sp, where, k)))));
    case Unwind(expr, variable) =>
      NameClean(variable, k);
      SpacedWordClean(sp, "AS", Ident(variable, k));
      ExprClean(sp, expr, OR, Gap(Word(sp, "AS", Gap(Ident(variable, k)))));
      SpacedWordClean(sp, "UNWIND", ShowExpr(sp, expr, OR, Gap(Word(sp, "AS", Gap(Ident(variable, k))))));
    case Create(paths) =>
      TidyIsClean(k);
      PathsClean(sp, paths, k);
      SpacedWordClean(sp, "CREATE", ShowPaths(sp, paths, k));
    case Merge(pattern, onCreate, onMatch) =>
      OnsClean(sp, c, k);
      TidyIsClean(ShowOns(sp, c, k));
      PathClean(sp, pattern, ShowOns(sp, c, k));
      SpacedWordClean(sp, "MERGE", ShowPath(sp, pattern, ShowOns(sp, c, k)));
    case SetClause(items) =>
      SetItemsClean(sp, items, k);
      SpacedWordClean(sp, "SET", ShowSetItems(sp, items, k));
    case Delete(targets, detach) =>
      ExprsClean(sp, targets, k);
      SpacedWordClean(sp, "DELETE", ShowExprs(sp, targets, k));
      SpacedWordClean(sp, "DETACH", Word(sp, "DELETE", Gap(ShowExprs(sp, targets, k))));
    case Remove(refs) =>
      RefsClean(sp, refs, k);
      SpacedWordClean(sp, "REMOVE", ShowRefs(sp, refs, k));
  }

  lemma {:induction false} ItemsClean(sp: Spelling, items: seq<ReturnItem>, k: Pieces)
    requires ReturnItemsOk(items) && Tidy(k)
    ensures Clean(ShowReturnItems(sp, items, k))
    decreases |items|
  {
    hide Clean, Closes, ShowExpr, Writable;
    if items != [] {
      var tail := if |items| == 1 then k else Sign(Comma, Gap(ShowReturnItems(sp, items[1..], k)));
      if |items| > 1 {
        ItemsClean(sp, items[1..], k);
        CommaTidy(ShowReturnItems(sp, items[1..], k));
      }
      if items[0].alias.None? {
        ExprClean(sp, items[0].expr, OR, tail);
      } else {
        NameClean(items[0].alias.value, tail);
        SpacedWordClean(sp, "AS", Ident(items[0].alias.value, tail));
        ExprClean(sp, items[0].expr, OR, Gap(Word(sp, "AS", Gap(Ident(items[0].alias.value, tail)))));
      }
    }
  }

  lemma {:induction false} SortsClean(sp: Spelling, keys: seq<SortItem>, k: Pieces)
    requires SortsOk(keys) && Tidy(k)
    ensures Clean(ShowSorts(sp, keys, k))
    decreases |keys|
  {
    hide Clean, Closes, ShowExpr, Writable;
    if keys != [] {
      var tail := if |keys| == 1 then k else Sign(Comma, Gap(ShowSorts(sp, keys[1..], k)));
      if |keys| > 1 {
        SortsClean(sp, keys[1..], k);
        CommaTidy(ShowSorts(sp, keys[1..], k));
      }
      WordClean(sp, "DESC", tail);
      GapTidy(Word(sp, "DESC", tail));
      WordClean(sp, "ASC", tail);
      GapTidy(Word(sp, "ASC", tail));
      ExprClean(sp, keys[0].expr, OR, if keys[0].descending then Gap(Word(sp, "DESC", tail)) else if sp.asc(keys[0]) then Gap(Word(sp, "ASC", tail)) else tail);
    }
  }

  lemma TailClean(sp: Spelling, p: Projection, k: Pieces)
    requires ProjectionOk(p) && Tidy(k)
    ensures Tidy(Tail(sp, p, k))
  {
    hide Tidy, Clean, Closes, ShowOptional, ShowWhere, ShowSorts, ReturnItemsOk, OptionalWritable, SortsOk;
    OptionalClean(sp, "LIMIT", p.limit, k);
    OptionalClean(sp, "SKIP", p.skip, Limited(sp, p, k));
    if p.orderBy.Some? && p.orderBy.value != [] {
      SortsClean(sp, p.orderBy.value, Sliced(sp, p, k));
      SpacedWordClean(sp, "BY", ShowSorts(sp, p.orderBy.value, Sliced(sp, p, k)));
      SpacedWordClean(sp, "ORDER", Word(sp, "BY", Gap(ShowSorts(sp, p.orderBy.value, Sliced(sp, p, k)))));
    }
    OptionalClean(sp, "WHERE", p.where, Ordered(sp, p, k));
    WhereIsOptional(sp, p.where, Ordered(sp, p, k));
  }

  lemma ProjectionClean(sp: Spelling, p: Projection, k: Pieces)
    requires ProjectionOk(p) && Tidy(k)
    ensures Clean(ShowProjection(sp, p, k))
  {
    hide Tidy, Clean, Closes, ShowReturnItems, ShowOptional, ShowWhere, ShowOrder, ReturnItemsOk, OptionalWritable, SortsOk;
    TailClean(sp, p, k);
    var items := ShowReturnItems(sp, p.items, Tail(sp, p, k));
    ItemsClean(sp, p.items, Tail(sp, p, k));
    SpacedWordClean(sp, "DISTINCT", items);
    GapTidy(items);
    WordClean(sp, "RETURN", if p.distinct then Gap(Word(sp, "DISTINCT", Gap(items))) else Gap(items));
    WordClean(sp, "WITH", if p.distinct then Gap(Word(sp, "DISTINCT", Gap(items))) else Gap(items));
  }

  lemma {:induction false} ClausesClean(sp: Spelling, clauses: seq<Clause>, projection: Option<Projection>, k: Pieces)
    requires ClausesOk(clauses) && (forall c :: c in clauses ==> ClausePathsValid(c))
    requires (projection.Some? ==> ProjectionOk(projection.value)) && Tidy(k)
    ensures Clean(ShowClauses(sp, clauses, projection, k))
    decreases |clauses|
  {
    hide Clean, Closes, ShowClause, ShowProjection, ClauseOk, ProjectionOk;
    if clauses == [] {
      if projection.Some? {
        ProjectionClean(sp, projection.value, k);
      }
    } else {
      assert clauses[0] in clauses;
      if |clauses| == 1 && projection.None? {
        ClauseClean(sp, clauses[0], k);
      } else {
        ClausesClean(sp, clauses[1..], projection, k);
        GapTidy(ShowClauses(sp, clauses[1..], projection, k));
        ClauseClean(sp, clauses[0], Gap(ShowClauses(sp, clauses[1..], projection, k)));
      }
    }
  }

  lemma {:induction false} PartsClean(sp: Spelling, parts: seq<QueryPart>, k: Pieces)
    requires PartsOk(parts) && (forall p :: p in parts ==> PartPathsValid(p)) && Tidy(k)
    ensures Clean(ShowParts(sp, parts, k))
    decreases |parts|
  {
    hide Clean, Closes, ShowClauses, ClausesOk, ProjectionOk;
    assert PartPathsValid(parts[0]);
    if |parts| == 1 {
      ClausesClean(sp, parts[0].reading, parts[0].projection, k);
    } else {
      PartsClean(sp, parts[1..], k);
      GapTidy(ShowParts(sp, parts[1..], k));
      ClausesClean(sp, parts[0].reading, parts[0].projection, Gap(ShowParts(sp, parts[1..], k)));
    }
  }

  // ---- the theorem --------------------------------------------------------------------------------------------

  /** Reading a text: tokens, then the query. */
  datatype ReadError = LexFault(lexical: LexError) | SyntaxFault(syntax: SyntaxError)

  function ReadQuery(text: string): Result<QueryModel, ReadError> {
    match Lex(text)
    case Err(e) => Err(LexFault(e))
    case Ok(toks) =>
      match Parse(toks)
      case Err(e) => Err(SyntaxFault(e))
      case Ok(model) => Ok(model)
  }

  function RereadModel(model: QueryModel): QueryModel {
    QueryModel(RereadParts(model.parts))
  }

  lemma DoneIsTidy()
    ensures Tidy(Done) && TokensOf(Done) == Nil
  {
  }

  /** However a query is spelled and spaced, it is read as that query, reread. */
  lemma SpelledReadsBack(sp: Spelling, blank: Pieces -> string, model: QueryModel)
    requires PathsAreValid(model) && PartsOk(model.parts) && Blanks(blank)
    ensures ReadQuery(Spaced(ShowParts(sp, model.parts, Done), blank)) == Ok(RereadModel(model))
  {
    hide ShowParts, ParseParts, RereadParts, PartsOk, PartPathsValid, Lex, TokensOf, Spaced, Clean, Closes, Blanks;
    DoneIsTidy();
    PartsClean(sp, model.parts, Done);
    SpacedReadsBack(ShowParts(sp, model.parts, Done), blank);
    ReadParts(sp, model.parts, Done);
  }

  /** The text of a query is read as that query, reread. */
  lemma QueryTextReadsBack(model: QueryModel)
    requires PathsAreValid(model) && PartsOk(model.parts)
    ensures ReadQuery(QueryText(model)) == Ok(RereadModel(model))
  {
    hide ShowParts, ParseParts, RereadParts, PartsOk, PartPathsValid, Lex, TokensOf, TextOf, Clean, Closes;
    DoneIsTidy();
    PartsClean(PLAIN, model.parts, Done);
    TextReadsBack(ShowParts(PLAIN, model.parts, Done));
    ReadParts(PLAIN, model.parts, Done);
  }

  // ---- what comes back unchanged ------------------------------------------------------------------------------

  predicate OptionalStable(e: Option<Expr>) {
    e.Some? ==> Stable(e.value)
  }

  predicate PathStable(path: PatternPath) {
    forall i :: 0 <= i < |path.rels| ==> path.rels[i].maxHops.Some? ==> path.rels[i].minHops.Some?
  }

  predicate PathsStable(paths: seq<PatternPath>) {
    forall i :: 0 <= i < |paths| ==> PathStable(paths[i])
  }

  /** Only a property assignment names a property. */
  predicate SetItemStable(item: SetItem) {
    Stable(item.value) && (!item.mode.SetProperty? ==> item.property.None?)
  }

  predicate SetItemsStable(items: seq<SetItem>) {
    forall i :: 0 <= i < |items| ==> SetItemStable(items[i])
  }

  predicate ClauseStable(c: Clause) {
    match c
    case Match(paths, where, _) => PathsStable(paths) && OptionalStable(where)
    case Unwind(expr, _) => Stable(expr)
    case Create(paths) => PathsStable(paths)
    case Merge(pattern, onCreate, onMatch) => PathStable(pattern) && SetItemsStable(onCreate) && SetItemsStable(onMatch)
    case SetClause(items) => SetItemsStable(items)
    case Delete(targets, _) => AllStable(targets)
    case Remove(_) => true
  }

  predicate ProjectionStable(p: Projection) {
    && (forall i :: 0 <= i < |p.items| ==> Stable(p.items[i].expr))
    && p.orderBy != Some([])
    && (p.orderBy.Some? ==> forall i :: 0 <= i < |p.orderBy.value| ==> Stable(p.orderBy.value[i].expr))
    && OptionalStable(p.where) && OptionalStable(p.skip) && OptionalStable(p.limit)
  }

  predicate PartStable(part: QueryPart) {
    && (forall i :: 0 <= i < |part.reading| ==> ClauseStable(part.reading[i]))
    && (part.projection.Some? ==> ProjectionStable(part.projection.value))
  }

  lemma OptionalSame(e: Option<Expr>)
    requires OptionalWritable(e)
    ensures RereadOptional(e) == e <==> OptionalStable(e)
  {
    hide Reread, Stable, Writable;
    if e.Some? {
      RereadIsSame(e.value);
    }
  }

  lemma {:induction false} AllSame(es: seq<Expr>)
    requires AllWritable(es)
    ensures RereadAll(es) == es <==> AllStable(es)
    decreases |es|
  {
    hide Reread, Stable, Writable;
    if es != [] {
      RereadIsSame(es[0]);
      AllSame(es[1..]);
      Heads(Reread(es[0]), RereadAll(es[1..]), es);
    }
  }

  lemma Heads<T>(x: T, rest: seq<T>, s: seq<T>)
    requires s != []
    ensures [x] + rest == s <==> x == s[0] && rest == s[1..]
  {
    if [x] + rest == s {
      assert s[0] == x && s[1..] == rest;
    }
  }

  lemma PathSame(path: PatternPath)
    ensures RereadPath(path) == path <==> PathStable(path)
  {
    var r := RereadPath(path);
    if PathStable(path) {
      assert r.rels == path.rels;
    }
    if r == path {
      forall i | 0 <= i < |path.rels| ensures path.rels[i].maxHops.Some? ==> path.rels[i].minHops.Some? {
        assert r.rels[i] == RereadRel(path.rels[i]);
      }
    }
  }

  lemma {:induction false} PathsSame(paths: seq<PatternPath>)
    ensures RereadPaths(paths) == paths <==> PathsStable(paths)
    decreases |paths|
  {
    hide RereadPath, PathStable;
    if paths != [] {
      PathSame(paths[0]);
      PathsSame(paths[1..]);
      Heads(RereadPath(paths[0]), RereadPaths(paths[1..]), paths);
      assert PathsStable(paths) <==> PathStable(paths[0]) && PathsStable(paths[1..]) by {
        assert forall i :: 0 < i < |paths| ==> paths[i] == paths[1..][i - 1];
      }
    }
  }

  lemma SetItemSame(item: SetItem)
    requires SetItemOk(item)
    ensures RereadSetItem(item) == item <==> SetItemStable(item)
  {
    hide Reread, Stable, Writable;
    RereadIsSame(item.value);
  }

  lemma {:induction false} SetItemsSame(items: seq<SetItem>)
    requires SetItemsOk(items)
    ensures RereadSetItems(items) == items <==> SetItemsStable(items)
    decreases |items|
  {
    hide RereadSetItem, SetItemStable, SetItemOk;
    if items != [] {
      SetItemSame(items[0]);
      SetItemsSame(items[1..]);
      Heads(RereadSetItem(items[0]), RereadSetItems(items[1..]), items);
      assert SetItemsStable(items) <==> SetItemStable(items[0]) && SetItemsStable(items[1..]) by {
        assert forall i :: 0 < i < |items| ==> items[i] == items[1..][i - 1];
      }
    }
  }

  lemma ClauseSame(c: Clause)
    requires ClauseOk(c)
    ensures RereadClause(c) == c <==> ClauseStable(c)
  {
    hide RereadPaths, RereadPath, RereadSetItems, RereadAll, Reread, RereadOptional, PathsStable, PathStable, SetItemsStable, AllStable, Stable,
      OptionalStable, Writable, PathsOk, PathOk, SetItemsOk, AllWritable, OptionalWritable;
    match c
    case Match(paths, where, _) => PathsSame(paths); OptionalSame(where);
    case Unwind(expr, _) => RereadIsSame(expr);
    case Create(paths) => PathsSame(paths);
    case Merge(pattern, onCreate, onMatch) => PathSame(pattern); SetItemsSame(onCreate); SetItemsSame(onMatch);
    case SetClause(items) => SetItemsSame(items);
    case Delete(targets, _) => AllSame(targets);
    case Remove(_) =>
  }

  lemma {:induction false} ClausesSame(clauses: seq<Clause>)
    requires ClausesOk(clauses)
    ensures RereadClauses(clauses) == clauses <==> forall i :: 0 <= i < |clauses| ==> ClauseStable(clauses[i])
    decreases |clauses|
  {
    hide RereadClause, ClauseStable, ClauseOk;
    if clauses != [] {
      assert clauses[0] in clauses;
      ClauseSame(clauses[0]);
      ClausesSame(clauses[1..]);
      Heads(RereadClause(clauses[0]), RereadClauses(clauses[1..]), clauses);
      assert forall i :: 0 < i < |clauses| ==> clauses[i] == clauses[1..][i - 1];
      assert forall i :: 0 <= i < |clauses[1..]| ==> clauses[1..][i] == clauses[i + 1];
    }
  }

  lemma {:induction false} ItemsSame(items: seq<ReturnItem>)
    requires ReturnItemsOk(items)
    ensures RereadItems(items) == items <==> forall i :: 0 <= i < |items| ==> Stable(items[i].expr)
    decreases |items|
  {
    hide Reread, Stable, Writable;
    if items != [] {
      RereadIsSame(items[0].expr);
      ItemsSame(items[1..]);
      Heads(ReturnItem(Reread(items[0].expr), items[0].alias), RereadItems(items[1..]), items);
      assert forall i :: 0 < i < |items| ==> items[i] == items[1..][i - 1];
      assert forall i :: 0 <= i < |items[1..]| ==> items[1..][i] == items[i + 1];
    }
  }

  lemma {:induction false} SortsSame(keys: seq<SortItem>)
    requires SortsOk(keys)
    ensures RereadSorts(keys) == keys <==> forall i :: 0 <= i < |keys| ==> Stable(keys[i].expr)
    decreases |keys|
  {
    hide Reread, Stable, Writable;
    if keys != [] {
      RereadIsSame(keys[0].expr);
      SortsSame(keys[1..]);
      Heads(SortItem(Reread(keys[0].expr), keys[0].descending), RereadSorts(keys[1..]), keys);
      assert forall i :: 0 < i < |keys| ==> keys[i] == keys[1..][i - 1];
      assert forall i :: 0 <= i < |keys[1..]| ==> keys[1..][i] == keys[i + 1];
    }
  }

  lemma ProjectionSame(p: Projection)
    requires ProjectionOk(p)
    ensures RereadProjection(p) == p <==> ProjectionStable(p)
  {
    hide RereadItems, RereadSorts, RereadOptional, OptionalStable, Stable, ReturnItemsOk, SortsOk, OptionalWritable;
    ItemsSame(p.items);
    OptionalSame(p.where);
    OptionalSame(p.skip);
    OptionalSame(p.limit);
    if p.orderBy.Some? {
      SortsSame(p.orderBy.value);
    }
  }

  lemma PartSame(part: QueryPart)
    requires ClausesOk(part.reading) && (part.projection.Some? ==> ProjectionOk(part.projection.value))
    ensures RereadPart(part) == part <==> PartStable(part)
  {
    hide RereadClauses, RereadProjection, ClauseStable, ProjectionStable, ClausesOk, ProjectionOk;
    ClausesSame(part.reading);
    if part.projection.Some? {
      ProjectionSame(part.projection.value);
    }
  }

  lemma {:induction false} PartsSame(parts: seq<QueryPart>)
    requires PartsOk(parts)
    ensures RereadParts(parts) == parts <==> forall i :: 0 <= i < |parts| ==> PartStable(parts[i])
    decreases |parts|
  {
    hide RereadPart, PartStable, ClausesOk, ProjectionOk;
    PartSame(parts[0]);
    Heads(RereadPart(parts[0]), RereadParts(parts[1..]), parts);
    if |parts| > 1 {
      PartsSame(parts[1..]);
    }
    assert forall i :: 0 < i < |parts| ==> parts[i] == parts[1..][i - 1];
    assert forall i :: 0 <= i < |parts[1..]| ==> parts[1..][i] == parts[i + 1];
  }

  /**
   A query comes back unchanged exactly when its connectives are binary, no number literal outside property maps and IN
   lists is negative, its bounded relationships have a minimum, and nothing is stored that is not printed.
   */
  lemma UnchangedIff(model: QueryModel)
    requires PathsAreValid(model) && PartsOk(model.parts)
    ensures ReadQuery(QueryText(model)) == Ok(model) <==> forall i :: 0 <= i < |model.parts| ==> PartStable(model.parts[i])
  {
    hide PartStable, PartsOk, RereadParts, QueryText, ReadQuery, PathsAreValid;
    QueryTextReadsBack(model);
    PartsSame(model.parts);
  }
}
