/** Parsing the text of patterns: property maps, labels, nodes, relationships and paths. */
module PatternRoundTrip {
  import opened Wrappers
  import Numbers
  import opened NumberText
  import opened Values
  import opened Query
  import opened Tokens
  import opened Lexing
  import opened Unparsing
  import opened Parsing
  import opened ExpressionRoundTrip
  import opened CleanText

  // ---- patterns with a text -----------------------------------------------------------------------------------

  predicate Named(name: Option<string>) {
    name.Some? ==> name.value != ""
  }

  predicate PropertiesOk(properties: seq<Property>) {
    && (forall i :: 0 <= i < |properties| ==> properties[i].key != "")
    && (forall i, j :: 0 <= i < j < |properties| ==> properties[i].key != properties[j].key)
  }

  predicate NodeOk(node: NodePattern) {
    Named(node.variable) && Named(node.labelName) && PropertiesOk(node.properties)
  }

  function AtLeast(rel: RelPattern): nat {
    if rel.minHops.Some? then rel.minHops.value else 1
  }

  /** Hop counts are printed in full below 10^21, and a range is not empty. */
  predicate HopsOk(rel: RelPattern) {
    && AtLeast(rel) < Numbers.Pow10(21)
    && (rel.maxHops.Some? ==> AtLeast(rel) <= rel.maxHops.value < Numbers.Pow10(21))
  }

  predicate DetailOk(rel: RelPattern) {
    Named(rel.variable) && Named(rel.relType) && PropertiesOk(rel.properties)
  }

  predicate RelOk(rel: RelPattern) {
    DetailOk(rel) && HopsOk(rel)
  }

  predicate PathOk(path: PatternPath) {
    && path.Valid() && Named(path.pathVariable)
    && (forall i :: 0 <= i < |path.nodes| ==> NodeOk(path.nodes[i]))
    && (forall i :: 0 <= i < |path.rels| ==> RelOk(path.rels[i]))
  }

  /** A bounded relationship without a minimum is written with its default, 1. */
  function RereadRel(rel: RelPattern): RelPattern {
    rel.(minHops := if rel.IsVariableLength() then Some(AtLeast(rel)) else None)
  }

  function RereadPath(path: PatternPath): (r: PatternPath)
    ensures path.Valid() ==> r.Valid()
  {
    path.(rels := seq(|path.rels|, i requires 0 <= i < |path.rels| => RereadRel(path.rels[i])))
  }

  // ---- property maps ------------------------------------------------------------------------------------------

  lemma {:induction false} SetNewScalar(properties: seq<Property>, key: string, v: Scalar)
    requires forall i :: 0 <= i < |properties| ==> properties[i].key != key
    ensures SetScalar(properties, key, v) == properties + [Property(key, v)]
  {
    if properties != [] {
      SetNewScalar(properties[1..], key, v);
    }
  }

  lemma {:induction false} ReadProperties(sp: Spelling, done: seq<Property>, properties: seq<Property>, k: Pieces)
    requires properties != [] && !At(TokensOf(k), Comma) && PropertiesOk(done + properties)
    ensures ParseProperties(done, TokensOf(ShowProperties(sp, properties, k))) == Ok(Parsed(done + properties, TokensOf(k)))
    decreases |properties|
  {
    hide TokensOf, ShowScalar, ParseScalar, Name, SetScalar, ExpectName;
    var p := properties[0];
    var tail := if |properties| == 1 then k else Sign(Comma, Gap(ShowProperties(sp, properties[1..], k)));
    var shown := ShowScalar(sp, p.value, tail);
    if |properties| > 1 {
      PutTokens(Sym(Comma), Gap(ShowProperties(sp, properties[1..], k)));
      PutTokens(Sym(Comma), ShowProperties(sp, properties[1..], k));
    }
    NameReadsBack(p.key, Sign(Colon, Gap(shown)));
    PutTokens(Sym(Colon), Gap(shown));
    PutTokens(Sym(Colon), shown);
    ReadScalar(sp, p.value, tail);
    forall i | 0 <= i < |done| ensures done[i].key != p.key {
      assert (done + properties)[i] == done[i] && (done + properties)[|done|] == p;
    }
    SetNewScalar(done, p.key, p.value);
    assert done + properties == done + [p] + properties[1..];
    if |properties| == 1 {
      assert done + properties == done + [p];
    } else {
      ReadProperties(sp, done + [p], properties[1..], k);
    }
  }

  lemma ReadPropMap(sp: Spelling, properties: seq<Property>, k: Pieces)
    requires PropertiesOk(properties)
    ensures ParsePropMap(TokensOf(ShowPropMap(sp, properties, k))) == Ok(Parsed(properties, TokensOf(k)))
  {
    hide TokensOf, ShowProperties, ParseProperties;
    var closed := Sign(RBrace, k);
    PutTokens(Sym(LBrace), ShowProperties(sp, properties, closed));
    PutTokens(Sym(RBrace), k);
    if properties == [] {
      NoProperties(sp, closed);
    } else {
      PropertiesStart(sp, properties, closed);
      assert [] + properties == properties;
      ReadProperties(sp, [], properties, closed);
    }
  }

  lemma NoProperties(sp: Spelling, k: Pieces)
    ensures ShowProperties(sp, [], k) == k
  {
  }

  lemma PropertiesStart(sp: Spelling, properties: seq<Property>, k: Pieces)
    requires properties != []
    ensures !At(TokensOf(ShowProperties(sp, properties, k)), RBrace)
  {
    hide ShowScalar, IsPlain, IsKeyword;
  }

  function ShowOptionalProps(sp: Spelling, properties: seq<Property>, k: Pieces): Pieces {
    if properties == [] then k else Gap(ShowPropMap(sp, properties, k))
  }

  lemma ReadOptionalProps(sp: Spelling, properties: seq<Property>, s: Symbol, k: Pieces)
    requires PropertiesOk(properties) && s in {RParen, RBracket}
    ensures ParseOptionalProps(TokensOf(ShowOptionalProps(sp, properties, Sign(s, k)))) == Ok(Parsed(properties, Cons(Sym(s), TokensOf(k))))
    ensures At(TokensOf(ShowOptionalProps(sp, properties, Sign(s, k))), if properties == [] then s else LBrace)
  {
    hide TokensOf, ShowProperties, ParsePropMap;
    var closed := Sign(s, k);
    PutTokens(Sym(s), k);
    if properties != [] {
      PutTokens(Sym(LBrace), ShowPropMap(sp, properties, closed));
      PutTokens(Sym(LBrace), ShowProperties(sp, properties, Sign(RBrace, closed)));
      ReadPropMap(sp, properties, closed);
    }
  }

  // ---- labels -------------------------------------------------------------------------------------------------

  function Join(segments: seq<string>): string
    requires segments != []
  {
    if |segments| == 1 then segments[0] else segments[0] + "." + Join(segments[1..])
  }

  lemma {:induction false} SegmentsJoin(labelName: string)
    ensures Join(Segments(labelName)) == labelName
  {
    if labelName != "" {
      SegmentsJoin(labelName[1..]);
      var rest := Segments(labelName[1..]);
      if labelName[0] == '.' {
        assert ([""] + rest)[1..] == rest;
      } else {
        var r := [[labelName[0]] + rest[0]] + rest[1..];
        assert r[1..] == rest[1..];
      }
    }
  }

  lemma {:induction false} ReadSegments(sp: Spelling, read: string, segments: seq<string>, k: Pieces)
    requires segments != [] && !At(TokensOf(k), Dot)
    ensures LabelLoop(read, TokensOf(Sign(Dot, ShowSegments(sp, segments, k)))) == Ok(Parsed(read + "." + Join(segments), TokensOf(k)))
    decreases |segments|
  {
    hide TokensOf, Name, ExpectName;
    var tail := if |segments| == 1 then k else Sign(Dot, ShowSegments(sp, segments[1..], k));
    PutTokens(Sym(Dot), ShowSegments(sp, segments, k));
    NameReadsBack(segments[0], tail);
    if |segments| > 1 {
      ReadSegments(sp, read + "." + segments[0], segments[1..], k);
      assert read + "." + Join(segments) == read + "." + segments[0] + "." + Join(segments[1..]);
    }
  }

  lemma ReadLabel(sp: Spelling, labelName: string, k: Pieces)
    requires labelName != "" && !At(TokensOf(k), Dot)
    ensures ParseLabel(TokensOf(ShowLabel(sp, labelName, k))) == Ok(Parsed(labelName, TokensOf(k)))
  {
    hide TokensOf, Name, ExpectName, Join, Segments, LabelLoop;
    var segments := Segments(labelName);
    SegmentsJoin(labelName);
    if "" in segments {
      PutTokens(Identifier(labelName), k);
      WholeLabel(labelName, TokensOf(k));
    } else {
      var tail := if |segments| == 1 then k else Sign(Dot, ShowSegments(sp, segments[1..], k));
      NameReadsBack(segments[0], tail);
      LabelParts(segments);
      if |segments| == 1 {
        LabelStops(segments[0], TokensOf(k));
      } else {
        ReadSegments(sp, segments[0], segments[1..], k);
      }
    }
  }

  lemma LabelParts(segments: seq<string>)
    requires segments != []
    ensures Join(segments) == if |segments| == 1 then segments[0] else segments[0] + "." + Join(segments[1..])
  {
  }

  lemma WholeLabel(labelName: string, k: TokenList)
    requires !At(k, Dot)
    ensures ParseLabel(Cons(Identifier(labelName), k)) == Ok(Parsed(labelName, k))
  {
  }

  lemma LabelStops(labelName: string, k: TokenList)
    requires !At(k, Dot)
    ensures LabelLoop(labelName, k) == Ok(Parsed(labelName, k))
  {
  }

  // ---- nodes --------------------------------------------------------------------------------------------------

  lemma ReadVariable(sp: Spelling, variable: Option<string>, k: Pieces)
    requires !AtIdentifier(TokensOf(k))
    ensures ParseOptionalVariable(TokensOf(ShowVariable(sp, variable, k))) == Parsed(variable, TokensOf(k))
  {
    hide TokensOf;
    if variable.Some? {
      PutTokens(Identifier(variable.value), k);
    }
  }

  lemma ReadOptionalLabel(sp: Spelling, labelName: Option<string>, k: Pieces)
    requires Named(labelName) && !At(TokensOf(k), Dot) && !At(TokensOf(k), Colon)
    ensures ParseOptionalLabel(TokensOf(if labelName.None? then k else Sign(Colon, ShowLabel(sp, labelName.value, k))))
         == Ok(Parsed(labelName, TokensOf(k)))
  {
    hide TokensOf, ShowLabel, ParseLabel;
    if labelName.Some? {
      PutTokens(Sym(Colon), ShowLabel(sp, labelName.value, k));
      ReadLabel(sp, labelName.value, k);
    }
  }

  lemma ReadNode(sp: Spelling, node: NodePattern, k: Pieces)
    requires NodeOk(node)
    ensures ParseNode(TokensOf(ShowNode(sp, node, k))) == Ok(Parsed(node, TokensOf(k)))
    ensures At(TokensOf(ShowNode(sp, node, k)), LParen)
  {
    hide TokensOf, ShowLabel, ShowVariable, ParseOptionalVariable, ParseOptionalLabel, ParseOptionalProps, ShowPropMap, PropertiesOk;
    var props := ShowOptionalProps(sp, node.properties, Sign(RParen, k));
    var labelled := if node.labelName.None? then props else Sign(Colon, ShowLabel(sp, node.labelName.value, props));
    ReadOptionalProps(sp, node.properties, RParen, k);
    if node.labelName.Some? {
      PutTokens(Sym(Colon), ShowLabel(sp, node.labelName.value, props));
    }
    ReadOptionalLabel(sp, node.labelName, props);
    ReadVariable(sp, node.variable, labelled);
    PutTokens(Sym(LParen), ShowVariable(sp, node.variable, labelled));
    PutTokens(Sym(RParen), k);
  }

  // ---- relationships ------------------------------------------------------------------------------------------

  lemma ReadCount(n: nat, k: Pieces)
    ensures ParseOptionalCount(TokensOf(Count(n, k))) == Ok(Parsed(Some(n), TokensOf(k)))
  {
    hide Digits, ValueOf;
    ValueOfDigits(n);
    PutTokens(NumberToken(Digits(n)), k);
  }

  lemma RangeTokens(k: Pieces)
    ensures TokensOf(Range(k)) == Cons(Sym(Dot), Cons(Sym(Dot), TokensOf(k)))
  {
  }

  lemma ReadHops(sp: Spelling, rel: RelPattern, k: Pieces)
    requires rel.IsVariableLength() && !AtNumber(TokensOf(k)) && !At(TokensOf(k), Dot)
    ensures ParseOptionalHops(TokensOf(ShowHops(sp, rel, k))) == Ok(Parsed(Hops(Some(AtLeast(rel)), rel.maxHops), TokensOf(k)))
    ensures At(TokensOf(ShowHops(sp, rel, k)), Star)
  {
    hide TokensOf, Count, ParseOptionalCount;
    var min := AtLeast(rel);
    var upTo := if rel.maxHops.None? then k else Count(rel.maxHops.value, k);
    var rest := if sp.ranged(rel) then OpenStart(min, Range(upTo))
                else if rel.maxHops.None? then (if min == 1 then k else Count(min, Range(k)))
                else if rel.maxHops.value == min then Count(min, k)
                else Count(min, Range(Count(rel.maxHops.value, k)));
    PutTokens(Sym(Star), rest);
    NoCount(TokensOf(k));
    if sp.ranged(rel) {
      ReadCount(min, Range(upTo));
      RangeTokens(upTo);
      NoCount(TokensOf(Range(upTo)));
      if rel.maxHops.Some? {
        ReadCount(rel.maxHops.value, k);
      }
    } else if rel.maxHops.None? {
      ReadCount(min, Range(k));
      RangeTokens(k);
    } else if rel.maxHops.value == min {
      ReadCount(min, k);
    } else {
      ReadCount(min, Range(Count(rel.maxHops.value, k)));
      RangeTokens(Count(rel.maxHops.value, k));
      ReadCount(rel.maxHops.value, k);
    }
  }

  lemma NoCount(k: TokenList)
    requires !AtNumber(k)
    ensures ParseOptionalCount(k) == Ok(Parsed(None, k))
  {
  }

  lemma ReadOptionalHops(sp: Spelling, rel: RelPattern, k: Pieces)
    requires !AtNumber(TokensOf(k)) && !At(TokensOf(k), Dot) && !At(TokensOf(k), Star)
    ensures ParseOptionalHops(TokensOf(if rel.IsVariableLength() then ShowHops(sp, rel, k) else k))
         == Ok(Parsed(Hops(RereadRel(rel).minHops, rel.maxHops), TokensOf(k)))
  {
    hide TokensOf, ShowHops, ParseHops;
    if rel.IsVariableLength() {
      ReadHops(sp, rel, k);
    }
  }

  lemma ReadOptionalType(relType: Option<string>, k: Pieces)
    requires !At(TokensOf(k), Colon)
    ensures ParseOptionalType(TokensOf(if relType.None? then k else Sign(Colon, Name(relType.value, k)))) == Ok(Parsed(relType, TokensOf(k)))
  {
    hide TokensOf, Name, ExpectName;
    if relType.Some? {
      PutTokens(Sym(Colon), Name(relType.value, k));
      NameReadsBack(relType.value, k);
    }
  }

  lemma ReadDetail(sp: Spelling, rel: RelPattern, k: Pieces)
    requires DetailOk(rel) && !At(TokensOf(k), LBracket)
    ensures ParseDetail(TokensOf(ShowDetail(sp, rel, k))) == Ok(Parsed(RereadRel(rel).(direction := Undirected), TokensOf(k)))
  {
    hide TokensOf, ShowVariable, ShowHops, ShowPropMap, Name, ParseOptionalVariable, ParseOptionalType, ParseOptionalHops, ParseOptionalProps, PropertiesOk, HopsOk;
    if HasDetail(rel) || sp.bracketed(rel) {
      var props := ShowOptionalProps(sp, rel.properties, Sign(RBracket, k));
      var hops := if rel.IsVariableLength() then ShowHops(sp, rel, props) else props;
      var typed := if rel.relType.None? then hops else Sign(Colon, Name(rel.relType.value, hops));
      ReadOptionalProps(sp, rel.properties, RBracket, k);
      ReadOptionalHops(sp, rel, props);
      HopsStart(sp, rel, props);
      ReadOptionalType(rel.relType, hops);
      if rel.relType.Some? {
        PutTokens(Sym(Colon), Name(rel.relType.value, hops));
      }
      ReadVariable(sp, rel.variable, typed);
      PutTokens(Sym(LBracket), ShowVariable(sp, rel.variable, typed));
      PutTokens(Sym(RBracket), k);
    }
  }

  lemma HopsStart(sp: Spelling, rel: RelPattern, k: Pieces)
    ensures At(TokensOf(ShowHops(sp, rel, k)), Star)
  {
    hide Count;
  }

  lemma ReadRel(sp: Spelling, rel: RelPattern, k: Pieces)
    requires RelOk(rel)
    ensures ParseRel(TokensOf(ShowRel(sp, rel, k))) == Ok(Parsed(RereadRel(rel), TokensOf(k)))
    ensures At(TokensOf(ShowRel(sp, rel, k)), Dash) || At(TokensOf(ShowRel(sp, rel, k)), ArrowLeft)
  {
    hide TokensOf, ShowDetail, ParseDetail, PropertiesOk;
    var right := Sign(if rel.direction.Outgoing? then ArrowRight else Dash, k);
    PutTokens(Sym(if rel.direction.Outgoing? then ArrowRight else Dash), k);
    ReadDetail(sp, rel, right);
    PutTokens(Sym(if rel.direction.Incoming? then ArrowLeft else Dash), ShowDetail(sp, rel, right));
  }

  // ---- paths --------------------------------------------------------------------------------------------------

  function StepsFrom(path: PatternPath, i: nat): seq<Step>
    requires path.Valid() && i <= |path.rels|
    decreases |path.rels| - i
  {
    if i == |path.rels| then [] else [Step(RereadRel(path.rels[i]), path.nodes[i + 1])] + StepsFrom(path, i + 1)
  }

  /** Nothing that could go on a path follows. */
  predicate PathEnds(toks: TokenList) {
    !At(toks, Dash) && !At(toks, ArrowLeft)
  }

  lemma {:induction false} ReadSteps(sp: Spelling, path: PatternPath, i: nat, k: Pieces)
    requires PathOk(path) && i <= |path.rels| && PathEnds(TokensOf(k))
    ensures ParseSteps(TokensOf(ShowSteps(sp, path, i, k))) == Ok(Parsed(StepsFrom(path, i), TokensOf(k)))
    decreases |path.rels| - i
  {
    hide TokensOf, ShowRel, ShowNode, ParseRel, ParseNode, NodeOk, RelOk;
    if i < |path.rels| {
      var more := ShowSteps(sp, path, i + 1, k);
      ReadSteps(sp, path, i + 1, k);
      ReadNode(sp, path.nodes[i + 1], more);
      ReadRel(sp, path.rels[i], ShowNode(sp, path.nodes[i + 1], more));
    }
  }

  lemma {:induction false} StepsAre(path: PatternPath, i: nat)
    requires path.Valid() && i <= |path.rels|
    ensures |StepsFrom(path, i)| == |path.rels| - i
    ensures forall j :: 0 <= j < |path.rels| - i ==> StepsFrom(path, i)[j] == Step(RereadRel(path.rels[i + j]), path.nodes[i + j + 1])
    decreases |path.rels| - i
  {
    if i < |path.rels| {
      StepsAre(path, i + 1);
      var rest := StepsFrom(path, i + 1);
      forall j | 0 <= j < |path.rels| - i ensures StepsFrom(path, i)[j] == Step(RereadRel(path.rels[i + j]), path.nodes[i + j + 1]) {
        if j > 0 {
          assert StepsFrom(path, i)[j] == rest[j - 1];
          assert rest[j - 1] == Step(RereadRel(path.rels[i + 1 + (j - 1)]), path.nodes[i + 1 + (j - 1) + 1]);
        }
      }
    }
  }

  lemma Rebuilt(path: PatternPath)
    requires path.Valid()
    ensures PatternPath([path.nodes[0]] + NodesOf(StepsFrom(path, 0)), RelsOf(StepsFrom(path, 0)), path.pathVariable) == RereadPath(path)
  {
    hide StepsFrom, RereadRel;
    StepsAre(path, 0);
    var steps := StepsFrom(path, 0);
    forall j | 0 <= j < |steps| ensures steps[j].rel == RereadRel(path.rels[j]) && steps[j].node == path.nodes[j + 1] {
      assert steps[j] == Step(RereadRel(path.rels[0 + j]), path.nodes[0 + j + 1]);
    }
    assert [path.nodes[0]] + NodesOf(steps) == path.nodes;
    assert RelsOf(steps) == RereadPath(path).rels;
  }

  lemma ReadPath(sp: Spelling, path: PatternPath, k: Pieces)
    requires PathOk(path) && PathEnds(TokensOf(k))
    ensures ParsePath(TokensOf(ShowPath(sp, path, k))) == Ok(Parsed(RereadPath(path), TokensOf(k)))
  {
    hide TokensOf, ShowNode, ShowSteps, ParseNode, ParseSteps, NodeOk, RelOk, StepsFrom, NodesOf, RelsOf, RereadPath;
    var nodes := ShowNode(sp, path.nodes[0], ShowSteps(sp, path, 0, k));
    ReadSteps(sp, path, 0, k);
    ReadNode(sp, path.nodes[0], ShowSteps(sp, path, 0, k));
    Rebuilt(path);
    if path.pathVariable.Some? {
      SpacedSign(EqSign, nodes);
      PutTokens(Identifier(path.pathVariable.value), Gap(Sign(EqSign, Gap(nodes))));
    }
  }

  lemma RereadProps(path: PatternPath)
    ensures HasRelProps(RereadPath(path)) <==> HasRelProps(path)
  {
    var r := RereadPath(path);
    assert forall i :: 0 <= i < |path.rels| ==> r.rels[i].properties == path.rels[i].properties;
    if x :| x in path.rels && x.properties != [] {
      var i :| 0 <= i < |path.rels| && path.rels[i] == x;
      assert r.rels[i] in r.rels;
    }
    if x :| x in r.rels && x.properties != [] {
      var i :| 0 <= i < |r.rels| && r.rels[i] == x;
      assert path.rels[i] in path.rels;
    }
  }

  function RereadPaths(paths: seq<PatternPath>): (r: seq<PatternPath>)
    ensures |r| == |paths|
    ensures (forall p :: p in paths ==> p.Valid()) ==> forall p :: p in r ==> p.Valid()
  {
    if paths == [] then [] else [RereadPath(paths[0])] + RereadPaths(paths[1..])
  }

  predicate PathsOk(paths: seq<PatternPath>) {
    forall p :: p in paths ==> PathOk(p)
  }

  predicate NoRelProps(paths: seq<PatternPath>) {
    forall p :: p in paths ==> !HasRelProps(p)
  }

  lemma {:induction false} ReadPaths(sp: Spelling, write: bool, paths: seq<PatternPath>, k: Pieces)
    requires paths != [] && PathsOk(paths) && (write ==> NoRelProps(paths))
    requires forall p :: p in paths ==> p.Valid()
    requires PathEnds(TokensOf(k)) && !At(TokensOf(k), Comma)
    ensures ParsePaths(write, TokensOf(ShowPaths(sp, paths, k))) == Ok(Parsed(RereadPaths(paths), TokensOf(k)))
    decreases |paths|
  {
    hide TokensOf, ShowPath, ParsePath, PathOk, RereadPath, HasRelProps;
    var tail := if |paths| == 1 then k else Sign(Comma, Gap(ShowPaths(sp, paths[1..], k)));
    if |paths| > 1 {
      PutTokens(Sym(Comma), Gap(ShowPaths(sp, paths[1..], k)));
      PutTokens(Sym(Comma), ShowPaths(sp, paths[1..], k));
    }
    assert paths[0] in paths;
    RereadProps(paths[0]);
    ReadPath(sp, paths[0], tail);
    if |paths| == 1 {
      assert RereadPaths(paths) == [RereadPath(paths[0])] + RereadPaths(paths[1..]) == [RereadPath(paths[0])];
    } else {
      ReadPaths(sp, write, paths[1..], k);
    }
  }

  // ---- no token runs into the next ----------------------------------------------------------------------------

  /** A name stands apart from what follows. */
  predicate AfterName(k: Pieces) {
    Clean(k) && (k.Put? ==> k.token.Sym?)
  }

  lemma NamePut(t: Token, k: Pieces)
    requires IsToken(t) && (t.Identifier? || t.Keyword?) && AfterName(k)
    ensures Clean(Put(t, k))
  {
    hide IsToken, IsPlain, IsKeyword;
  }

  lemma NamesClean(name: string, k: Pieces)
    requires name != "" && AfterName(k)
    ensures Clean(Name(name, k)) && Clean(Ident(name, k))
  {
    hide IsToken, IsPlain, IsKeyword, AfterName, UpperAll;
    NameIsToken(name);
    IdentifierIsToken(name);
    NamePut(NameToken(name), k);
    NamePut(Identifier(name), k);
  }

  lemma SignAfter(s: Symbol, k: Pieces)
    requires Clean(k) && IsPlainToken(Sym(s))
    ensures AfterName(Sign(s, k))
  {
    SignClean(s, k);
  }

  lemma GapAfter(k: Pieces)
    requires Clean(k)
    ensures AfterName(Gap(k)) && Tidy(Gap(k))
  {
  }

  lemma {:induction false} PropertiesClean(sp: Spelling, properties: seq<Property>, k: Pieces)
    requires (forall i :: 0 <= i < |properties| ==> properties[i].key != "") && Tidy(k)
    ensures Clean(ShowProperties(sp, properties, k))
    decreases |properties|
  {
    hide Clean, Closes, ShowScalar, NameToken;
    if properties != [] {
      var tail := if |properties| == 1 then k else Sign(Comma, Gap(ShowProperties(sp, properties[1..], k)));
      if |properties| > 1 {
        PropertiesClean(sp, properties[1..], k);
        CommaTidy(ShowProperties(sp, properties[1..], k));
      }
      ScalarClean(sp, properties[0].value, tail);
      KeyClean(properties[0].key, ShowScalar(sp, properties[0].value, tail));
    }
  }

  lemma OptionalPropsClean(sp: Spelling, properties: seq<Property>, s: Symbol, k: Pieces)
    requires PropertiesOk(properties) && s in {RParen, RBracket} && Clean(k)
    ensures AfterName(ShowOptionalProps(sp, properties, Sign(s, k))) && Tidy(ShowOptionalProps(sp, properties, Sign(s, k)))
  {
    hide Clean, ShowProperties;
    SignClean(s, k);
    SignAfter(s, k);
    if properties != [] {
      SignClean(RBrace, Sign(s, k));
      PropertiesClean(sp, properties, Sign(RBrace, Sign(s, k)));
      SignClean(LBrace, ShowProperties(sp, properties, Sign(RBrace, Sign(s, k))));
      GapAfter(ShowPropMap(sp, properties, Sign(s, k)));
    }
  }

  lemma {:induction false} SegmentsClean(sp: Spelling, segments: seq<string>, k: Pieces)
    requires segments != [] && "" !in segments && AfterName(k)
    ensures Clean(ShowSegments(sp, segments, k))
    decreases |segments|
  {
    hide Clean, NameToken;
    assert segments[0] in segments;
    if |segments| == 1 {
      NamesClean(segments[0], k);
    } else {
      SegmentsClean(sp, segments[1..], k);
      SignAfter(Dot, ShowSegments(sp, segments[1..], k));
      NamesClean(segments[0], Sign(Dot, ShowSegments(sp, segments[1..], k)));
    }
  }

  lemma LabelClean(sp: Spelling, labelName: string, k: Pieces)
    requires labelName != "" && AfterName(k)
    ensures Clean(ShowLabel(sp, labelName, k))
  {
    hide Clean, AfterName, ShowSegments, Segments;
    if "" in Segments(labelName) {
      NamesClean(labelName, k);
    } else {
      SegmentsClean(sp, Segments(labelName), k);
    }
  }

  lemma VariableClean(sp: Spelling, variable: Option<string>, k: Pieces)
    requires Named(variable) && AfterName(k)
    ensures Clean(ShowVariable(sp, variable, k))
  {
    if variable.Some? {
      NamesClean(variable.value, k);
    }
  }

  lemma NodeClean(sp: Spelling, node: NodePattern, k: Pieces)
    requires NodeOk(node) && Clean(k)
    ensures Clean(ShowNode(sp, node, k)) && ShowNode(sp, node, k).Put? && ShowNode(sp, node, k).token == Sym(LParen)
  {
    hide Clean, AfterName, Tidy, ShowVariable, ShowLabel, ShowPropMap, PropertiesOk;
    var props := ShowOptionalProps(sp, node.properties, Sign(RParen, k));
    OptionalPropsClean(sp, node.properties, RParen, k);
    var labelled := if node.labelName.None? then props else Sign(Colon, ShowLabel(sp, node.labelName.value, props));
    if node.labelName.Some? {
      LabelClean(sp, node.labelName.value, props);
      SignAfter(Colon, ShowLabel(sp, node.labelName.value, props));
    }
    VariableClean(sp, node.variable, labelled);
    SignClean(LParen, ShowVariable(sp, node.variable, labelled));
  }

  lemma CountClean(n: nat, k: Pieces)
    requires Clean(k) && (k.Range? || Tidy(k))
    ensures Clean(Count(n, k))
  {
    hide Digits;
    CountIsToken(n);
  }

  lemma HopsClean(sp: Spelling, rel: RelPattern, k: Pieces)
    requires Tidy(k)
    ensures AfterName(ShowHops(sp, rel, k))
  {
    hide Clean, Closes, Count;
    var min := AtLeast(rel);
    RangeClean(k);
    CountClean(min, k);
    CountClean(min, Range(k));
    if rel.maxHops.Some? {
      CountClean(rel.maxHops.value, k);
      RangeClean(Count(rel.maxHops.value, k));
      CountClean(min, Range(Count(rel.maxHops.value, k)));
    }
    var upTo := if rel.maxHops.None? then k else Count(rel.maxHops.value, k);
    CountClean(min, Range(upTo));
    var rest := if sp.ranged(rel) then OpenStart(min, Range(upTo))
                else if rel.maxHops.None? then (if min == 1 then k else Count(min, Range(k)))
                else if rel.maxHops.value == min then Count(min, k)
                else Count(min, Range(Count(rel.maxHops.value, k)));
    SignAfter(Star, rest);
  }

  lemma RangeClean(k: Pieces)
    requires Clean(k)
    ensures Clean(Range(k))
  {
  }

  /** A relationship's line: after the detail comes another line or arrow. */
  lemma DetailClean(sp: Spelling, rel: RelPattern, s: Symbol, k: Pieces)
    requires RelOk(rel) && s in {Dash, ArrowRight} && Clean(Sign(s, k))
    ensures Clean(ShowDetail(sp, rel, Sign(s, k)))
    ensures ShowDetail(sp, rel, Sign(s, k)).Put? && ShowDetail(sp, rel, Sign(s, k)).token in {Sym(LBracket), Sym(s)}
  {
    hide Clean, AfterName, Tidy, ShowVariable, ShowHops, ShowPropMap, NameToken, PropertiesOk, HopsOk;
    if HasDetail(rel) || sp.bracketed(rel) {
      var props := ShowOptionalProps(sp, rel.properties, Sign(RBracket, Sign(s, k)));
      OptionalPropsClean(sp, rel.properties, RBracket, Sign(s, k));
      var hops := if rel.IsVariableLength() then ShowHops(sp, rel, props) else props;
      HopsClean(sp, rel, props);
      var typed := if rel.relType.None? then hops else Sign(Colon, Name(rel.relType.value, hops));
      if rel.relType.Some? {
        NamesClean(rel.relType.value, hops);
        SignAfter(Colon, Name(rel.relType.value, hops));
      }
      VariableClean(sp, rel.variable, typed);
      SignClean(LBracket, ShowVariable(sp, rel.variable, typed));
    }
  }

  lemma LineClean(s: Symbol, k: Pieces)
    requires Clean(k) && k.Put? && k.token in {Sym(LParen), Sym(LBracket), Sym(Dash), Sym(ArrowRight)}
    ensures s in {Dash, ArrowLeft, ArrowRight} ==> Clean(Sign(s, k))
  {
  }

  lemma RelClean(sp: Spelling, rel: RelPattern, k: Pieces)
    requires RelOk(rel) && Clean(k) && k.Put? && k.token == Sym(LParen)
    ensures Clean(ShowRel(sp, rel, k))
  {
    hide Clean, ShowDetail, RelOk;
    var s := if rel.direction.Outgoing? then ArrowRight else Dash;
    LineClean(s, k);
    DetailClean(sp, rel, s, k);
    LineClean(if rel.direction.Incoming? then ArrowLeft else Dash, ShowDetail(sp, rel, Sign(s, k)));
  }

  lemma {:induction false} StepsClean(sp: Spelling, path: PatternPath, i: nat, k: Pieces)
    requires PathOk(path) && i <= |path.rels| && Clean(k)
    ensures Clean(ShowSteps(sp, path, i, k))
    decreases |path.rels| - i
  {
    hide Clean, ShowRel, ShowNode, NodeOk, RelOk;
    if i < |path.rels| {
      var more := ShowSteps(sp, path, i + 1, k);
      StepsClean(sp, path, i + 1, k);
      NodeClean(sp, path.nodes[i + 1], more);
      RelClean(sp, path.rels[i], ShowNode(sp, path.nodes[i + 1], more));
    }
  }

  lemma PathClean(sp: Spelling, path: PatternPath, k: Pieces)
    requires PathOk(path) && Clean(k)
    ensures Clean(ShowPath(sp, path, k))
  {
    hide Clean, ShowNode, ShowSteps, NodeOk, RelOk;
    StepsClean(sp, path, 0, k);
    NodeClean(sp, path.nodes[0], ShowSteps(sp, path, 0, k));
    var nodes := ShowNode(sp, path.nodes[0], ShowSteps(sp, path, 0, k));
    if path.pathVariable.Some? {
      SpacedClean(EqSign, nodes);
      NameClean(path.pathVariable.value, Gap(Sign(EqSign, Gap(nodes))));
    }
  }

  lemma {:induction false} PathsClean(sp: Spelling, paths: seq<PatternPath>, k: Pieces)
    requires PathsOk(paths) && (forall p :: p in paths ==> p.Valid()) && Clean(k)
    ensures Clean(ShowPaths(sp, paths, k))
    decreases |paths|
  {
    hide Clean, ShowPath, PathOk;
    if paths != [] {
      assert paths[0] in paths;
      if |paths| == 1 {
        PathClean(sp, paths[0], k);
      } else {
        PathsClean(sp, paths[1..], k);
        CommaTidy(ShowPaths(sp, paths[1..], k));
        TidyIsClean(Sign(Comma, Gap(ShowPaths(sp, paths[1..], k))));
        PathClean(sp, paths[0], Sign(Comma, Gap(ShowPaths(sp, paths[1..], k))));
      }
    }
  }
}
