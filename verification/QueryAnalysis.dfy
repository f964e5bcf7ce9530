/** The parts a query text falls into, and the analysis of whole documents. */
module QueryAnalysis {
  import opened Wrappers
  import opened QueryTypes
  import opened Scanners
  import opened SelectScopes
  import opened Identifiers
  import opened QueryText
  import opened QueryParts
  import opened ScopeAnalysis

  /** The two relation patterns, the test whether a comma continues a FROM list, the catalog, the output
      columns of a body, template replacement, and the text functions of the standard library. */
  datatype Oracles = Oracles(
    relationMatches: string -> seq<Match>,
    commaMatches: string -> seq<Match>,
    commaInFrom: (string, nat) -> bool,
    relationColumns: string -> seq<Column>,
    tableFunctionColumns: string -> seq<Column>,
    outputs: (string, Analysis, nat) -> (seq<Column>, map<string, (nat, nat)>),
    replacement: Replacement,
    trim: string -> string,
    lower: string -> string,
    upper: string -> string,
    dialect: string)

  /** Matches lie in the text that is matched. */
  ghost predicate MatchesIn(o: Oracles) {
    && (forall text, m :: m in o.relationMatches(text) ==> MatchIn(m, |text|))
    && (forall text, m :: m in o.commaMatches(text) ==> MatchIn(m, |text|))
  }

  // ----- Identifier keys -----

  predicate IgnoresCase(dialect: string) {
    dialect == "duckdb" || dialect == "sqlite" || dialect == "tsql" || dialect == ""
  }

  /** The key of an identifier: quotes decoded, and case folded as the dialect does. */
  function Key(o: Oracles, written: string): string {
    var identifier := o.trim(written);
    var quoted := |identifier| > 1 && (identifier[0] == '"' || identifier[0] == '`');
    var decoded := if quoted && Identifier(identifier, 0).1 == |identifier| then Identifier(identifier, 0).0 else identifier;
    if IgnoresCase(o.dialect) then o.lower(decoded)
    else if quoted then decoded
    else if o.dialect == "snowflake" || o.dialect == "oracle" then o.upper(decoded)
    else o.lower(decoded)
  }

  /** A quoted identifier stands for exactly its name in the dialects that respect case, and for its
      name up to case in the others, whatever characters it has. */
  lemma KeyOfQuoted(o: Oracles, name: string, q: char)
    requires (q == '"' || q == '`') && o.trim(Enquoted(name, q)) == Enquoted(name, q)
    ensures Key(o, Enquoted(name, q)) == if o.dialect in ["duckdb", "sqlite", "tsql", ""] then o.lower(name) else name
  {
    QuotedIdentifierRoundTrip(name, q, "");
    assert Enquoted(name, q) + "" == Enquoted(name, q);
  }

  /** A bare identifier stands for its name in upper case in Snowflake and Oracle, and in lower case in every other
      dialect. */
  lemma KeyOfBare(o: Oracles, name: string)
    requires o.trim(name) == name && (name == "" || (name[0] != '"' && name[0] != '`'))
    ensures Key(o, name) == if o.dialect == "snowflake" || o.dialect == "oracle" then o.upper(name) else o.lower(name)
  {
  }

  // ----- Candidates -----

  predicate InCode(text: string, offset: nat)
    requires offset <= |text|
  {
    Settled(Lex(text, |text|, offset)) == Code
  }

  /** A match counts if it is in code and, for a comma, if the comma continues a FROM list. */
  function Keeper(text: string, scan: string, o: Oracles): Match -> bool {
    (m: Match) => m.nameStart <= |text| && (m.comma.Some? ==> o.commaInFrom(scan, m.comma.value)) && InCode(text, m.nameStart)
  }

  function Select(keep: Match -> bool, ms: seq<Match>): seq<Match> {
    if ms == [] then [] else Select(keep, ms[..|ms| - 1]) + if keep(ms[|ms| - 1]) then [ms[|ms| - 1]] else []
  }

  lemma {:induction false} SelectMembers(keep: Match -> bool, ms: seq<Match>, m: Match)
    ensures m in Select(keep, ms) <==> m in ms && keep(m)
  {
    if ms != [] {
      SelectMembers(keep, ms[..|ms| - 1], m);
      assert ms == ms[..|ms| - 1] + [ms[|ms| - 1]];
    }
  }

  /** Places `m` behind every match that does not start later. */
  function Insert(m: Match, sorted: seq<Match>): seq<Match> {
    if sorted == [] || sorted[|sorted| - 1].nameStart <= m.nameStart then sorted + [m]
    else Insert(m, sorted[..|sorted| - 1]) + [sorted[|sorted| - 1]]
  }

  /** The stable sort by position. */
  function Sorted(ms: seq<Match>): seq<Match> {
    if ms == [] then [] else Insert(ms[|ms| - 1], Sorted(ms[..|ms| - 1]))
  }

  ghost predicate Ordered(ms: seq<Match>) {
    forall i, j :: 0 <= i < j < |ms| ==> ms[i].nameStart <= ms[j].nameStart
  }

  lemma {:induction false} InsertPermutes(m: Match, sorted: seq<Match>)
    ensures multiset(Insert(m, sorted)) == multiset(sorted) + multiset{m}
  {
    if sorted != [] && sorted[|sorted| - 1].nameStart > m.nameStart {
      var shorter := sorted[..|sorted| - 1];
      InsertPermutes(m, shorter);
      assert sorted == shorter + [sorted[|sorted| - 1]];
    }
  }

  lemma {:induction false} InsertOrders(m: Match, sorted: seq<Match>, bound: nat)
    requires Ordered(sorted) && m.nameStart <= bound && forall i :: 0 <= i < |sorted| ==> sorted[i].nameStart <= bound
    ensures Ordered(Insert(m, sorted)) && forall i :: 0 <= i < |Insert(m, sorted)| ==> Insert(m, sorted)[i].nameStart <= bound
  {
    if sorted != [] && sorted[|sorted| - 1].nameStart > m.nameStart {
      InsertOrders(m, sorted[..|sorted| - 1], sorted[|sorted| - 1].nameStart);
    }
  }

  /** At each position the matches keep their order. */
  lemma {:induction false} InsertIsStable(m: Match, sorted: seq<Match>, at: Match -> bool)
    requires forall x, y :: at(x) && at(y) ==> x.nameStart == y.nameStart
    ensures Select(at, Insert(m, sorted)) == Select(at, sorted) + if at(m) then [m] else []
  {
    if sorted != [] && sorted[|sorted| - 1].nameStart > m.nameStart {
      InsertIsStable(m, sorted[..|sorted| - 1], at);
      var last := sorted[|sorted| - 1];
      assert (Insert(m, sorted[..|sorted| - 1]) + [last])[..|Insert(m, sorted[..|sorted| - 1])|] == Insert(m, sorted[..|sorted| - 1]);
      assert at(last) && at(m) ==> last.nameStart == m.nameStart;
    } else {
      assert (sorted + [m])[..|sorted|] == sorted;
    }
  }

  lemma {:induction false} SortedPermutes(ms: seq<Match>)
    ensures multiset(Sorted(ms)) == multiset(ms)
  {
    if ms != [] {
      var shorter, last := ms[..|ms| - 1], ms[|ms| - 1];
      SortedPermutes(shorter);
      InsertPermutes(last, Sorted(shorter));
      assert ms == shorter + [last];
    }
  }

  lemma {:induction false} SortedOrders(ms: seq<Match>, bound: nat)
    requires forall m :: m in ms ==> m.nameStart <= bound
    ensures Ordered(Sorted(ms)) && forall i :: 0 <= i < |Sorted(ms)| ==> Sorted(ms)[i].nameStart <= bound
  {
    if ms != [] {
      SortedOrders(ms[..|ms| - 1], bound);
      InsertOrders(ms[|ms| - 1], Sorted(ms[..|ms| - 1]), bound);
    }
  }

  lemma {:induction false} SortedIsStable(ms: seq<Match>, at: Match -> bool)
    requires forall x, y :: at(x) && at(y) ==> x.nameStart == y.nameStart
    ensures Select(at, Sorted(ms)) == Select(at, ms)
  {
    if ms != [] {
      SortedIsStable(ms[..|ms| - 1], at);
      InsertIsStable(ms[|ms| - 1], Sorted(ms[..|ms| - 1]), at);
    }
  }

  function Candidates(text: string, o: Oracles): seq<Match> {
    var scan := Masked(text);
    Sorted(Select(Keeper(text, scan, o), o.relationMatches(scan) + o.commaMatches(scan)))
  }

  /** The candidates of a text stand in order of position. */
  lemma CandidatesOrdered(text: string, o: Oracles)
    requires MatchesIn(o)
    ensures Ordered(Candidates(text, o))
  {
    var scan := Masked(text);
    var kept := Select(Keeper(text, scan, o), o.relationMatches(scan) + o.commaMatches(scan));
    forall m | m in kept
      ensures m.nameStart <= |text|
    {
      SelectMembers(Keeper(text, scan, o), o.relationMatches(scan) + o.commaMatches(scan), m);
    }
    SortedOrders(kept, |text|);
  }

  lemma CandidatesAreKept(text: string, o: Oracles, m: Match)
    ensures m in Candidates(text, o) <==>
            (m in o.relationMatches(Masked(text)) || m in o.commaMatches(Masked(text))) && Keeper(text, Masked(text), o)(m)
  {
    var scan := Masked(text);
    var keep := Keeper(text, scan, o);
    var all := o.relationMatches(scan) + o.commaMatches(scan);
    SelectMembers(keep, all, m);
    SortedMembers(Select(keep, all), m);
  }

  lemma KeptIff(text: string, scan: string, o: Oracles, m: Match)
    ensures Keeper(text, scan, o)(m) <==>
            && (m.comma.Some? ==> o.commaInFrom(scan, m.comma.value))
            && m.nameStart <= |text| && Settled(Lex(text, |text|, m.nameStart)) == Code
  {
    var keep := Keeper(text, scan, o);
    assert keep(m) <==> m.nameStart <= |text| && (m.comma.Some? ==> o.commaInFrom(scan, m.comma.value)) && InCode(text, m.nameStart);
  }

  /** The candidates are exactly the matches in the masked text that lie in code and, for a comma, continue a FROM list. */
  lemma CandidatesMeaning(text: string, o: Oracles, m: Match)
    ensures m in Candidates(text, o) <==>
            && (m in o.relationMatches(Masked(text)) || m in o.commaMatches(Masked(text)))
            && (m.comma.Some? ==> o.commaInFrom(Masked(text), m.comma.value))
            && m.nameStart <= |text| && Settled(Lex(text, |text|, m.nameStart)) == Code
  {
    CandidatesAreKept(text, o, m);
    KeptIff(text, Masked(text), o, m);
  }

  lemma SortedMembers(ms: seq<Match>, m: Match)
    ensures m in Sorted(ms) <==> m in ms
  {
    SortedPermutes(ms);
    assert m in multiset(ms) <==> m in multiset(Sorted(ms));
  }

  // ----- What a candidate is -----

  predicate IsKeywordHere(o: Oracles, word: string) {
    IsKeyword(o.lower(word))
  }

  function AfterLastDot(name: string): (r: nat)
    ensures r <= |name|
  {
    if name == "" || name[|name| - 1] == '.' then |name| else AfterLastDot(name[..|name| - 1])
  }

  function TrimQuotes(s: string): string {
    if s != "" && IsQuote(s[0]) then TrimQuotes(s[1..])
    else if s != "" && IsQuote(s[|s| - 1]) then TrimQuotes(s[..|s| - 1])
    else s
  }

  function ShortName(name: string): string {
    TrimQuotes(name[AfterLastDot(name)..])
  }

  predicate CallFollows(text: string, end: nat) {
    var i := SkipSpace(text, end);
    i < |text| && text[i] == '('
  }

  /** The alias of a relation: written with AS, written behind the name, or the last part of the name. A
      keyword is no alias. */
  function AliasOf(text: string, m: Match, name: string, o: Oracles): (r: (string, nat, nat))
    requires MatchIn(m, |text|)
    ensures m.nameStart <= r.1 < r.2 <= |text|
  {
    if m.alias.Some? then
      var (start, end) := m.alias.value;
      if IsKeywordHere(o, text[start..end]) then (ShortName(name), m.nameStart, m.nameEnd) else (text[start..end], start, end)
    else
      var start := SkipSpace(text, m.nameEnd);
      var (word, end) := Identifier(text, start);
      SpaceSkipped(text, m.nameEnd);
      if word == "" || IsKeywordHere(o, word) then (ShortName(name), m.nameStart, m.nameEnd) else (text[start..end], start, end)
  }

  function UseAt(text: string, m: Match, o: Oracles): (u: Use)
    requires MatchIn(m, |text|)
    ensures u.Relation? ==> u.name == Normalized(text[m.nameStart..m.nameEnd]) && u.name != "" && u.aliasStart < u.aliasEnd <= |text|
  {
    var name := Normalized(text[m.nameStart..m.nameEnd]);
    if name == "" || IsKeywordHere(o, name) then Skipped
    else if CallFollows(text, m.nameEnd) then TableFunction(name, ShortName(name))
    else
      var (alias, start, end) := AliasOf(text, m, name, o);
      Relation(name, alias, start, end)
  }

  // ----- The parts -----

  function PartsOf(o: Oracles): Parts {
    Parts(
      text => Prepared(text, o.replacement),
      text => Ctes(text),
      text => Candidates(text, o),
      (text, m) => if MatchIn(m, |text|) then UseAt(text, m, o) else Skipped,
      text => Subqueries(text, o.lower),
      written => Key(o, written),
      o.lower,
      o.relationColumns,
      o.tableFunctionColumns,
      o.outputs)
  }

  /** How the parts of a text are found. */
  lemma PartsMeaning(o: Oracles, text: string, m: Match)
    ensures PartsOf(o).prepare(text) == Prepared(text, o.replacement) && PartsOf(o).key(text) == Key(o, text)
    ensures PartsOf(o).ctes(text) == Ctes(text) && PartsOf(o).subqueries(text) == Subqueries(text, o.lower) && PartsOf(o).candidates(text) == Candidates(text, o)
    ensures MatchIn(m, |text|) ==> PartsOf(o).use(text, m) == UseAt(text, m, o)
    ensures PartsOf(o).relationColumns == o.relationColumns && PartsOf(o).tableFunctionColumns == o.tableFunctionColumns && PartsOf(o).outputs == o.outputs
  {
  }

  lemma CtesSound(text: string)
    ensures CtesIn(text, Ctes(text))
  {
    var ctes := Ctes(text);
    CtesMeaning(text, ctes);
    forall k | 0 <= k < |ctes|
      ensures CteIn(text, ctes[k])
    {
      assert IsDefinition(text, ctes[k]);
    }
  }

  lemma CandidateSound(text: string, o: Oracles, m: Match)
    requires MatchesIn(o) && m in Candidates(text, o)
    ensures MatchIn(m, |text|)
  {
    CandidatesMeaning(text, o, m);
    assert MatchIn(m, |Masked(text)|);
  }

  lemma SubquerySound(text: string, lower: Lowering, s: Subquery)
    requires s in Subqueries(text, lower)
    ensures SubqueryIn(text, s)
  {
    SubqueriesMeaning(text, lower, s);
  }

  /** The parts of a text lie in it, and every body that is analyzed on its own is strictly shorter. */
  lemma PartsSound(o: Oracles)
    requires MatchesIn(o)
    ensures Sound(PartsOf(o))
  {
    var p := PartsOf(o);
    forall text
      ensures |p.prepare(text)| == |text|
    {
      PreparingMovesNothing(text, o.replacement);
    }
    forall text
      ensures CtesIn(text, p.ctes(text))
    {
      CtesSound(text);
    }
    forall text, m | m in p.candidates(text)
      ensures MatchIn(m, |text|)
    {
      CandidateSound(text, o, m);
    }
    forall text, s | s in p.subqueries(text)
      ensures SubqueryIn(text, s)
    {
      SubquerySound(text, o.lower, s);
    }
  }

  function Normalizer(): string -> string {
    s => Normalized(s)
  }

  lemma PartsNormalize(o: Oracles)
    ensures NamesNormalized(PartsOf(o), Normalizer())
  {
  }

  lemma TemplateFreeUntouched(o: Oracles, doc: string)
    requires TemplateFree(doc)
    ensures Untouched(PartsOf(o), doc)
  {
    var p := PartsOf(o);
    forall s: string, i: nat | Reads(doc, i, s)
      ensures p.prepare(s) == s
    {
      SliceTemplateFree(doc, i, i + |s|);
      PreparingMovesNothing(s, o.replacement);
    }
  }

  // ----- Whole documents -----

  /** The relations recorded for a document, those of all nested queries included. */
  ghost function DocumentRelations(o: Oracles, doc: string): seq<RelationUse>
    requires MatchesIn(o)
  {
    PartsSound(o);
    Relations(PartsOf(o), doc, 0)
  }

  /** For a document without template calls, every relation recorded at any depth has a range inside the
      document, and the text of the document there normalizes to the recorded name. */
  lemma RecordedRangesAreTrue(o: Oracles, doc: string, r: RelationUse)
    requires MatchesIn(o) && TemplateFree(doc) && r in DocumentRelations(o, doc)
    ensures 0 <= r.start < r.end <= |doc| && Normalized(doc[r.start..r.end]) == r.name
  {
    PartsSound(o);
    PartsNormalize(o);
    TemplateFreeUntouched(o, doc);
    assert doc[0..0 + |doc|] == doc;
    RelationsFaithful(PartsOf(o), doc, doc, 0, Normalizer(), r);
  }

  /** The prepared text of the document or of a query nested in it, at `at` in the document. */
  ghost predicate IsScopeOf(o: Oracles, doc: string, text: string, at: nat)
    requires MatchesIn(o)
  {
    PartsSound(o);
    IsScope(PartsOf(o), doc, 0, text, at)
  }

  lemma NamedByItsText(o: Oracles, text: string, m: Match)
    requires MatchIn(m, |text|) && PartsOf(o).use(text, m).Relation?
    ensures PartsOf(o).use(text, m).name == Normalized(text[m.nameStart..m.nameEnd])
  {
    assert PartsOf(o).use(text, m) == UseAt(text, m, o);
  }

  lemma NamedInPlace(text: string, m: Match, at: nat, r: RelationUse)
    requires MatchIn(m, |text|) && r == RelationUse(Normalized(text[m.nameStart..m.nameEnd]), at + m.nameStart, at + m.nameEnd)
    ensures at <= r.start < r.end <= at + |text| && Normalized(text[r.start - at..r.end - at]) == r.name
  {
    assert r.start - at == m.nameStart && r.end - at == m.nameEnd;
  }

  lemma ScopeOfRelation(o: Oracles, doc: string, r: RelationUse) returns (text: string, at: nat, m: Match)
    requires MatchesIn(o) && r in DocumentRelations(o, doc)
    ensures IsScopeOf(o, doc, text, at) && at + |text| <= |doc|
    ensures MatchIn(m, |text|) && PartsOf(o).use(text, m).Relation?
    ensures r == RelationUse(PartsOf(o).use(text, m).name, at + m.nameStart, at + m.nameEnd)
  {
    PartsSound(o);
    text, at, m := RecordedInSomeScope(PartsOf(o), doc, 0, r);
    ScopeInside(PartsOf(o), doc, 0, text, at);
  }

  /** For every document: a recorded relation lies in some scope, and the prepared text of that scope normalizes
      there to the recorded name. */
  lemma RecordedRangesAreTrueOfTheirScope(o: Oracles, doc: string, r: RelationUse) returns (text: string, at: nat)
    requires MatchesIn(o) && r in DocumentRelations(o, doc)
    ensures IsScopeOf(o, doc, text, at) && at <= r.start < r.end <= at + |text| <= |doc|
    ensures Normalized(text[r.start - at..r.end - at]) == r.name
  {
    var m;
    text, at, m := ScopeOfRelation(o, doc, r);
    NamedByItsText(o, text, m);
    NamedInPlace(text, m, at, r);
  }

  /** For a document with template calls, the same holds of the prepared text, which has the same length,
      when preparing it leaves no call. */
  lemma RecordedRangesAreTrueOfPrepared(o: Oracles, doc: string, r: RelationUse)
    requires MatchesIn(o) && TemplateFree(Prepared(doc, o.replacement)) && r in DocumentRelations(o, doc)
    ensures |Prepared(doc, o.replacement)| == |doc| && 0 <= r.start < r.end <= |doc|
    ensures Normalized(Prepared(doc, o.replacement)[r.start..r.end]) == r.name
  {
    var text := Prepared(doc, o.replacement);
    PreparingMovesNothing(doc, o.replacement);
    PreparingMovesNothing(text, o.replacement);
    PartsSound(o);
    PreparedTwice(PartsOf(o), doc, 0);
    RecordedRangesAreTrue(o, text, r);
  }

  lemma PreparedTwice(p: Parts, sql: string, base: nat)
    requires Sound(p) && p.prepare(p.prepare(sql)) == p.prepare(sql)
    ensures Relations(p, p.prepare(sql), base) == Relations(p, sql, base)
  {
    SubqueriesShorter(p, sql);
    SubqueriesShorter(p, p.prepare(sql));
  }

  /** The analysis of a whole document. */
  method AnalyzeSQL(doc: string, o: Oracles) returns (a: Analysis)
    requires MatchesIn(o)
    ensures a.relations == DocumentRelations(o, doc)
    ensures forall r :: r in a.relations ==> 0 <= r.start < r.end <= |doc|
    ensures TemplateFree(doc) ==> forall r :: r in a.relations ==> 0 <= r.start < r.end <= |doc| && Normalized(doc[r.start..r.end]) == r.name
    ensures InDocument(a, |doc|) && a.aliases.Keys == a.locals
    ensures forall k: nat, key :: OwnUse(PartsOf(o), PartsOf(o).prepare(doc), k, key) ==> UseStands(PartsOf(o), a, PartsOf(o).prepare(doc), 0, k, key)
    ensures forall k: nat, key :: OwnSubquery(PartsOf(o), PartsOf(o).prepare(doc), k, key) ==> SubqueryStands(PartsOf(o), a, PartsOf(o).prepare(doc), 0, k, key)
    ensures AllSeeEarlier(PartsOf(o), map[], a.ctes, PartsOf(o).ctes(PartsOf(o).prepare(doc)), 0)
  {
    PartsSound(o);
    a := Analyze(PartsOf(o), doc, None, 0, |doc|);
    forall r | r in a.relations
      ensures 0 <= r.start < r.end <= |doc|
    {
      RelationsInside(PartsOf(o), doc, 0, r);
    }
    if TemplateFree(doc) {
      forall r | r in a.relations
        ensures Normalized(doc[r.start..r.end]) == r.name
      {
        RecordedRangesAreTrue(o, doc, r);
      }
    }
  }
}
