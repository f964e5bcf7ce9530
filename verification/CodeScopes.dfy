/** Which recorded relations stand in code: subqueries are looked for in strings and comments too. */
module CodeScopes {
  import opened Wrappers
  import opened QueryTypes
  import opened Scanners
  import opened SelectScopes
  import opened Identifiers
  import opened QueryText
  import opened QueryParts
  import opened ScopeAnalysis
  import opened QueryAnalysis
  import opened Parentheses

  // ----- Scopes in code -----

  /** The body of a subquery whose parenthesis stands in code. */
  ghost predicate OpenedInCode(sql: string, s: Subquery) {
    && 1 <= s.bodyStart <= |sql| && |s.body| < |sql|
    && Lex(sql, |sql|, s.bodyStart - 1) == Code
  }

  /** A scope on the way to which every parenthesis stands in code. */
  ghost predicate IsCodeScope(p: Parts, sql: string, base: nat, text: string, at: nat)
    requires Sound(p)
    decreases |sql|
  {
    SubqueriesShorter(p, sql);
    || (text == p.prepare(sql) && at == base)
    || exists s :: s in p.subqueries(p.prepare(sql)) && OpenedInCode(p.prepare(sql), s) && IsCodeScope(p, s.body, base + s.bodyStart, text, at)
  }

  lemma {:induction false} CodeScopeIsScope(p: Parts, sql: string, base: nat, text: string, at: nat)
    requires Sound(p) && IsCodeScope(p, sql, base, text, at)
    ensures IsScope(p, sql, base, text, at)
    decreases |sql|
  {
    if !(text == p.prepare(sql) && at == base) {
      SubqueriesShorter(p, sql);
      var s :| s in p.subqueries(p.prepare(sql)) && OpenedInCode(p.prepare(sql), s) && IsCodeScope(p, s.body, base + s.bodyStart, text, at);
      CodeScopeIsScope(p, s.body, base + s.bodyStart, text, at);
      ScopeOfBody(p, sql, base, s, text, at);
    }
  }

  ghost predicate LexedAlikeAt(doc: string, at: nat, text: string, j: nat) {
    at + j <= |doc| && j <= |text| && Lex(doc, |doc|, at + j) == Lex(text, |text|, j)
  }

  /** From `at` on, the scan of the document reads the text as a scan of the text alone does. */
  ghost predicate LexedAlike(doc: string, at: nat, text: string) {
    forall j: nat :: j <= |text| ==> LexedAlikeAt(doc, at, text, j)
  }

  lemma BodyLexedAlike(doc: string, base: nat, sql: string, open: nat, close: nat, body: string, at: nat)
    requires LexedAlike(doc, base, sql) && Parens(sql, open, close) && body == sql[open + 1..close] && Lex(sql, |sql|, open) == Code
    requires at == base + open + 1
    ensures LexedAlike(doc, at, body)
  {
    forall j: nat | j <= |body|
      ensures LexedAlikeAt(doc, at, body, j)
    {
      assert LexedAlikeAt(doc, base, sql, open + 1 + j);
      LexInside(sql, open, close, body, j);
    }
  }

  ghost predicate BodyInParens(text: string, s: Subquery) {
    && 1 <= s.bodyStart && Parens(text, s.bodyStart - 1, s.bodyStart + |s.body|)
    && s.body == text[s.bodyStart..s.bodyStart + |s.body|]
  }

  ghost predicate BodiesInParens(p: Parts) {
    forall text, s :: s in p.subqueries(text) ==> BodyInParens(text, s)
  }

  lemma SubqueryInParens(text: string, lower: Lowering, s: Subquery)
    requires s in Subqueries(text, lower)
    ensures BodyInParens(text, s)
  {
    SubqueriesMeaning(text, lower, s);
    QueryBodyInParens(text, s);
  }

  lemma QueryBodyInParens(text: string, s: Subquery)
    requires 1 <= s.bodyStart <= |text| && Reads(text, s.bodyStart, s.body) && text[s.bodyStart - 1] == '('
    requires MatchingParen(text, s.bodyStart - 1) == s.bodyStart + |s.body|
    ensures BodyInParens(text, s)
  {
    MatchingParenIsFirst(text, s.bodyStart - 1);
  }

  lemma SubqueriesInParens(o: Oracles)
    ensures BodiesInParens(PartsOf(o))
  {
    forall text, s | s in PartsOf(o).subqueries(text)
      ensures BodyInParens(text, s)
    {
      SubqueryInParens(text, o.lower, s);
    }
  }

  type Standing = (nat, string) -> bool

  /** Texts that stand in the document and are read in it as they are alone. */
  ghost function StandingIn(doc: string): Standing {
    (base: nat, text: string) => Reads(doc, base, text) && LexedAlike(doc, base, text)
  }

  /** From a text the property passes to every subquery whose parenthesis stands in code. */
  ghost predicate Passes(p: Parts, standing: Standing, sql: string, base: nat, s: Subquery) {
    standing(base, sql) ==>
      p.prepare(sql) == sql && (s in p.subqueries(sql) && OpenedInCode(sql, s) ==> standing(base + s.bodyStart, s.body))
  }

  lemma {:induction false} PassesOn(p: Parts, standing: Standing, sql: string, base: nat, text: string, at: nat)
    requires Sound(p) && (forall t, b, s :: Passes(p, standing, t, b, s)) && standing(base, sql) && IsCodeScope(p, sql, base, text, at)
    ensures standing(at, text)
    decreases |sql|
  {
    if text == p.prepare(sql) && at == base {
      assert Passes(p, standing, sql, base, Subquery("", "", 0, 0, 0, []));
    } else {
      SubqueriesShorter(p, sql);
      var s :| s in p.subqueries(p.prepare(sql)) && OpenedInCode(p.prepare(sql), s) && IsCodeScope(p, s.body, base + s.bodyStart, text, at);
      assert Passes(p, standing, sql, base, s);
      PassesOn(p, standing, s.body, base + s.bodyStart, text, at);
    }
  }

  lemma NextStanding(doc: string, base: nat, sql: string, s: Subquery)
    requires StandingIn(doc)(base, sql) && BodyInParens(sql, s) && OpenedInCode(sql, s)
    ensures StandingIn(doc)(base + s.bodyStart, s.body)
  {
    ReadsWithin(doc, base, sql, s.bodyStart, s.bodyStart + |s.body|);
    BodyLexedAlike(doc, base, sql, s.bodyStart - 1, s.bodyStart + |s.body|, s.body, base + s.bodyStart);
  }

  lemma StandingPasses(p: Parts, doc: string, sql: string, base: nat, s: Subquery)
    requires BodiesInParens(p) && Untouched(p, doc)
    ensures Passes(p, StandingIn(doc), sql, base, s)
  {
    if StandingIn(doc)(base, sql) && s in p.subqueries(sql) && OpenedInCode(sql, s) {
      NextStanding(doc, base, sql, s);
    }
  }

  lemma CodeScopeStands(p: Parts, doc: string, text: string, at: nat)
    requires Sound(p) && BodiesInParens(p) && Untouched(p, doc) && IsCodeScope(p, doc, 0, text, at)
    ensures StandingIn(doc)(at, text)
  {
    forall t, b, s
      ensures Passes(p, StandingIn(doc), t, b, s)
    {
      StandingPasses(p, doc, t, b, s);
    }
    LexedAlikeItself(doc);
    PassesOn(p, StandingIn(doc), doc, 0, text, at);
  }

  lemma LexedAlikeItself(doc: string)
    ensures LexedAlike(doc, 0, doc) && Reads(doc, 0, doc)
  {
    assert doc[0..0 + |doc|] == doc;
  }

  /** The prepared text of the document or of a query nested in it, reached through parentheses in code. */
  ghost predicate IsCodeScopeOf(o: Oracles, doc: string, text: string, at: nat)
    requires MatchesIn(o)
  {
    PartsSound(o);
    IsCodeScope(PartsOf(o), doc, 0, text, at)
  }

  lemma CandidateInCode(o: Oracles, text: string, m: Match)
    requires m in Candidates(text, o)
    ensures m.nameStart <= |text| && InCode(text, m.nameStart)
  {
    CandidatesMeaning(text, o, m);
  }

  lemma TextLexedAlike(o: Oracles, doc: string, text: string, at: nat)
    requires MatchesIn(o) && TemplateFree(doc) && IsCodeScopeOf(o, doc, text, at)
    ensures LexedAlike(doc, at, text)
  {
    PartsSound(o);
    SubqueriesInParens(o);
    TemplateFreeUntouched(o, doc);
    CodeScopeStands(PartsOf(o), doc, text, at);
  }

  /** For a document without template calls: every candidate of a scope that is reached through parentheses in code
      stands in code of the document. */
  lemma CandidatesInCode(o: Oracles, doc: string, text: string, at: nat, m: Match)
    requires MatchesIn(o) && TemplateFree(doc) && IsCodeScopeOf(o, doc, text, at) && m in Candidates(text, o)
    ensures at + m.nameStart <= |doc| && InCode(doc, at + m.nameStart)
  {
    TextLexedAlike(o, doc, text, at);
    CandidateInCode(o, text, m);
    assert LexedAlikeAt(doc, at, text, m.nameStart);
  }

  /** And if it is a relation, it is recorded there. */
  lemma CodeIsRecorded(o: Oracles, doc: string, text: string, at: nat, m: Match)
    requires MatchesIn(o) && IsCodeScopeOf(o, doc, text, at) && m in PartsOf(o).candidates(text) && PartsOf(o).use(text, m).Relation?
    ensures RelationUse(PartsOf(o).use(text, m).name, at + m.nameStart, at + m.nameEnd) in DocumentRelations(o, doc)
  {
    PartsSound(o);
    CodeScopeIsScope(PartsOf(o), doc, 0, text, at);
    ScopeIsRecorded(PartsOf(o), doc, 0, text, at, m);
  }

  // ----- Subqueries that are not in code -----

  /** What is recorded for the body of any subquery, in code or not, is recorded for the document. */
  lemma BodyIsRecorded(p: Parts, doc: string, s: Subquery, m: Match, name: string)
    requires Sound(p) && p.prepare(doc) == doc && p.prepare(s.body) == s.body && s in p.subqueries(doc)
    requires m in p.candidates(s.body) && p.use(s.body, m).Relation? && p.use(s.body, m).name == name
    ensures RelationUse(name, s.bodyStart + m.nameStart, s.bodyStart + m.nameEnd) in Relations(p, doc, 0)
  {
    ScopeIsRecorded(p, s.body, s.bodyStart, s.body, s.bodyStart, m);
    NestedIsReported(p, doc, 0, s, RelationUse(name, s.bodyStart + m.nameStart, s.bodyStart + m.nameEnd));
  }

  lemma PreparedBody(o: Oracles, doc: string, s: Subquery)
    requires MatchesIn(o) && TemplateFree(doc) && s in Subqueries(doc, o.lower)
    ensures PartsOf(o).prepare(doc) == doc && PartsOf(o).prepare(s.body) == s.body && s in PartsOf(o).subqueries(doc)
  {
    SubqueriesMeaning(doc, o.lower, s);
    LexedAlikeItself(doc);
    TemplateFreeUntouched(o, doc);
  }

  lemma UseOfPart(o: Oracles, text: string, m: Match)
    requires MatchIn(m, |text|) && m in Candidates(text, o)
    ensures m in PartsOf(o).candidates(text) && PartsOf(o).use(text, m) == UseAt(text, m, o)
  {
  }

  /** Of any subquery of a document without template calls, wherever its parenthesis stands, the relations are recorded. */
  lemma SubqueryIsRecorded(o: Oracles, doc: string, s: Subquery, m: Match, name: string)
    requires MatchesIn(o) && TemplateFree(doc) && s in Subqueries(doc, o.lower) && MatchIn(m, |s.body|) && m in Candidates(s.body, o)
    requires UseAt(s.body, m, o).Relation? && UseAt(s.body, m, o).name == name
    ensures RelationUse(name, s.bodyStart + m.nameStart, s.bodyStart + m.nameEnd) in DocumentRelations(o, doc)
  {
    PartsSound(o);
    PreparedBody(o, doc, s);
    UseOfPart(o, s.body, m);
    BodyIsRecorded(PartsOf(o), doc, s, m, name);
  }

  // ----- A query in a string -----

  const IN_STRING := "select '(select 1 from t)'"

  const QUOTED_QUERY := "select 1 from t"

  const TABLE := Match(None, 14, 15, None)

  predicate IsPlainByte(c: char) {
    c != '-' && c != '/' && !IsQuote(c) && c != '(' && c != ')'
  }

  /** Nothing that a scan looks for. */
  predicate IsPlain(s: string) {
    forall k :: 0 <= k < |s| ==> IsPlainByte(s[k])
  }

  lemma PlainConcat(a: string, b: string)
    requires IsPlain(a) && IsPlain(b)
    ensures IsPlain(a + b)
  {
  }

  lemma QuotedQueryIsPlain()
    ensures IsPlain(QUOTED_QUERY)
  {
    PlainConcat("sele", "ct 1");
    PlainConcat(" fro", "m t");
    PlainConcat("sele" + "ct 1", " fro" + "m t");
    assert QUOTED_QUERY == ("sele" + "ct 1") + (" fro" + "m t");
  }

  lemma {:induction false} PlainLex(s: string, n: nat, i: nat)
    requires i <= n <= |s| && forall k :: 0 <= k < i ==> IsPlainByte(s[k])
    ensures Lex(s, n, i) == Code
  {
    if i > 0 {
      PlainLex(s, n, i - 1);
    }
  }

  lemma StringOpens()
    ensures Lex(IN_STRING, |IN_STRING|, 8) == Quoted('\'')
  {
    PlainLex(IN_STRING, |IN_STRING|, 7);
  }

  lemma QuotedQueryCloses()
    ensures QueryEnd(IN_STRING, 8) == Some(24) && IN_STRING[9..24] == QUOTED_QUERY
  {
    QuotedParens();
    SelectOpens();
  }

  lemma QuotedParens()
    ensures MatchingParen(IN_STRING, 8) == 24 && IN_STRING[9..24] == QUOTED_QUERY
  {
    assert IN_STRING[9..24] == QUOTED_QUERY;
    QuotedQueryIsPlain();
    UnbracketedBalanced(QUOTED_QUERY);
    ClosesItselfIff(IN_STRING, 8, 24);
  }

  lemma SelectOpens()
    ensures OpensQuery(IN_STRING, 8)
  {
    assert IN_STRING[9..15] == "select";
    assert HasWordAt(IN_STRING, 9, "select") && SkipSpace(IN_STRING, 9) == 9;
  }

  lemma QuotedQueryFound(lower: Lowering) returns (s: Subquery)
    ensures s in Subqueries(IN_STRING, lower) && s.bodyStart == 9 && s.body == QUOTED_QUERY
  {
    QuotedQueryCloses();
    s := SubqueryFrom(IN_STRING, 8, 24, lower);
    assert SubqueryAt(IN_STRING, 8, lower) == Some(s);
    SubqueriesMeaning(IN_STRING, lower, s);
  }

  lemma PlainCandidate(text: string, o: Oracles, m: Match)
    requires m in o.relationMatches(Masked(text)) && m.comma.None? && m.nameStart <= |text|
    requires IsPlain(text)
    ensures m in Candidates(text, o)
  {
    PlainLex(text, |text|, m.nameStart);
    CandidateKept(text, o, m);
  }

  lemma CandidateKept(text: string, o: Oracles, m: Match)
    requires m in o.relationMatches(Masked(text)) && m.comma.None? && m.nameStart <= |text| && InCode(text, m.nameStart)
    ensures m in Candidates(text, o)
  {
    CandidatesMeaning(text, o, m);
  }

  lemma NameOfTable()
    ensures Normalized("t") == "t"
  {
    var parts := [Bare("", "t", "")];
    assert parts[0].Source() == "t" && parts[0].Meaning() == "t" && parts[1..] == [];
    assert Sources(parts) == ["t"] && Meanings(parts) == ["t"];
    NormalizeRoundTrip(parts);
  }

  lemma TableIsRelation(o: Oracles)
    requires o.lower("t") == "t"
    ensures UseAt(QUOTED_QUERY, TABLE, o).Relation? && UseAt(QUOTED_QUERY, TABLE, o).name == "t"
  {
    assert QUOTED_QUERY[14..15] == "t";
    NameOfTable();
    assert SkipSpace(QUOTED_QUERY, 15) == 15;
    assert !IsKeyword("t");
  }

  lemma NoTemplates()
    ensures TemplateFree(IN_STRING)
  {
  }

  /** The table of a query in a string is recorded as a relation, although it does not stand in code. */
  lemma StringsAreAnalyzed(o: Oracles)
    requires MatchesIn(o) && o.lower("t") == "t" && TABLE in o.relationMatches(Masked(QUOTED_QUERY))
    ensures RelationUse("t", 23, 24) in DocumentRelations(o, IN_STRING)
  {
    NoTemplates();
    QuotedQueryIsPlain();
    var s := QuotedQueryFound(o.lower);
    TableIsRelation(o);
    PlainTableIsRecorded(o, IN_STRING, s, TABLE, "t");
  }

  lemma PlainTableIsRecorded(o: Oracles, doc: string, s: Subquery, m: Match, name: string)
    requires MatchesIn(o) && TemplateFree(doc) && s in Subqueries(doc, o.lower) && MatchIn(m, |s.body|) && m.comma.None?
    requires m in o.relationMatches(Masked(s.body)) && UseAt(s.body, m, o).Relation? && UseAt(s.body, m, o).name == name
    requires IsPlain(s.body)
    ensures RelationUse(name, s.bodyStart + m.nameStart, s.bodyStart + m.nameEnd) in DocumentRelations(o, doc)
  {
    PlainCandidate(s.body, o, m);
    SubqueryIsRecorded(o, doc, s, m, name);
  }

  lemma TableInString()
    ensures IN_STRING[23] == 't' && Lex(IN_STRING, |IN_STRING|, 8) == Quoted('\'') && !InCode(IN_STRING, 23)
  {
    StringOpens();
    StaysInString(IN_STRING, 8, 23, '\'');
  }

  lemma {:induction false} StaysInString(text: string, i: nat, j: nat, q: char)
    requires i <= j <= |text| && Lex(text, |text|, i) == Quoted(q) && forall k :: i <= k < j ==> text[k] != q
    ensures Lex(text, |text|, j) == Quoted(q)
    decreases j
  {
    if i < j {
      StaysInString(text, i, j - 1, q);
    }
  }
}
