/** WITH clauses as they are written: the definitions found are exactly those of the clause, whatever white
    space and comments stand between its tokens. */
module WithClauses {
  import opened Wrappers
  import opened QueryTypes
  import opened Scanners
  import opened SelectScopes
  import opened Identifiers
  import opened QueryParts
  import opened Parentheses

  // ----- Tokens of a clause -----

  /** The name as it is written from `i` to `end`: bare, or in quotes with its quotes doubled. */
  ghost predicate BareAt(sql: string, i: nat, end: nat, name: string) {
    && name != "" && end == i + |name| && At(sql, i, name)
    && (forall k :: 0 <= k < |name| ==> IsIdentByte(name[k]))
    && (end < |sql| ==> !IsIdentByte(sql[end]))
  }

  ghost predicate QuotedAt(sql: string, i: nat, end: nat, name: string, q: char) {
    && name != "" && (q == '"' || q == '`') && end == i + |Enquoted(name, q)| && At(sql, i, Enquoted(name, q))
    && (end < |sql| ==> sql[end] != q)
  }

  ghost predicate NameAt(sql: string, i: nat, end: nat, name: string) {
    BareAt(sql, i, end, name) || exists q :: QuotedAt(sql, i, end, name, q)
  }

  ghost predicate WordAndTrivia(sql: string, i: nat, word: string, present: bool, j: nat) {
    if present then HasWordAt(sql, i, word) && TriviaAt(sql, i + |word|, j) else i == j
  }

  /** A definition as it is written: name [(columns)] AS [NOT] [MATERIALIZED] (body), and where the next token
      behind it starts. Which parentheses close the columns and the body is the writer's to say. */
  datatype WrittenCte = WrittenCte(name: string, nameStart: nat, nameEnd: nat, columns: Option<(nat, nat)>, asAt: nat,
                                   not: bool, notAt: nat, materialized: bool, materializedAt: nat, open: nat, close: nat, behind: nat)

  ghost predicate ColumnsAt(sql: string, d: WrittenCte) {
    match d.columns
    case None => TriviaAt(sql, d.nameEnd, d.asAt)
    case Some((open, close)) => TriviaAt(sql, d.nameEnd, open) && Parens(sql, open, close) && TriviaAt(sql, close + 1, d.asAt)
  }

  ghost predicate BodyAt(sql: string, d: WrittenCte) {
    && HasWordAt(sql, d.asAt, "as") && TriviaAt(sql, d.asAt + 2, d.notAt)
    && WordAndTrivia(sql, d.notAt, "not", d.not, d.materializedAt)
    && WordAndTrivia(sql, d.materializedAt, "materialized", d.materialized, d.open)
    && Parens(sql, d.open, d.close)
  }

  ghost predicate HeadAt(sql: string, i: nat, d: WrittenCte) {
    && TriviaAt(sql, i, d.nameStart) && NameAt(sql, d.nameStart, d.nameEnd, d.name) && !HasWordAt(sql, d.nameStart, "recursive")
    && ColumnsAt(sql, d) && HasWordAt(sql, d.asAt, "as")
  }

  ghost predicate EndAt(sql: string, d: WrittenCte) {
    Parens(sql, d.open, d.close) && TriviaAt(sql, d.close + 1, d.behind) && !StartsTrivia(sql, d.behind)
  }

  predicate CommaAt(sql: string, i: nat) {
    i < |sql| && sql[i] == ','
  }

  type Writing = (nat, WrittenCte) -> bool

  ghost function HeadsOf(sql: string): Writing {
    (i: nat, d: WrittenCte) => HeadAt(sql, i, d)
  }

  ghost function BodiesOf(sql: string): Writing {
    (i: nat, d: WrittenCte) => BodyAt(sql, d)
  }

  ghost function EndsOf(sql: string): Writing {
    (i: nat, d: WrittenCte) => EndAt(sql, d)
  }

  /** The definitions written at each place. */
  ghost function WritingOf(sql: string): Writing {
    (i: nat, d: WrittenCte) => HeadsOf(sql)(i, d) && BodiesOf(sql)(i, d) && EndsOf(sql)(i, d)
  }

  /** Definitions with a comma between each two, and none behind the last. */
  ghost predicate DefinitionsAt(sql: string, written: Writing, i: nat, defs: seq<WrittenCte>)
    decreases |defs|
  {
    && defs != [] && written(i, defs[0])
    && if |defs| == 1 then !CommaAt(sql, defs[0].behind)
       else CommaAt(sql, defs[0].behind) && DefinitionsAt(sql, written, defs[0].behind + 1, defs[1..])
  }

  /** WITH [RECURSIVE], up to where the definitions begin. */
  ghost predicate WithAt(sql: string, withAt: nat, recursive: bool, recursiveAt: nat, from: nat) {
    && TriviaAt(sql, 0, withAt) && HasWordAt(sql, withAt, "with")
    && if recursive then TriviaAt(sql, withAt + 4, recursiveAt) && HasWordAt(sql, recursiveAt, "recursive") && from == recursiveAt + 9
       else from == withAt + 4
  }

  /** What the analysis should make of it. */
  function CteOf(sql: string, d: WrittenCte, recursive: bool): Cte
    requires d.nameStart <= d.nameEnd <= |sql| && d.open < d.close <= |sql|
  {
    Cte(d.name, sql[d.nameStart..d.nameEnd], sql[d.open + 1..d.close], d.nameStart, d.nameEnd, d.open + 1, ColumnAliases(sql, d.nameEnd), recursive)
  }

  // ----- Reading the tokens -----

  lemma WordStarts(sql: string, i: nat, word: string)
    requires HasWordAt(sql, i, word) && word != "" && Letters(word)
    ensures i < |sql| && IsIdentByte(sql[i]) && !StartsTrivia(sql, i) && sql[i] != '('
  {
    WordBytes(sql, i, word, 0);
  }

  lemma {:induction false} BareEnds(sql: string, i: nat, end: nat)
    requires i <= end <= |sql| && (forall k :: i <= k < end ==> IsIdentByte(sql[k])) && (end < |sql| ==> !IsIdentByte(sql[end]))
    ensures IdentEnd(sql, i) == end
    decreases end - i
  {
    if i < end {
      BareEnds(sql, i + 1, end);
    }
  }

  lemma BareRead(sql: string, i: nat, end: nat, name: string)
    requires BareAt(sql, i, end, name)
    ensures Identifier(sql, i) == (name, end) && !StartsTrivia(sql, i)
  {
    assert sql[i] == name[0];
    forall k | i <= k < end
      ensures IsIdentByte(sql[k])
    {
      assert sql[i + (k - i)] == name[k - i];
    }
    BareEnds(sql, i, end);
    assert sql[i..end] == name;
  }

  lemma NameRead(sql: string, i: nat, end: nat, name: string)
    requires NameAt(sql, i, end, name)
    ensures Identifier(sql, i) == (name, end) && name != "" && !StartsTrivia(sql, i)
  {
    if BareAt(sql, i, end, name) {
      BareRead(sql, i, end, name);
    } else {
      var q :| QuotedAt(sql, i, end, name, q);
      QuotedRead(sql, i, name, q, end);
    }
  }

  // ----- Reading a definition -----

  lemma ColumnsSkipped(sql: string, d: WrittenCte)
    requires ColumnsAt(sql, d) && HasWordAt(sql, d.asAt, "as")
    requires d.columns.Some? ==> MatchingParen(sql, d.columns.value.0) == d.columns.value.1
    ensures BehindColumns(sql, d.nameEnd) == Some(d.asAt)
  {
    WordStarts(sql, d.asAt, "as");
    match d.columns
    case None =>
      TriviaSkippedExactly(sql, d.nameEnd, d.asAt);
      BehindNone(sql, d.nameEnd, d.asAt);
    case Some((open, close)) =>
      TriviaSkippedExactly(sql, d.nameEnd, open);
      TriviaSkippedExactly(sql, close + 1, d.asAt);
      BehindList(sql, d.nameEnd, open, close, d.asAt);
  }

  lemma BehindNone(sql: string, nameEnd: nat, j: nat)
    requires SkipTrivia(sql, nameEnd) == j < |sql| && sql[j] != '('
    ensures BehindColumns(sql, nameEnd) == Some(j)
  {
  }

  lemma BehindList(sql: string, nameEnd: nat, open: nat, close: nat, j: nat)
    requires SkipTrivia(sql, nameEnd) == open < |sql| && sql[open] == '('
    requires MatchingParen(sql, open) == close && SkipTrivia(sql, close + 1) == j
    ensures BehindColumns(sql, nameEnd) == Some(j)
  {
  }

  lemma WordRead(sql: string, i: nat, word: string, j: nat)
    requires if HasWordAt(sql, i, word) then SkipTrivia(sql, i + |word|) == j else i == j
    ensures BehindWord(sql, i, word) == j
  {
  }

  lemma MaterializedSkipped(sql: string, d: WrittenCte)
    requires WordAndTrivia(sql, d.materializedAt, "materialized", d.materialized, d.open) && Parens(sql, d.open, d.close)
    ensures !StartsTrivia(sql, d.materializedAt) && !HasWordAt(sql, d.materializedAt, "not")
    ensures BehindWord(sql, d.materializedAt, "materialized") == d.open && d.materializedAt <= d.open < |sql| && sql[d.open] == '('
  {
    NotHere(sql, d.materializedAt);
    if d.materialized {
      MaterializedHere(sql, d.materializedAt);
      TriviaSkippedExactly(sql, d.materializedAt + 12, d.open);
    } else {
      NoWordAtParen(sql, d.open, "materialized");
    }
    WordRead(sql, d.materializedAt, "materialized", d.open);
  }

  lemma MaterializedHere(sql: string, i: nat)
    requires HasWordAt(sql, i, "materialized")
    ensures i < |sql| && !StartsTrivia(sql, i) && Lower(sql[i]) == 'm'
  {
    WordStarts(sql, i, "materialized");
    WordBytes(sql, i, "materialized", 0);
  }

  lemma NotSkipped(sql: string, d: WrittenCte)
    requires WordAndTrivia(sql, d.notAt, "not", d.not, d.materializedAt)
    requires !StartsTrivia(sql, d.materializedAt) && !HasWordAt(sql, d.materializedAt, "not")
    ensures !StartsTrivia(sql, d.notAt) && BehindWord(sql, d.notAt, "not") == d.materializedAt && d.notAt <= d.materializedAt
  {
    if d.not {
      WordStarts(sql, d.notAt, "not");
      TriviaSkippedExactly(sql, d.notAt + 3, d.materializedAt);
    }
    WordRead(sql, d.notAt, "not", d.materializedAt);
  }

  lemma NotHere(sql: string, i: nat)
    ensures i < |sql| && (sql[i] == '(' || Lower(sql[i]) == 'm') ==> !HasWordAt(sql, i, "not")
  {
    if HasWordAt(sql, i, "not") {
      WordBytes(sql, i, "not", 0);
    }
  }

  lemma NoWordAtParen(sql: string, i: nat, word: string)
    requires i < |sql| && sql[i] == '(' && word != "" && Letters(word)
    ensures !HasWordAt(sql, i, word)
  {
    if HasWordAt(sql, i, word) {
      WordBytes(sql, i, word, 0);
    }
  }

  // Each fact about a written definition by itself.

  lemma NameOf(sql: string, i: nat, d: WrittenCte)
    requires HeadsOf(sql)(i, d)
    ensures i < |sql| && SkipTrivia(sql, i) == d.nameStart && Identifier(sql, d.nameStart) == (d.name, d.nameEnd) && d.name != ""
  {
    NameRead(sql, d.nameStart, d.nameEnd, d.name);
    TriviaSkippedExactly(sql, i, d.nameStart);
  }

  lemma ColumnsOf(sql: string, i: nat, d: WrittenCte)
    requires HeadsOf(sql)(i, d)
    requires d.columns.Some? ==> MatchingParen(sql, d.columns.value.0) == d.columns.value.1
    ensures BehindColumns(sql, d.nameEnd) == Some(d.asAt)
  {
    ColumnsSkipped(sql, d);
  }

  lemma MaterializedOf(sql: string, i: nat, d: WrittenCte)
    requires BodiesOf(sql)(i, d)
    ensures !StartsTrivia(sql, d.materializedAt) && !HasWordAt(sql, d.materializedAt, "not")
    ensures BehindWord(sql, d.materializedAt, "materialized") == d.open && d.materializedAt <= d.open < |sql| && sql[d.open] == '('
  {
    MaterializedSkipped(sql, d);
  }

  lemma NotOf(sql: string, i: nat, d: WrittenCte)
    requires BodiesOf(sql)(i, d)
    ensures !StartsTrivia(sql, d.notAt) && BehindWord(sql, d.notAt, "not") == d.materializedAt && d.notAt <= d.materializedAt
  {
    MaterializedOf(sql, i, d);
    NotSkipped(sql, d);
  }

  lemma BodyOpenOf(sql: string, i: nat, d: WrittenCte)
    requires BodiesOf(sql)(i, d)
    ensures BodyOpen(sql, d.asAt) == Some(d.open)
  {
    NotOf(sql, i, d);
    MaterializedOf(sql, i, d);
    BehindAsOf(sql, i, d);
    BodyOpenFrom(sql, d.asAt, d.notAt, d.materializedAt, d.open);
  }

  lemma BodyOpenFrom(sql: string, j: nat, a: nat, b: nat, c: nat)
    requires HasWordAt(sql, j, "as") && SkipTrivia(sql, j + 2) == a && BehindWord(sql, a, "not") == b
    requires BehindWord(sql, b, "materialized") == c && c < |sql| && sql[c] == '('
    ensures BodyOpen(sql, j) == Some(c)
  {
  }

  lemma BehindAsOf(sql: string, i: nat, d: WrittenCte)
    requires BodiesOf(sql)(i, d)
    ensures HasWordAt(sql, d.asAt, "as") && SkipTrivia(sql, d.asAt + 2) == d.notAt
  {
    NotOf(sql, i, d);
    TriviaSkippedExactly(sql, d.asAt + 2, d.notAt);
  }

  lemma EndOf(sql: string, i: nat, d: WrittenCte)
    requires EndsOf(sql)(i, d)
    ensures Parens(sql, d.open, d.close) && SkipTrivia(sql, d.close + 1) == d.behind
  {
    TriviaSkippedExactly(sql, d.close + 1, d.behind);
  }

  // ----- What is found of a definition -----

  /** The search gets from the name to the parenthesis of the body, and from there to the one that closes it. */
  ghost predicate FindsBody(sql: string, d: WrittenCte) {
    BodyPlace(sql, d.nameEnd) == Some(d.open) && MatchingParen(sql, d.open) == d.close
  }

  lemma NextFrom(sql: string, end: nat, k: nat)
    requires end < |sql| && SkipTrivia(sql, end + 1) == k
    ensures NextDefinition(sql, end) == if CommaAt(sql, k) then Some(k + 1) else None
  {
  }

  /** The definition with this name and with the body at `open`, wherever that ends. */
  ghost predicate IsFoundAt(sql: string, found: Found, d: WrittenCte, open: nat, recursive: bool) {
    && d.nameStart < d.nameEnd < open < |sql| && sql[open] == '('
    && found == FoundWith(sql, CteFrom(sql, d.nameStart, Places(d.nameEnd, open), recursive))
  }

  lemma FoundFrom(sql: string, i: nat, d: WrittenCte, recursive: bool, found: Found)
    requires i < |sql| && SkipTrivia(sql, i) == d.nameStart && SkipTrivia(sql, d.nameStart) == d.nameStart
    requires !HasWordAt(sql, d.nameStart, "recursive")
    requires Identifier(sql, d.nameStart) == (d.name, d.nameEnd) && d.name != "" && found == FindNext(sql, i, recursive)
    ensures match BodyPlace(sql, d.nameEnd)
            case None => found == Nothing
            case Some(open) => IsFoundAt(sql, found, d, open, recursive)
  {
    assert DefinitionAt(sql, d.nameStart) ==
      match BodyPlace(sql, d.nameEnd) case None => None case Some(open) => Some(Places(d.nameEnd, open));
  }

  ghost predicate IsCteOf(sql: string, c: Cte, d: WrittenCte, recursive: bool) {
    && d.nameStart < d.nameEnd <= |sql| && d.open < d.close <= |sql|
    && c == CteOf(sql, d, recursive)
  }

  /** It is the written one exactly when its body is the written one. */
  lemma CteIff(sql: string, d: WrittenCte, open: nat, recursive: bool, cte: Cte)
    requires d.nameStart < d.nameEnd < open < |sql| && sql[open] == '(' && Parens(sql, d.open, d.close)
    requires Identifier(sql, d.nameStart) == (d.name, d.nameEnd)
    requires cte == CteFrom(sql, d.nameStart, Places(d.nameEnd, open), recursive)
    ensures IsCteOf(sql, cte, d, recursive) <==> open == d.open && BodyEnd(sql, open) == d.close
    ensures cte.End() == BodyEnd(sql, open)
  {
    if IsCteOf(sql, cte, d, recursive) {
      assert |cte.body| == d.close - (d.open + 1);
    }
  }

  type Matching = (Cte, WrittenCte) -> bool

  ghost function MatchingOf(sql: string, recursive: bool): Matching {
    (c, d) => IsCteOf(sql, c, d, recursive)
  }

  ghost function Finding(sql: string): WrittenCte -> bool {
    d => FindsBody(sql, d)
  }

  ghost predicate FoundAs(sql: string, found: Found, d: WrittenCte, matches: Matching) {
    found.Definition? && matches(found.cte, d)
  }

  ghost predicate GoesOnBehind(sql: string, found: Found, d: WrittenCte) {
    found.Definition? && found.next == if CommaAt(sql, d.behind) then Some(d.behind + 1) else None
  }

  /** The definition found is the written one if and only if the search finds its body; then it goes on behind the
      comma that follows it. */
  ghost predicate FoundExactly(sql: string, found: Found, d: WrittenCte, matches: Matching, right: WrittenCte -> bool) {
    && !found.RecursiveWord?
    && (FoundAs(sql, found, d, matches) <==> right(d))
    && (right(d) ==> GoesOnBehind(sql, found, d))
  }

  lemma PlacedIff(sql: string, d: WrittenCte, open: nat, recursive: bool, found: Found)
    requires IsFoundAt(sql, found, d, open, recursive) && Parens(sql, d.open, d.close)
    requires Identifier(sql, d.nameStart) == (d.name, d.nameEnd) && SkipTrivia(sql, d.close + 1) == d.behind
    ensures FoundAs(sql, found, d, MatchingOf(sql, recursive)) <==> open == d.open && MatchingParen(sql, open) == d.close
    ensures open == d.open && MatchingParen(sql, open) == d.close ==> GoesOnBehind(sql, found, d)
  {
    var cte := CteFrom(sql, d.nameStart, Places(d.nameEnd, open), recursive);
    CteIff(sql, d, open, recursive, cte);
    BehindIff(sql, d, found, cte);
  }

  lemma BehindIff(sql: string, d: WrittenCte, found: Found, cte: Cte)
    requires found == FoundWith(sql, cte) && d.close < |sql| && SkipTrivia(sql, d.close + 1) == d.behind
    ensures found.Definition? && found.cte == cte && (cte.End() == d.close ==> GoesOnBehind(sql, found, d))
  {
    NextFrom(sql, d.close, d.behind);
  }

  lemma FoundIff(sql: string, d: WrittenCte, place: Option<nat>, recursive: bool, found: Found)
    requires place == BodyPlace(sql, d.nameEnd)
    requires match place case None => found == Nothing case Some(open) => IsFoundAt(sql, found, d, open, recursive)
    requires Parens(sql, d.open, d.close)
    requires Identifier(sql, d.nameStart) == (d.name, d.nameEnd) && SkipTrivia(sql, d.close + 1) == d.behind
    ensures FoundExactly(sql, found, d, MatchingOf(sql, recursive), Finding(sql))
  {
    if place.Some? {
      PlacedIff(sql, d, place.value, recursive, found);
    }
  }

  lemma WrittenFound(sql: string, i: nat, d: WrittenCte, recursive: bool, found: Found)
    requires WritingOf(sql)(i, d) && i < |sql| && found == FindNext(sql, i, recursive)
    ensures FoundExactly(sql, found, d, MatchingOf(sql, recursive), Finding(sql))
  {
    NameOf(sql, i, d);
    TriviaSkippedOnce(sql, i);
    FoundFrom(sql, i, d, recursive, found);
    EndOf(sql, i, d);
    FoundIff(sql, d, BodyPlace(sql, d.nameEnd), recursive, found);
  }

  lemma FinderFinds(sql: string, i: nat, recursive: bool, found: Found)
    requires i < |sql| && FindNext(sql, i, recursive) == found
    ensures DefinitionFinder(sql)(i, recursive) == found
  {
  }

  lemma WrittenIsFoundIff(sql: string, i: nat, d: WrittenCte, recursive: bool)
    requires WritingOf(sql)(i, d)
    ensures i < |sql| && FoundExactly(sql, DefinitionFinder(sql)(i, recursive), d, MatchingOf(sql, recursive), Finding(sql))
  {
    NameOf(sql, i, d);
    WrittenFound(sql, i, d, recursive, FindNext(sql, i, recursive));
    FinderFinds(sql, i, recursive, FindNext(sql, i, recursive));
  }

  /** Without a closing parenthesis the body is the rest of the text, and nothing behind it is found. */
  lemma UnclosedTakesTheRest(sql: string, i: nat, d: WrittenCte, recursive: bool)
    requires WritingOf(sql)(i, d) && BodyPlace(sql, d.nameEnd) == Some(d.open) && MatchingParen(sql, d.open) == -1
    ensures i < |sql| && DefinitionFinder(sql)(i, recursive).Definition?
    ensures var found := DefinitionFinder(sql)(i, recursive);
            found.next == None && found.cte.name == d.name && found.cte.bodyStart == d.open + 1 && found.cte.body == sql[d.open + 1..]
  {
    NameOf(sql, i, d);
    TriviaSkippedOnce(sql, i);
    FoundFrom(sql, i, d, recursive, FindNext(sql, i, recursive));
    FinderFinds(sql, i, recursive, FindNext(sql, i, recursive));
    RestOfText(sql, d, recursive, FindNext(sql, i, recursive));
  }

  lemma RestOfText(sql: string, d: WrittenCte, recursive: bool, found: Found)
    requires IsFoundAt(sql, found, d, d.open, recursive) && Identifier(sql, d.nameStart).0 == d.name && MatchingParen(sql, d.open) == -1
    ensures found.Definition? && found.next == None
    ensures found.cte.name == d.name && found.cte.bodyStart == d.open + 1 && found.cte.body == sql[d.open + 1..]
  {
    assert sql[d.open + 1..|sql|] == sql[d.open + 1..];
  }

  /** The search gets to the body where there is no column list, and behind a list that it closes rightly. */
  lemma PlaceRead(sql: string, i: nat, d: WrittenCte)
    requires WritingOf(sql)(i, d)
    requires d.columns.Some? ==> MatchingParen(sql, d.columns.value.0) == d.columns.value.1
    ensures BodyPlace(sql, d.nameEnd) == Some(d.open)
  {
    ColumnsOf(sql, i, d);
    BodyOpenOf(sql, i, d);
    PlaceFrom(sql, d.nameEnd, d.asAt, d.open);
  }

  lemma PlaceFrom(sql: string, nameEnd: nat, j: nat, open: nat)
    requires BehindColumns(sql, nameEnd) == Some(j) && BodyOpen(sql, j) == Some(open)
    ensures BodyPlace(sql, nameEnd) == Some(open)
  {
  }

  // ----- The definitions of a clause -----

  lemma CollectedFrom(find: Finder, n: nat, i: nat, recursive: bool, cte: Cte, next: Option<nat>)
    requires Progresses(find, n) && i < n && find(i, recursive) == Definition(cte, next)
    ensures CtesFrom(find, n, i, recursive) == [cte] + if next.None? then [] else CtesFrom(find, n, next.value, recursive)
  {
  }

  ghost predicate AllMatch(matches: Matching, ctes: seq<Cte>, defs: seq<WrittenCte>) {
    |ctes| == |defs| && forall k :: 0 <= k < |defs| ==> matches(ctes[k], defs[k])
  }

  lemma OneMore(matches: Matching, first: Cte, later: seq<Cte>, defs: seq<WrittenCte>)
    requires defs != []
    ensures AllMatch(matches, [first] + later, defs) <==> matches(first, defs[0]) && AllMatch(matches, later, defs[1..])
  {
    var all := [first] + later;
    forall k | 0 <= k < |defs| - 1
      ensures defs[1..][k] == defs[k + 1] && (|later| == |defs| - 1 ==> later[k] == all[k + 1])
    {
    }
    if AllMatch(matches, all, defs) {
      assert matches(all[0], defs[0]);
      forall k | 0 <= k < |defs| - 1
        ensures matches(later[k], defs[1..][k])
      {
        assert matches(all[k + 1], defs[k + 1]);
      }
    } else if matches(first, defs[0]) && AllMatch(matches, later, defs[1..]) {
      forall k | 0 <= k < |defs|
        ensures matches(all[k], defs[k])
      {
        assert k > 0 ==> matches(later[k - 1], defs[1..][k - 1]);
      }
    }
  }

  ghost predicate All(right: WrittenCte -> bool, defs: seq<WrittenCte>) {
    forall k :: 0 <= k < |defs| ==> right(defs[k])
  }

  lemma OneMoreRight(right: WrittenCte -> bool, defs: seq<WrittenCte>)
    requires defs != []
    ensures All(right, defs) <==> right(defs[0]) && All(right, defs[1..])
  {
    assert forall k :: 0 <= k < |defs| - 1 ==> defs[1..][k] == defs[k + 1];
    if right(defs[0]) && All(right, defs[1..]) {
      forall k | 0 <= k < |defs|
        ensures right(defs[k])
      {
        assert k > 0 ==> right(defs[1..][k - 1]);
      }
    }
  }

  lemma NothingCollected(find: Finder, n: nat, i: nat, recursive: bool)
    requires Progresses(find, n) && i < n && find(i, recursive) == Nothing
    ensures CtesFrom(find, n, i, recursive) == []
  {
  }

  /** The definitions from one place on. */
  lemma {:induction false} DefinitionsFoundIff(sql: string, find: Finder, written: Writing, matches: Matching, right: WrittenCte -> bool,
                                               i: nat, defs: seq<WrittenCte>, recursive: bool)
    requires DefinitionsAt(sql, written, i, defs) && Progresses(find, |sql|)
    requires forall j: nat, d :: written(j, d) ==> j < |sql| && FoundExactly(sql, find(j, recursive), d, matches, right)
    ensures AllMatch(matches, CtesFrom(find, |sql|, i, recursive), defs) <==> All(right, defs)
    decreases |defs|
  {
    var first := find(i, recursive);
    OneMoreRight(right, defs);
    if first.Nothing? {
      NothingCollected(find, |sql|, i, recursive);
    } else {
      CollectedFrom(find, |sql|, i, recursive, first.cte, first.next);
      if !right(defs[0]) {
        OneMore(matches, first.cte, if first.next.None? then [] else CtesFrom(find, |sql|, first.next.value, recursive), defs);
      } else if |defs| == 1 {
        OneMore(matches, first.cte, [], defs);
      } else {
        DefinitionsFoundIff(sql, find, written, matches, right, defs[0].behind + 1, defs[1..], recursive);
        OneMore(matches, first.cte, CtesFrom(find, |sql|, defs[0].behind + 1, recursive), defs);
      }
    }
  }

  lemma WithRead(sql: string, withAt: nat, recursive: bool, recursiveAt: nat, from: nat)
    requires WithAt(sql, withAt, recursive, recursiveAt, from)
    ensures WithClause(sql) == Some(withAt + 4)
  {
    WordBehindTrivia(sql, 0, withAt, "with");
    WithFound(sql, withAt);
  }

  lemma RecursiveRead(sql: string, i: nat, recursiveAt: nat)
    requires TriviaAt(sql, i, recursiveAt) && HasWordAt(sql, recursiveAt, "recursive")
    ensures i < |sql| && FindNext(sql, i, false) == RecursiveWord(recursiveAt + 9)
  {
    WordBehindTrivia(sql, i, recursiveAt, "recursive");
    RecursiveFound(sql, i, recursiveAt);
  }

  lemma WordBehindTrivia(sql: string, i: nat, j: nat, word: string)
    requires TriviaAt(sql, i, j) && HasWordAt(sql, j, word) && word != "" && Letters(word)
    ensures i < |sql| && SkipTrivia(sql, i) == j
  {
    WordStarts(sql, j, word);
    TriviaSkippedExactly(sql, i, j);
  }

  lemma WithFound(sql: string, s: nat)
    requires SkipTrivia(sql, 0) == s && HasWordAt(sql, s, "with")
    ensures WithClause(sql) == Some(s + 4)
  {
  }

  lemma RecursiveFound(sql: string, i: nat, s: nat)
    requires i < |sql| && SkipTrivia(sql, i) == s && HasWordAt(sql, s, "recursive")
    ensures FindNext(sql, i, false) == RecursiveWord(s + 9)
  {
  }

  lemma CollectedBehindWord(find: Finder, n: nat, i: nat, resume: nat)
    requires Progresses(find, n) && i < n && find(i, false) == RecursiveWord(resume)
    ensures CtesFrom(find, n, i, false) == CtesFrom(find, n, resume, true)
  {
  }

  lemma CollectedIff(sql: string, from: nat, defs: seq<WrittenCte>, recursive: bool, find: Finder)
    requires DefinitionsAt(sql, WritingOf(sql), from, defs) && find == DefinitionFinder(sql) && Progresses(find, |sql|)
    ensures AllMatch(MatchingOf(sql, recursive), CtesFrom(find, |sql|, from, recursive), defs) <==> All(Finding(sql), defs)
  {
    var written, matches, right := WritingOf(sql), MatchingOf(sql, recursive), Finding(sql);
    forall i: nat, d | written(i, d)
      ensures i < |sql| && FoundExactly(sql, find(i, recursive), d, matches, right)
    {
      WrittenIsFoundIff(sql, i, d, recursive);
    }
    DefinitionsFoundIff(sql, find, written, matches, right, from, defs, recursive);
  }

  lemma CtesAre(sql: string, start: nat, find: Finder)
    requires WithClause(sql) == Some(start) && find == DefinitionFinder(sql) && Progresses(find, |sql|)
    ensures Ctes(sql) == CtesFrom(find, |sql|, start, false)
  {
  }

  /** The definitions are collected from where the clause says they begin. */
  lemma CtesBegin(sql: string, withAt: nat, recursive: bool, recursiveAt: nat, from: nat, find: Finder)
    requires WithAt(sql, withAt, recursive, recursiveAt, from) && find == DefinitionFinder(sql) && Progresses(find, |sql|)
    ensures Ctes(sql) == CtesFrom(find, |sql|, from, recursive)
  {
    WithRead(sql, withAt, recursive, recursiveAt, from);
    CtesAre(sql, withAt + 4, find);
    if recursive {
      RecursiveRead(sql, withAt + 4, recursiveAt);
      FinderFinds(sql, withAt + 4, false, RecursiveWord(from));
      CollectedBehindWord(find, |sql|, withAt + 4, from);
    }
  }

  /** A WITH clause as it is written, with any white space and comments between its tokens. */
  ghost predicate ClauseAt(sql: string, withAt: nat, recursive: bool, recursiveAt: nat, from: nat, defs: seq<WrittenCte>) {
    WithAt(sql, withAt, recursive, recursiveAt, from) && DefinitionsAt(sql, WritingOf(sql), from, defs)
  }

  /** The definitions found are the written ones. */
  ghost predicate ReadRightly(sql: string, recursive: bool, defs: seq<WrittenCte>) {
    AllMatch(MatchingOf(sql, recursive), Ctes(sql), defs)
  }

  /** Exactly when a WITH clause is read rightly: the search has to get to each body and to find its own closing
      parenthesis. */
  lemma ReadRightlyIff(sql: string, withAt: nat, recursive: bool, recursiveAt: nat, from: nat, defs: seq<WrittenCte>)
    requires ClauseAt(sql, withAt, recursive, recursiveAt, from, defs)
    ensures ReadRightly(sql, recursive, defs) <==> All(Finding(sql), defs)
  {
    var find := DefinitionFinder(sql);
    DefinitionsProgress(sql);
    CtesBegin(sql, withAt, recursive, recursiveAt, from, find);
    CollectedIff(sql, from, defs, recursive, find);
  }

  ghost predicate ListCloses(sql: string, d: WrittenCte) {
    d.columns.Some? && d.columns.value.0 < d.columns.value.1 <= |sql| ==> BalancedByQuotes(sql[d.columns.value.0 + 1..d.columns.value.1])
  }

  ghost predicate BodyCloses(sql: string, d: WrittenCte) {
    d.open < d.close <= |sql| ==> BalancedByQuotes(sql[d.open + 1..d.close])
  }

  lemma FindingIff(sql: string, i: nat, d: WrittenCte)
    requires WritingOf(sql)(i, d) && ListCloses(sql, d)
    ensures Finding(sql)(d) <==> BodyCloses(sql, d)
  {
    ListOf(sql, i, d);
    PlaceRead(sql, i, d);
    BodyIff(sql, i, d);
  }

  lemma ListOf(sql: string, i: nat, d: WrittenCte)
    requires HeadsOf(sql)(i, d) && ListCloses(sql, d)
    ensures d.columns.Some? ==> MatchingParen(sql, d.columns.value.0) == d.columns.value.1
  {
    assert ColumnsAt(sql, d);
    if d.columns.Some? {
      ClosesItselfIff(sql, d.columns.value.0, d.columns.value.1);
    }
  }

  lemma BodyIff(sql: string, i: nat, d: WrittenCte)
    requires EndsOf(sql)(i, d)
    ensures MatchingParen(sql, d.open) == d.close <==> BodyCloses(sql, d)
  {
    EndOf(sql, i, d);
    ClosesItselfIff(sql, d.open, d.close);
  }

  lemma {:induction false} WrittenSomewhere(sql: string, written: Writing, i: nat, defs: seq<WrittenCte>, k: nat) returns (j: nat)
    requires DefinitionsAt(sql, written, i, defs) && k < |defs|
    ensures written(j, defs[k])
    decreases |defs|
  {
    if k == 0 {
      j := i;
    } else {
      j := WrittenSomewhere(sql, written, defs[0].behind + 1, defs[1..], k - 1);
    }
  }

  lemma FindingAllIff(sql: string, from: nat, defs: seq<WrittenCte>)
    requires DefinitionsAt(sql, WritingOf(sql), from, defs) && forall k :: 0 <= k < |defs| ==> ListCloses(sql, defs[k])
    ensures All(Finding(sql), defs) <==> forall k :: 0 <= k < |defs| ==> BodyCloses(sql, defs[k])
  {
    forall k | 0 <= k < |defs|
      ensures Finding(sql)(defs[k]) <==> BodyCloses(sql, defs[k])
    {
      var j := WrittenSomewhere(sql, WritingOf(sql), from, defs, k);
      FindingIff(sql, j, defs[k]);
    }
  }

  /** For a clause whose column lists, if any, close where they should: the definitions found are exactly the written
      ones if and only if every body, read with its comments as code, is balanced outside quotes. */
  lemma WrittenDefinitionsAreFoundIff(sql: string, withAt: nat, recursive: bool, recursiveAt: nat, from: nat, defs: seq<WrittenCte>)
    requires ClauseAt(sql, withAt, recursive, recursiveAt, from, defs)
    requires forall k :: 0 <= k < |defs| ==> ListCloses(sql, defs[k])
    ensures ReadRightly(sql, recursive, defs) <==> forall k :: 0 <= k < |defs| ==> BodyCloses(sql, defs[k])
  {
    ReadRightlyIff(sql, withAt, recursive, recursiveAt, from, defs);
    FindingAllIff(sql, from, defs);
  }

  /** The stretches between the parentheses of a definition. */
  ghost predicate Inside(sql: string, d: WrittenCte, s: string) {
    || (d.open < d.close <= |sql| && s == sql[d.open + 1..d.close])
    || (d.columns.Some? && d.columns.value.0 < d.columns.value.1 <= |sql| && s == sql[d.columns.value.0 + 1..d.columns.value.1])
  }

  type Reading = string -> bool

  ghost function ByQuotes(): Reading {
    s => BalancedByQuotes(s)
  }

  ghost function InCode(): Reading {
    s => CommentFree(s) && Balanced(s)
  }

  ghost predicate AllInside(sql: string, defs: seq<WrittenCte>, holds: Reading) {
    forall k, s :: 0 <= k < |defs| && Inside(sql, defs[k], s) ==> holds(s)
  }

  /** The parentheses are those of the lexical scan, which are unique. */
  ghost function Lexically(): Reading {
    s => Balanced(s)
  }

  /** For a clause whose parentheses are those of the lexical scan, with any comments inside them, and whose column
      lists are closed by the first parenthesis that the search takes: the definitions found are exactly the written
      ones if and only if every body is. */
  lemma CodeClauseIsReadIff(sql: string, withAt: nat, recursive: bool, recursiveAt: nat, from: nat, defs: seq<WrittenCte>)
    requires ClauseAt(sql, withAt, recursive, recursiveAt, from, defs) && AllInside(sql, defs, Lexically())
    requires forall k :: 0 <= k < |defs| && defs[k].columns.Some? ==> FirstToClose(sql, defs[k].columns.value.0, defs[k].columns.value.1)
    ensures ReadRightly(sql, recursive, defs) <==> forall k :: 0 <= k < |defs| ==> FirstToClose(sql, defs[k].open, defs[k].close)
  {
    forall k | 0 <= k < |defs|
      ensures ListCloses(sql, defs[k]) && (BodyCloses(sql, defs[k]) <==> FirstToClose(sql, defs[k].open, defs[k].close))
    {
      var j := WrittenSomewhere(sql, WritingOf(sql), from, defs, k);
      BodyFirstIff(sql, j, defs[k]);
      ListFirstIff(sql, j, defs[k]);
    }
    WrittenDefinitionsAreFoundIff(sql, withAt, recursive, recursiveAt, from, defs);
  }

  lemma BodyFirstIff(sql: string, i: nat, d: WrittenCte)
    requires EndsOf(sql)(i, d)
    ensures BodyCloses(sql, d) <==> FirstToClose(sql, d.open, d.close)
  {
    EndOf(sql, i, d);
    ClosesItselfIff(sql, d.open, d.close);
  }

  lemma ListFirstIff(sql: string, i: nat, d: WrittenCte)
    requires HeadsOf(sql)(i, d)
    requires d.columns.Some? ==> FirstToClose(sql, d.columns.value.0, d.columns.value.1)
    ensures ListCloses(sql, d)
  {
    assert ColumnsAt(sql, d);
    if d.columns.Some? {
      ClosesItselfIff(sql, d.columns.value.0, d.columns.value.1);
    }
  }

  /** So a clause is read rightly when all its lists and bodies are balanced that way. */
  lemma WrittenDefinitionsAreFound(sql: string, withAt: nat, recursive: bool, recursiveAt: nat, from: nat, defs: seq<WrittenCte>)
    requires ClauseAt(sql, withAt, recursive, recursiveAt, from, defs) && AllInside(sql, defs, ByQuotes())
    ensures ReadRightly(sql, recursive, defs)
  {
    forall k | 0 <= k < |defs|
      ensures ListCloses(sql, defs[k]) && BodyCloses(sql, defs[k])
    {
      InsidesClose(sql, defs, k);
    }
    WrittenDefinitionsAreFoundIff(sql, withAt, recursive, recursiveAt, from, defs);
  }

  lemma InsidesClose(sql: string, defs: seq<WrittenCte>, k: nat)
    requires k < |defs| && AllInside(sql, defs, ByQuotes())
    ensures ListCloses(sql, defs[k]) && BodyCloses(sql, defs[k])
  {
    var d := defs[k];
    if d.open < d.close <= |sql| {
      assert Inside(sql, d, sql[d.open + 1..d.close]);
      assert ByQuotes()(sql[d.open + 1..d.close]);
    }
    if d.columns.Some? && d.columns.value.0 < d.columns.value.1 <= |sql| {
      assert Inside(sql, d, sql[d.columns.value.0 + 1..d.columns.value.1]);
      assert ByQuotes()(sql[d.columns.value.0 + 1..d.columns.value.1]);
    }
  }

  /** And when they hold no comments and are balanced in code. */
  lemma CommentFreeDefinitionsAreFound(sql: string, withAt: nat, recursive: bool, recursiveAt: nat, from: nat, defs: seq<WrittenCte>)
    requires ClauseAt(sql, withAt, recursive, recursiveAt, from, defs) && AllInside(sql, defs, InCode())
    ensures ReadRightly(sql, recursive, defs)
  {
    InCodeByQuotes(sql, defs);
    WrittenDefinitionsAreFound(sql, withAt, recursive, recursiveAt, from, defs);
  }

  lemma InCodeByQuotes(sql: string, defs: seq<WrittenCte>)
    requires AllInside(sql, defs, InCode())
    ensures AllInside(sql, defs, ByQuotes())
  {
    forall k, s | 0 <= k < |defs| && Inside(sql, defs[k], s)
      ensures ByQuotes()(s)
    {
      assert InCode()(s);
      CommentFreeBalanced(s);
    }
  }

  // ----- Clauses with plain definitions -----

  lemma OneBlank(sql: string, i: nat)
    requires i < |sql| && IsSpace(sql[i])
    ensures TriviaAt(sql, i, i + 1)
  {
    assert PieceAt(sql, i, i + 1) && TriviaAt(sql, i + 1, i + 1);
  }

  lemma NotRecursive(sql: string, i: nat)
    ensures i < |sql| && Lower(sql[i]) != 'r' ==> !HasWordAt(sql, i, "recursive")
  {
    if HasWordAt(sql, i, "recursive") {
      WordBytes(sql, i, "recursive", 0);
    }
  }

  lemma AsHere(sql: string, i: nat)
    requires 0 < i && i + 2 < |sql| && sql[i - 1] == ' ' && sql[i] == 'a' && sql[i + 1] == 's' && sql[i + 2] == '('
    ensures HasWordAt(sql, i, "as")
  {
    assert sql[i..i + 2] == "as";
  }

  /** A definition of the form `n as(...)`, with one letter for a name. */
  ghost predicate PlainAt(sql: string, i: nat, s: nat, close: nat) {
    && i <= s && s + 4 < close < |sql| && (s == i || (s == i + 1 && sql[i] == ' '))
    && IsIdentByte(sql[s]) && Lower(sql[s]) != 'r' && sql[s + 1] == ' ' && sql[s + 2] == 'a' && sql[s + 3] == 's'
    && sql[s + 4] == '(' && sql[close] == ')' && (close + 1 == |sql| || sql[close + 1] == ',')
  }

  function Plain(sql: string, s: nat, close: nat): WrittenCte
    requires s < |sql|
  {
    WrittenCte([sql[s]], s, s + 1, None, s + 2, false, s + 4, false, s + 4, s + 4, close, close + 1)
  }

  lemma PlainHead(sql: string, i: nat, s: nat, close: nat)
    requires PlainAt(sql, i, s, close)
    ensures HeadsOf(sql)(i, Plain(sql, s, close))
  {
    if s != i {
      OneBlank(sql, i);
    }
    OneBlank(sql, s + 1);
    AsHere(sql, s + 2);
    NotRecursive(sql, s);
    assert BareAt(sql, s, s + 1, [sql[s]]);
    assert HeadAt(sql, i, Plain(sql, s, close));
  }

  lemma PlainIsWritten(sql: string, i: nat, s: nat, close: nat)
    requires PlainAt(sql, i, s, close)
    ensures WritingOf(sql)(i, Plain(sql, s, close))
  {
    PlainHead(sql, i, s, close);
    AsHere(sql, s + 2);
    assert BodyAt(sql, Plain(sql, s, close)) && EndAt(sql, Plain(sql, s, close));
  }

  lemma WithHere(sql: string)
    requires 4 < |sql| && sql[..5] == "with "
    ensures WithAt(sql, 0, false, 0, 4)
  {
    assert sql[0] == sql[..5][0] && sql[1] == sql[..5][1] && sql[2] == sql[..5][2] && sql[3] == sql[..5][3] && sql[4] == sql[..5][4];
    assert sql[0..4] == "with" && HasWordAt(sql, 0, "with");
  }

  /** An apostrophe in a comment, as in the word don't, and a second definition. */
  const APOSTROPHE := "with a as(x--'\n),b as(y)"

  lemma ApostropheWritten()
    ensures WritingOf(APOSTROPHE)(4, Plain(APOSTROPHE, 5, 15)) && WritingOf(APOSTROPHE)(17, Plain(APOSTROPHE, 17, 23))
  {
    PlainIsWritten(APOSTROPHE, 4, 5, 15);
    PlainIsWritten(APOSTROPHE, 17, 17, 23);
  }

  lemma TwoDefinitions(sql: string, written: Writing, i: nat, a: WrittenCte, b: WrittenCte)
    requires written(i, a) && CommaAt(sql, a.behind) && written(a.behind + 1, b) && !CommaAt(sql, b.behind)
    ensures DefinitionsAt(sql, written, i, [a, b])
  {
    assert [a, b][1..] == [b];
    assert DefinitionsAt(sql, written, a.behind + 1, [b]);
  }

  lemma ApostropheClause() returns (a: WrittenCte, b: WrittenCte)
    ensures a == Plain(APOSTROPHE, 5, 15) && b == Plain(APOSTROPHE, 17, 23)
    ensures ClauseAt(APOSTROPHE, 0, false, 0, 4, [a, b]) && WritingOf(APOSTROPHE)(4, a)
  {
    a, b := Plain(APOSTROPHE, 5, 15), Plain(APOSTROPHE, 17, 23);
    ApostropheWritten();
    assert APOSTROPHE[..5] == "with ";
    WithHere(APOSTROPHE);
    TwoDefinitions(APOSTROPHE, WritingOf(APOSTROPHE), 4, a, b);
  }

  lemma ApostropheUnclosed()
    ensures MatchingParen(APOSTROPHE, 9) == -1
  {
    QuoteOpened();
    MatchingParenIsFirst(APOSTROPHE, 9);
    forall k | 9 <= k < |APOSTROPHE|
      ensures !ClosesAt(APOSTROPHE, 9, k)
    {
      if 14 <= k {
        StaysQuoted(APOSTROPHE, 9, 14, k, '\'');
      }
    }
  }

  lemma QuoteOpened()
    ensures Quote(APOSTROPHE, 9, 14) == Some('\'')
  {
    assert Quote(APOSTROPHE, 9, 10) == Quote(APOSTROPHE, 9, 11) == Quote(APOSTROPHE, 9, 12) == Quote(APOSTROPHE, 9, 13) == None;
  }

  lemma ApostropheBalanced(s: string)
    requires s == "x--'\n" || s == "y"
    ensures Balanced(s)
  {
    NoParensNoDepth(s, |s|);
    if s == "y" {
      assert Lex(s, 1, 0) == Code && Lex(s, 1, 1) == Code;
    } else {
      assert Lex(s, 5, 0) == Code && Lex(s, 5, 1) == Code && Lex(s, 5, 2) == Second(LineComment);
      assert Lex(s, 5, 3) == LineComment && Lex(s, 5, 4) == LineComment && Lex(s, 5, 5) == Code;
    }
    forall k | 0 <= k <= |s|
      ensures CodeDepth(s, k) >= 0
    {
      NoParensNoDepth(s, k);
    }
  }

  /** The second definition of this clause is lost, although its bodies are balanced in code: the search for the first
      body's parenthesis takes the apostrophe in the comment for a quote and runs to the end of the text. */
  lemma ApostropheHidesDefinition() returns (a: WrittenCte, b: WrittenCte)
    ensures a == Plain(APOSTROPHE, 5, 15) && b == Plain(APOSTROPHE, 17, 23) && ClauseAt(APOSTROPHE, 0, false, 0, 4, [a, b])
    ensures Balanced(APOSTROPHE[a.open + 1..a.close]) && Balanced(APOSTROPHE[b.open + 1..b.close])
    ensures !ReadRightly(APOSTROPHE, false, [a, b])
    ensures |Ctes(APOSTROPHE)| == 1 && Ctes(APOSTROPHE)[0].name == a.name && Ctes(APOSTROPHE)[0].body == APOSTROPHE[10..]
  {
    a, b := ApostropheClause();
    assert APOSTROPHE[10..15] == "x--'\n" && APOSTROPHE[22..23] == "y";
    ApostropheBalanced(APOSTROPHE[10..15]);
    ApostropheBalanced(APOSTROPHE[22..23]);
    ApostropheUnclosed();
    PlaceRead(APOSTROPHE, 4, a);
    UnclosedTakesTheRest(APOSTROPHE, 4, a, false);
    var find := DefinitionFinder(APOSTROPHE);
    DefinitionsProgress(APOSTROPHE);
    CtesBegin(APOSTROPHE, 0, false, 0, 4, find);
    CollectedFrom(find, |APOSTROPHE|, 4, false, find(4, false).cte, find(4, false).next);
  }

  const SMALL := "with a as(x)"

  /** A clause that is read rightly. */
  lemma SmallClauseIsRead() returns (d: WrittenCte)
    ensures d == Plain(SMALL, 5, 11) && ClauseAt(SMALL, 0, false, 0, 4, [d]) && ReadRightly(SMALL, false, [d])
  {
    d := Plain(SMALL, 5, 11);
    PlainIsWritten(SMALL, 4, 5, 11);
    assert SMALL[..5] == "with " && SMALL[10..11] == "x";
    WithHere(SMALL);
    UnbracketedBalanced(SMALL[10..11]);
    WrittenDefinitionsAreFound(SMALL, 0, false, 0, 4, [d]);
  }
}
