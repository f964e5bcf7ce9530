/** The parts of a query text that are analyzed on their own: subqueries and the definitions of a
    WITH clause. */
module QueryParts {
  import opened Wrappers
  import opened QueryTypes
  import opened Scanners
  import opened SelectScopes
  import opened Identifiers

  type Lowering = string -> string

  // ----- Column aliases -----

  predicate AliasIn(text: string, a: ColumnAlias) {
    a.name != "" && a.start < a.end <= |text|
  }

  /** The alias at one item of the list that begins at `base`, if the item has a name. */
  function ItemAlias(sql: string, base: nat, item: Range): seq<ColumnAlias> {
    if item.start < 0 then []
    else
      var start := SkipSpace(sql, base + item.start);
      var (name, end) := Identifier(sql, start);
      if name == "" then [] else [ColumnAlias(name, start, end)]
  }

  type ItemReader = Range -> seq<ColumnAlias>

  function AliasReader(sql: string, base: nat): ItemReader {
    item => ItemAlias(sql, base, item)
  }

  /** What is read at each item, in order. */
  function ReadAll(read: ItemReader, items: seq<Range>): seq<ColumnAlias> {
    if items == [] then [] else ReadAll(read, items[..|items| - 1]) + read(items[|items| - 1])
  }

  /** The column aliases in parentheses behind a name that ends at `aliasEnd`. */
  function ColumnAliases(sql: string, aliasEnd: nat): seq<ColumnAlias> {
    var open := SkipSpace(sql, aliasEnd);
    if open >= |sql| || sql[open] != '(' then []
    else
      var close := MatchingParen(sql, open);
      if close < 0 then [] else ListAliases(sql, open, close)
  }

  function ListAliases(sql: string, open: nat, close: nat): seq<ColumnAlias>
    requires open < close <= |sql|
  {
    ReadAll(AliasReader(sql, open + 1), TopLevelRanges(sql[open + 1..close], ','))
  }

  lemma SpaceSkipped(text: string, i: nat)
    ensures SkipSpace(text, SkipSpace(text, i)) == SkipSpace(text, i)
  {
  }

  lemma ItemAliasIn(sql: string, base: nat, item: Range)
    ensures forall a :: a in ItemAlias(sql, base, item) ==> AliasIn(sql, a)
  {
    if 0 <= item.start {
      SpaceSkipped(sql, base + item.start);
    }
  }

  lemma {:induction false} ReadAllFrom(read: ItemReader, items: seq<Range>, a: ColumnAlias)
    ensures a in ReadAll(read, items) <==> exists item :: item in items && a in read(item)
  {
    if items != [] {
      ReadAllFrom(read, items[..|items| - 1], a);
      assert items == items[..|items| - 1] + [items[|items| - 1]];
    }
  }

  lemma ColumnAliasesIn(sql: string, aliasEnd: nat)
    ensures forall a :: a in ColumnAliases(sql, aliasEnd) ==> AliasIn(sql, a)
  {
    var open := SkipSpace(sql, aliasEnd);
    if open < |sql| && sql[open] == '(' && MatchingParen(sql, open) >= 0 {
      var items := TopLevelRanges(sql[open + 1..MatchingParen(sql, open)], ',');
      forall a | a in ColumnAliases(sql, aliasEnd)
        ensures AliasIn(sql, a)
      {
        ReadAllFrom(AliasReader(sql, open + 1), items, a);
        var item :| item in items && a in AliasReader(sql, open + 1)(item);
        ItemAliasIn(sql, open + 1, item);
      }
    }
  }

  /** The alias `a` is the name that the item begins with. */
  ghost predicate NamesItem(sql: string, base: nat, item: Range, a: ColumnAlias) {
    && 0 <= item.start && a.start == SkipSpace(sql, base + item.start)
    && a.name != "" && Identifier(sql, a.start) == (a.name, a.end)
  }

  /** The list in parentheses behind the name: exactly the items that begin with a name give an alias, which is
      that name at its place. */
  lemma ColumnAliasesMeaning(sql: string, aliasEnd: nat, open: nat, close: nat, items: seq<Range>, a: ColumnAlias)
    requires SkipSpace(sql, aliasEnd) == open < close < |sql| && sql[open] == '(' && MatchingParen(sql, open) == close
    requires items == TopLevelRanges(sql[open + 1..close], ',')
    ensures a in ColumnAliases(sql, aliasEnd) <==> exists item :: item in items && NamesItem(sql, open + 1, item, a)
  {
    ListRead(sql, aliasEnd, open, close);
    ReadMeaning(sql, open + 1, AliasReader(sql, open + 1), items, a);
  }

  lemma ListRead(sql: string, aliasEnd: nat, open: nat, close: nat)
    requires SkipSpace(sql, aliasEnd) == open < close < |sql| && sql[open] == '(' && MatchingParen(sql, open) == close
    ensures ColumnAliases(sql, aliasEnd) == ListAliases(sql, open, close)
  {
  }

  lemma ReadMeaning(sql: string, base: nat, read: ItemReader, items: seq<Range>, a: ColumnAlias)
    requires read == AliasReader(sql, base)
    ensures a in ReadAll(read, items) <==> exists item :: item in items && NamesItem(sql, base, item, a)
  {
    ReadAllFrom(read, items, a);
    forall item
      ensures a in read(item) <==> NamesItem(sql, base, item, a)
    {
      ItemNamed(sql, base, item, a);
    }
  }

  lemma ItemNamed(sql: string, base: nat, item: Range, a: ColumnAlias)
    ensures a in ItemAlias(sql, base, item) <==> NamesItem(sql, base, item, a)
  {
  }

  /** Without such a list there are no aliases. */
  lemma NoColumnAliases(sql: string, aliasEnd: nat)
    requires var open := SkipSpace(sql, aliasEnd); open >= |sql| || sql[open] != '(' || MatchingParen(sql, open) < 0
    ensures ColumnAliases(sql, aliasEnd) == []
  {
  }

  /** The loop over the items. */
  method CollectAliases(read: ItemReader, items: seq<Range>) returns (aliases: seq<ColumnAlias>)
    ensures aliases == ReadAll(read, items)
  {
    aliases := [];
    for k := 0 to |items|
      invariant aliases == ReadAll(read, items[..k])
    {
      assert items[..k + 1][..k] == items[..k];
      aliases := aliases + read(items[k]);
    }
    assert items[..|items|] == items;
  }

  method ReadColumnAliases(sql: string, aliasEnd: nat) returns (aliases: seq<ColumnAlias>)
    ensures aliases == ColumnAliases(sql, aliasEnd)
  {
    var open := SkipSpace(sql, aliasEnd);
    if open >= |sql| || sql[open] != '(' {
      return [];
    }
    var close := FindMatchingParen(sql, open);
    if close < 0 {
      return [];
    }
    var items := SplitTopLevelRanges(sql[open + 1..close], ',');
    aliases := CollectAliases(AliasReader(sql, open + 1), items);
  }

  // ----- Subqueries -----

  /** Where an alias behind the parenthesis `close` would start: behind an optional AS. */
  function AliasPlace(sql: string, close: nat): (r: nat)
    ensures close < r
  {
    var after := SkipSpace(sql, close + 1);
    if HasWordAt(sql, after, "as") then SkipSpace(sql, after + 2) else after
  }

  /** The alias is looked for at the first byte behind the parenthesis that is no white space, or behind the AS that
      stands there. */
  lemma AliasPlaceMeaning(sql: string, close: nat, j: nat, k: nat)
    requires close < |sql| && SpaceUpTo(sql, close + 1, j)
    requires if HasWordAt(sql, j, "as") then j + 2 <= |sql| && SpaceUpTo(sql, j + 2, k) else k == j
    ensures AliasPlace(sql, close) == k
  {
    SkippedTo(sql, close + 1, j);
    if HasWordAt(sql, j, "as") {
      SkippedTo(sql, j + 2, k);
    }
  }

  lemma AliasPlaceSkipped(sql: string, close: nat)
    ensures SkipSpace(sql, AliasPlace(sql, close)) == AliasPlace(sql, close)
  {
    SpaceSkipped(sql, close + 1);
    SpaceSkipped(sql, SkipSpace(sql, close + 1) + 2);
  }

  /** The alias at a place and its end; a keyword is none. */
  function AliasAt(sql: string, place: nat, lower: Lowering): (r: (string, nat))
    ensures r.0 != "" ==> SkipSpace(sql, place) < r.1 <= |sql|
  {
    var (name, end) := Identifier(sql, place);
    (if name != "" && IsKeyword(lower(name)) then "" else name, end)
  }

  function SubqueryFrom(sql: string, i: nat, close: nat, lower: Lowering): Subquery
    requires i < close < |sql|
  {
    var place := AliasPlace(sql, close);
    var (alias, aliasEnd) := AliasAt(sql, place, lower);
    Subquery(alias, sql[i + 1..close], place, aliasEnd, i + 1, if alias != "" then ColumnAliases(sql, aliasEnd) else [])
  }

  /** The parenthesis at `i`, if it starts a query and is closed, with the alias behind it. */
  function SubqueryAt(sql: string, i: nat, lower: Lowering): Option<Subquery>
    requires i < |sql|
  {
    match QueryEnd(sql, i)
    case None => None
    case Some(close) => Some(SubqueryFrom(sql, i, close, lower))
  }

  /** The subquery at each place. */
  function SubqueryFinder(sql: string, lower: Lowering): nat -> Option<Subquery> {
    (i: nat) => if i < |sql| then SubqueryAt(sql, i, lower) else None
  }

  /** What is found at the first `i` places, in order. */
  function FoundUpTo(at: nat -> Option<Subquery>, i: nat): seq<Subquery> {
    if i == 0 then []
    else FoundUpTo(at, i - 1) + match at(i - 1) case None => [] case Some(s) => [s]
  }

  /** Every subquery of the text, nested ones included, in order. */
  function Subqueries(sql: string, lower: Lowering): seq<Subquery> {
    FoundUpTo(SubqueryFinder(sql, lower), |sql|)
  }

  lemma {:induction false} FoundMeaning(at: nat -> Option<Subquery>, i: nat, s: Subquery)
    ensures s in FoundUpTo(at, i) <==> exists k: nat :: k < i && at(k) == Some(s)
  {
    if i > 0 {
      FoundMeaning(at, i - 1, s);
      if at(i - 1) == Some(s) {
        assert s in FoundUpTo(at, i);
      }
    }
  }

  /** What is known of a subquery: its body is the text between a parenthesis and the one that closes
      it, and an alias stands behind it. */
  ghost predicate IsQueryBody(sql: string, s: Subquery) {
    && 1 <= s.bodyStart && s.bodyStart + |s.body| < |sql| && Reads(sql, s.bodyStart, s.body)
    && sql[s.bodyStart - 1] == '(' && OpensQuery(sql, s.bodyStart - 1)
    && MatchingParen(sql, s.bodyStart - 1) == s.bodyStart + |s.body|
    && (s.alias != "" ==> s.bodyStart + |s.body| < s.aliasStart < s.aliasEnd <= |sql|)
    && (forall a :: a in s.columnAliases ==> AliasIn(sql, a))
  }

  lemma SubqueryAtIsQueryBody(sql: string, i: nat, lower: Lowering)
    requires i < |sql| && SubqueryAt(sql, i, lower).Some?
    ensures IsQueryBody(sql, SubqueryAt(sql, i, lower).value) && SubqueryAt(sql, i, lower).value.bodyStart == i + 1
  {
    var close := QueryEnd(sql, i).value;
    var place := AliasPlace(sql, close);
    AliasPlaceSkipped(sql, close);
    ColumnAliasesIn(sql, AliasAt(sql, place, lower).1);
  }

  /** The list holds exactly the query bodies of the text: one for each parenthesis that starts a
      query and is closed, at any depth. */
  lemma SubqueriesMeaning(sql: string, lower: Lowering, s: Subquery)
    ensures s in Subqueries(sql, lower) <==> exists k: nat :: k < |sql| && SubqueryAt(sql, k, lower) == Some(s)
    ensures s in Subqueries(sql, lower) ==> IsQueryBody(sql, s)
  {
    var at := SubqueryFinder(sql, lower);
    FoundMeaning(at, |sql|, s);
    if s in Subqueries(sql, lower) {
      var k: nat :| k < |sql| && at(k) == Some(s);
      assert SubqueryAt(sql, k, lower) == Some(s);
      SubqueryAtIsQueryBody(sql, k, lower);
    }
    forall k: nat | k < |sql| && SubqueryAt(sql, k, lower) == Some(s)
      ensures at(k) == Some(s)
    {
    }
  }

  /** The loop over all places, which does not skip the bodies it finds. */
  method CollectSubqueries(at: nat -> Option<Subquery>, n: nat) returns (result: seq<Subquery>)
    ensures result == FoundUpTo(at, n)
  {
    result := [];
    for i: nat := 0 to n
      invariant result == FoundUpTo(at, i)
    {
      if at(i).Some? {
        result := result + [at(i).value];
      }
    }
  }

  method ExtractSubqueries(sql: string, lower: Lowering) returns (result: seq<Subquery>)
    ensures result == Subqueries(sql, lower)
  {
    result := CollectSubqueries(SubqueryFinder(sql, lower), |sql|);
  }

  // ----- WITH clauses -----

  /** Behind the column list of a definition, if it has one that is closed; none if it is not closed. */
  function BehindColumns(sql: string, nameEnd: nat): (r: Option<nat>)
    ensures r.Some? ==> nameEnd <= r.value
  {
    var j := SkipTrivia(sql, nameEnd);
    if j < |sql| && sql[j] == '(' then
      var close := MatchingParen(sql, j);
      if close < 0 then None else Some(SkipTrivia(sql, close + 1))
    else Some(j)
  }

  /** Behind an optional word. */
  function BehindWord(sql: string, i: nat, word: string): (r: nat)
    ensures i <= r
  {
    if HasWordAt(sql, i, word) then SkipTrivia(sql, i + |word|) else i
  }

  /** The parenthesis of the body, behind AS and an optional [NOT] MATERIALIZED. */
  function BodyOpen(sql: string, j: nat): (r: Option<nat>)
    ensures r.Some? ==> j < r.value < |sql| && sql[r.value] == '('
  {
    if !HasWordAt(sql, j, "as") then None
    else
      var c := BehindWord(sql, BehindWord(sql, SkipTrivia(sql, j + 2), "not"), "materialized");
      if c < |sql| && sql[c] == '(' then Some(c) else None
  }

  /** Where the body opened at `open` ends: an unclosed one takes the rest of the text. */
  function BodyEnd(sql: string, open: nat): (r: nat)
    requires open < |sql| && sql[open] == '('
    ensures open < r <= |sql|
  {
    var close := MatchingParen(sql, open);
    if close < 0 then |sql| else close
  }

  /** The parenthesis of the body of a definition whose name ends at `nameEnd`. */
  function BodyPlace(sql: string, nameEnd: nat): (r: Option<nat>)
    ensures r.Some? ==> nameEnd < r.value < |sql| && sql[r.value] == '('
  {
    match BehindColumns(sql, nameEnd)
    case None => None
    case Some(j) => BodyOpen(sql, j)
  }

  /** The end of a definition's name and the parenthesis of its body. */
  datatype Places = Places(nameEnd: nat, open: nat)

  /** The definition at `i`, a place where nothing is left to skip. */
  function DefinitionAt(sql: string, i: nat): (r: Option<Places>)
    requires SkipTrivia(sql, i) == i
    ensures r.Some? ==> i < r.value.nameEnd < r.value.open < |sql| && sql[r.value.open] == '('
  {
    TriviaSkippedOnce(sql, i);
    var (name, nameEnd) := Identifier(sql, i);
    if name == "" then None
    else match BodyPlace(sql, nameEnd)
      case None => None
      case Some(open) => Some(Places(nameEnd, open))
  }

  function CteFrom(sql: string, i: nat, places: Places, recursive: bool): (r: Cte)
    requires i < places.nameEnd < places.open < |sql| && sql[places.open] == '('
    ensures i == r.nameStart < r.nameEnd < r.bodyStart <= r.End() <= |sql|
  {
    var end := BodyEnd(sql, places.open);
    Cte(Identifier(sql, i).0, sql[i..places.nameEnd], sql[places.open + 1..end], i, places.nameEnd, places.open + 1,
        ColumnAliases(sql, places.nameEnd), recursive)
  }

  /** Where the next definition can start: behind a comma that follows the body. */
  function NextDefinition(sql: string, end: nat): (r: Option<nat>)
    ensures r.Some? ==> end < r.value <= |sql|
  {
    if end >= |sql| then None
    else
      var k := SkipTrivia(sql, end + 1);
      if k < |sql| && sql[k] == ',' then Some(k + 1) else None
  }

  /** What the scan finds next: the word RECURSIVE, a definition, or nothing. */
  datatype Found = Nothing | RecursiveWord(resume: nat) | Definition(cte: Cte, next: Option<nat>)

  function FoundWith(sql: string, cte: Cte): Found {
    Definition(cte, NextDefinition(sql, cte.End()))
  }

  function FindNext(sql: string, i: nat, recursive: bool): (r: Found)
    requires i < |sql|
    ensures r.RecursiveWord? ==> i < r.resume <= |sql|
    ensures r.Definition? ==> i <= r.cte.nameStart < r.cte.nameEnd < r.cte.bodyStart <= r.cte.End() <= |sql|
    ensures r.Definition? && r.next.Some? ==> r.cte.End() < r.next.value <= |sql|
  {
    var s := SkipTrivia(sql, i);
    if HasWordAt(sql, s, "recursive") then RecursiveWord(s + 9)
    else
      TriviaSkippedOnce(sql, i);
      match DefinitionAt(sql, s)
      case None => Nothing
      case Some(places) => FoundWith(sql, CteFrom(sql, s, places, recursive))
  }

  type Finder = (nat, bool) -> Found

  function DefinitionFinder(sql: string): Finder {
    (i: nat, recursive: bool) => if i < |sql| then FindNext(sql, i, recursive) else Nothing
  }

  /** A find at `i` lies at or behind `i`, and the next one starts behind it. */
  predicate GoesOn(found: Found, i: nat, n: nat) {
    && (found.RecursiveWord? ==> i < found.resume <= n)
    && (found.Definition? ==> i <= found.cte.nameStart < found.cte.nameEnd < found.cte.bodyStart <= found.cte.End() <= n)
    && (found.Definition? && found.next.Some? ==> found.cte.End() < found.next.value <= n)
  }

  ghost predicate Progresses(find: Finder, n: nat) {
    forall i: nat, recursive: bool :: i < n ==> GoesOn(find(i, recursive), i, n)
  }

  lemma DefinitionsProgress(sql: string)
    ensures Progresses(DefinitionFinder(sql), |sql|)
  {
  }

  function CtesFrom(find: Finder, n: nat, i: nat, recursive: bool): seq<Cte>
    requires Progresses(find, n)
    decreases if i <= n then n - i else 0
  {
    if i >= n then []
    else match find(i, recursive)
      case Nothing => []
      case RecursiveWord(next) => CtesFrom(find, n, next, true)
      case Definition(cte, next) =>
        if next.None? then [cte] else [cte] + CtesFrom(find, n, next.value, recursive)
  }

  /** Behind the word WITH that the text starts with, if it does. */
  function WithClause(sql: string): Option<nat> {
    var i := SkipTrivia(sql, 0);
    if HasWordAt(sql, i, "with") then Some(i + 4) else None
  }

  /** The definitions of the WITH clause the text starts with, if any. */
  function Ctes(sql: string): seq<Cte> {
    DefinitionsProgress(sql);
    match WithClause(sql)
    case None => []
    case Some(start) => CtesFrom(DefinitionFinder(sql), |sql|, start, false)
  }

  ghost predicate IsDefinition(sql: string, c: Cte) {
    && c.nameStart < c.nameEnd < c.bodyStart <= c.End() <= |sql|
    && Reads(sql, c.bodyStart, c.body) && Reads(sql, c.nameStart, c.identifier) && |c.identifier| == c.nameEnd - c.nameStart
    && c.name == Identifier(sql, c.nameStart).0 != ""
    && sql[c.bodyStart - 1] == '(' && c.End() == BodyEnd(sql, c.bodyStart - 1)
    && (forall a :: a in c.columnAliases ==> AliasIn(sql, a))
  }

  lemma CteFromIn(sql: string, i: nat, places: Places, recursive: bool)
    requires i < places.nameEnd < places.open < |sql| && sql[places.open] == '(' && Identifier(sql, i).0 != ""
    ensures IsDefinition(sql, CteFrom(sql, i, places, recursive))
  {
    ColumnAliasesIn(sql, places.nameEnd);
  }

  lemma FoundIn(sql: string, i: nat, recursive: bool)
    requires i < |sql| && FindNext(sql, i, recursive).Definition?
    ensures IsDefinition(sql, FindNext(sql, i, recursive).cte)
  {
    var s := SkipTrivia(sql, i);
    TriviaSkippedOnce(sql, i);
    CteFromIn(sql, s, DefinitionAt(sql, s).value, recursive);
  }

  lemma CtesOrderStep(first: Cte, later: seq<Cte>, from: nat, next: nat)
    requires from <= first.nameStart <= first.End() < next && CtesInOrder(later, next)
    ensures CtesInOrder([first] + later, from)
  {
  }

  ghost predicate FoundBy(find: Finder, n: nat, c: Cte) {
    exists i: nat, recursive: bool :: i < n && find(i, recursive).Definition? && find(i, recursive).cte == c
  }

  lemma {:induction false} CtesFromInOrder(find: Finder, n: nat, i: nat, recursive: bool, ctes: seq<Cte>)
    requires Progresses(find, n) && ctes == CtesFrom(find, n, i, recursive)
    ensures CtesInOrder(ctes, i)
    ensures forall k :: 0 <= k < |ctes| ==> FoundBy(find, n, ctes[k])
    decreases if i <= n then n - i else 0
  {
    if i < n {
      assert GoesOn(find(i, recursive), i, n);
      match find(i, recursive)
      case Nothing =>
      case RecursiveWord(next) => CtesFromInOrder(find, n, next, true, ctes);
      case Definition(cte, next) =>
        assert FoundBy(find, n, cte);
        if next.Some? {
          var later := CtesFrom(find, n, next.value, recursive);
          CtesFromInOrder(find, n, next.value, recursive, later);
          CtesOrderStep(cte, later, i, next.value);
        }
    }
  }

  lemma FoundIsDefinition(sql: string, c: Cte)
    requires FoundBy(DefinitionFinder(sql), |sql|, c)
    ensures IsDefinition(sql, c)
  {
    var find := DefinitionFinder(sql);
    var j: nat, recursive: bool :| j < |sql| && find(j, recursive).Definition? && find(j, recursive).cte == c;
    assert find(j, recursive) == FindNext(sql, j, recursive);
    FoundIn(sql, j, recursive);
  }

  /** The definitions lie in the text one behind the other, each body strictly shorter than the text. */
  lemma CtesMeaning(sql: string, ctes: seq<Cte>)
    requires ctes == Ctes(sql)
    ensures forall k :: 0 <= k < |ctes| ==> IsDefinition(sql, ctes[k])
    ensures CtesInOrder(ctes, 0)
  {
    match WithClause(sql)
    case None =>
    case Some(start) =>
      DefinitionsProgress(sql);
      CtesFromInOrder(DefinitionFinder(sql), |sql|, start, false, ctes);
      forall k | 0 <= k < |ctes|
        ensures IsDefinition(sql, ctes[k])
      {
        FoundIsDefinition(sql, ctes[k]);
      }
  }

  /** The loop over the definitions. */
  method CollectCtes(find: Finder, n: nat, start: nat) returns (result: seq<Cte>)
    requires Progresses(find, n)
    ensures result == CtesFrom(find, n, start, false)
  {
    result := [];
    var i := start;
    var recursive := false;
    while i < n
      invariant CtesFrom(find, n, start, false) == result + CtesFrom(find, n, i, recursive)
      decreases if i <= n then n - i else 0
    {
      assert GoesOn(find(i, recursive), i, n);
      match find(i, recursive) {
        case Nothing => return;
        case RecursiveWord(next) =>
          recursive := true;
          i := next;
        case Definition(cte, next) =>
          result := result + [cte];
          if next.None? {
            return;
          }
          i := next.value;
      }
    }
  }

  method ExtractCTEDefs(sql: string) returns (result: seq<Cte>)
    ensures result == Ctes(sql)
  {
    var start := WithClause(sql);
    if start.None? {
      return [];
    }
    DefinitionsProgress(sql);
    result := CollectCtes(DefinitionFinder(sql), |sql|, start.value);
  }
}
