/** What a relation pattern's match turns out to be, and which alias it gets. */
module RelationAliases {
  import opened Wrappers
  import opened QueryTypes
  import opened Scanners
  import opened SelectScopes
  import opened Identifiers
  import opened QueryParts
  import opened WithClauses
  import opened QueryAnalysis

  /** The words that are no relations and no aliases. */
  ghost predicate IsReserved(o: Oracles, word: string) {
    o.lower(word) in ["select", "from", "as", "where", "group", "order", "limit", "on", "join", "left", "right", "inner", "outer", "full", "cross"]
  }

  /** The name stands as it is written there, and no keyword. */
  ghost predicate IsNamed(text: string, m: Match, o: Oracles, name: string) {
    MatchIn(m, |text|) && name == Normalized(text[m.nameStart..m.nameEnd]) && name != "" && !IsReserved(o, name)
  }

  /** The name is followed by an opening parenthesis, after white space only. */
  ghost predicate IsCall(text: string, m: Match) {
    exists j: nat :: SpaceUpTo(text, m.nameEnd, j) && j < |text| && text[j] == '('
  }

  /** An alias written without AS: a name behind the relation, after white space only, and no keyword. */
  ghost predicate WordBehind(text: string, m: Match, o: Oracles, j: nat, end: nat, word: string) {
    SpaceUpTo(text, m.nameEnd, j) && end <= |text| && NameAt(text, j, end, word) && !IsReserved(o, word)
  }

  /** Behind the relation, after white space only, stands no name or a keyword. */
  ghost predicate NothingBehind(text: string, m: Match, o: Oracles) {
    exists j: nat :: SpaceUpTo(text, m.nameEnd, j) && (NoNameAt(text, j) || exists end, word :: NameAt(text, j, end, word) && IsReserved(o, word))
  }

  ghost predicate NoNameAt(text: string, j: nat) {
    j < |text| ==> !IsIdentByte(text[j]) && text[j] != '"' && text[j] != '`'
  }

  /** A match is skipped exactly when its name is empty or a keyword. */
  lemma SkippedIff(text: string, m: Match, o: Oracles)
    requires MatchIn(m, |text|)
    ensures UseAt(text, m, o).Skipped? <==> !IsNamed(text, m, o, Normalized(text[m.nameStart..m.nameEnd]))
  {
  }

  /** Otherwise it is a call of a table function exactly when a parenthesis follows. */
  lemma TableFunctionIff(text: string, m: Match, o: Oracles, name: string)
    requires IsNamed(text, m, o, name)
    ensures UseAt(text, m, o).TableFunction? <==> IsCall(text, m)
    ensures UseAt(text, m, o).Relation? <==> !IsCall(text, m)
    ensures UseAt(text, m, o).name == name
  {
    var j := SkipSpace(text, m.nameEnd);
    SpaceSkippedUpTo(text, m.nameEnd);
    forall k: nat | SpaceUpTo(text, m.nameEnd, k)
      ensures k == j
    {
      SkippedTo(text, m.nameEnd, k);
    }
  }

  /** The alias stands there as it is written. */
  ghost predicate HasAlias(text: string, u: Use, start: nat, end: nat) {
    u.Relation? && u.aliasStart == start && u.aliasEnd == end && start <= end <= |text| && u.alias == text[start..end]
  }

  /** There is no alias: the last part of the name counts, at the place of the name. */
  ghost predicate HasNone(u: Use, m: Match, name: string) {
    u.Relation? && u.alias == ShortName(name) && u.aliasStart == m.nameStart && u.aliasEnd == m.nameEnd
  }

  /** An alias with AS is the alias unless it is a keyword, and then there is none. */
  lemma WrittenAliasIsTaken(text: string, m: Match, o: Oracles, name: string)
    requires IsNamed(text, m, o, name) && !IsCall(text, m) && m.alias.Some?
    ensures var (start, end) := m.alias.value;
            var u := UseAt(text, m, o);
            if IsReserved(o, text[start..end]) then HasNone(u, m, name) else HasAlias(text, u, start, end)
  {
    TableFunctionIff(text, m, o, name);
  }

  /** Without AS the name behind the relation is the alias. */
  lemma WordBehindIsTaken(text: string, m: Match, o: Oracles, name: string, j: nat, end: nat, word: string)
    requires IsNamed(text, m, o, name) && !IsCall(text, m) && m.alias.None? && WordBehind(text, m, o, j, end, word)
    ensures HasAlias(text, UseAt(text, m, o), j, end)
  {
    TableFunctionIff(text, m, o, name);
    SkippedTo(text, m.nameEnd, j);
    NameRead(text, j, end, word);
  }

  lemma NoNameRead(text: string, j: nat)
    requires NoNameAt(text, j) && SkipSpace(text, j) == j
    ensures Identifier(text, j).0 == ""
  {
  }

  /** And if none stands there, or a keyword, there is no alias. */
  lemma NothingBehindIsNone(text: string, m: Match, o: Oracles, name: string)
    requires IsNamed(text, m, o, name) && !IsCall(text, m) && m.alias.None? && NothingBehind(text, m, o)
    ensures HasNone(UseAt(text, m, o), m, name)
  {
    TableFunctionIff(text, m, o, name);
    var j: nat :| SpaceUpTo(text, m.nameEnd, j) && (NoNameAt(text, j) || exists end, word :: NameAt(text, j, end, word) && IsReserved(o, word));
    SkippedTo(text, m.nameEnd, j);
    SkippedTo(text, j, j);
    if NoNameAt(text, j) {
      NoNameRead(text, j);
    } else {
      var end, word :| NameAt(text, j, end, word) && IsReserved(o, word);
      NameRead(text, j, end, word);
    }
  }

  /** A qualified name in quotes loses those of its last part too. */
  lemma ShortNameUnquotes(a: string, b: string, q: char)
    requires (a == "" || a[|a| - 1] == '.') && '.' !in b && b != "" && !IsQuote(b[0]) && !IsQuote(b[|b| - 1]) && IsQuote(q) && q != '.'
    ensures ShortName(a + ([q] + b + [q])) == b
  {
    var quoted := [q] + b + [q];
    AfterDot(a, quoted, a + quoted);
    assert (a + quoted)[|a|..] == quoted;
    assert quoted[1..] == b + [q] && (b + [q])[..|b|] == b;
    assert TrimQuotes(quoted) == TrimQuotes(b + [q]) == TrimQuotes(b) == b;
  }

  // ----- Subqueries -----

  /** A subquery's alias is the name at the place behind its parenthesis, with the column list behind it. */
  lemma SubqueryAliasIsTaken(sql: string, i: nat, close: nat, end: nat, word: string, o: Oracles)
    requires i < close < |sql| && NameAt(sql, AliasPlace(sql, close), end, word) && !IsReserved(o, word)
    ensures var s := SubqueryFrom(sql, i, close, o.lower);
            && s.alias == word && s.aliasStart == AliasPlace(sql, close) && s.aliasEnd == end && s.columnAliases == ColumnAliases(sql, end)
            && s.body == sql[i + 1..close] && s.bodyStart == i + 1
  {
    NameRead(sql, AliasPlace(sql, close), end, word);
  }

  /** If none stands there, or a keyword, it has no alias and no columns. */
  lemma NoSubqueryAlias(sql: string, i: nat, close: nat, o: Oracles)
    requires i < close < |sql|
    requires NoNameAt(sql, AliasPlace(sql, close)) || exists end, word :: NameAt(sql, AliasPlace(sql, close), end, word) && IsReserved(o, word)
    ensures var s := SubqueryFrom(sql, i, close, o.lower);
            s.alias == "" && s.columnAliases == [] && s.body == sql[i + 1..close] && s.bodyStart == i + 1
  {
    var place := AliasPlace(sql, close);
    AliasPlaceSkipped(sql, close);
    if NoNameAt(sql, place) {
      NoNameRead(sql, place);
    } else {
      var end, word :| NameAt(sql, place, end, word) && IsReserved(o, word);
      NameRead(sql, place, end, word);
    }
  }

  // ----- The last part of a name -----

  lemma {:induction false} AfterDot(a: string, b: string, name: string)
    requires name == a + b && (a == "" || a[|a| - 1] == '.') && '.' !in b
    ensures AfterLastDot(name) == |a|
    decreases |b|
  {
    if b != "" {
      var shorter := b[..|b| - 1];
      assert name[..|name| - 1] == a + shorter && name[|name| - 1] == b[|b| - 1];
      AfterDot(a, shorter, name[..|name| - 1]);
    } else if a != "" {
      assert name[|name| - 1] == '.';
    }
  }

  /** The short name is what stands behind the last dot. */
  lemma ShortNameIsLast(a: string, b: string)
    requires (a == "" || a[|a| - 1] == '.') && '.' !in b && b != "" && !IsQuote(b[0]) && !IsQuote(b[|b| - 1])
    ensures ShortName(a + b) == b
  {
    AfterDot(a, b, a + b);
    assert (a + b)[|a|..] == b;
  }
}
