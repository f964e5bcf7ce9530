/** The column list of a definition or an alias: which of the written names are read. */
module ColumnLists {
  import opened Wrappers
  import opened QueryTypes
  import opened Scanners
  import opened SelectScopes
  import opened Identifiers
  import opened QueryParts
  import opened Parentheses
  import opened WithClauses

  // ----- Where the list is looked for -----

  lemma {:induction false} SpaceEnds(sql: string, i: nat, j: nat)
    requires i <= j < |sql| && !IsSpace(sql[j])
    ensures SkipSpace(sql, i) <= j
    decreases j - i
  {
    if i < j && IsSpace(sql[i]) {
      SpaceEnds(sql, i + 1, j);
    }
  }

  /** Behind the white space, the first thing before the next token is a comment. */
  lemma CommentFirst(sql: string, i: nat, j: nat, p: nat)
    requires TriviaAt(sql, i, j) && j < |sql| && !StartsTrivia(sql, j) && p == SkipSpace(sql, i) && p != j
    ensures p < |sql| && (sql[p] == '-' || sql[p] == '/')
  {
    SpaceEnds(sql, i, j);
    TriviaSkippedExactly(sql, i, j);
    SkippedFromSettled(sql, i);
    if !StartsTrivia(sql, p) {
      NothingSkipped(sql, p);
    }
  }

  /** The definition is found past any comments, but its column list only past white space: with a comment between the
      name and the list, the definition has no column aliases. */
  lemma ColumnsReadIff(sql: string, nameEnd: nat, open: nat)
    requires TriviaAt(sql, nameEnd, open) && open < |sql| && sql[open] == '('
    ensures var close := MatchingParen(sql, open);
            ColumnAliases(sql, nameEnd) == if SkipSpace(sql, nameEnd) == open && close >= 0 then ListAliases(sql, open, close) else []
  {
    MatchingParenIsFirst(sql, open);
    if SkipSpace(sql, nameEnd) != open {
      CommentFirst(sql, nameEnd, open, SkipSpace(sql, nameEnd));
      NoColumnAliases(sql, nameEnd);
    } else if MatchingParen(sql, open) >= 0 {
      ListRead(sql, nameEnd, open, MatchingParen(sql, open));
    }
  }

  // ----- Which names of the list are read -----

  datatype WrittenColumn = WrittenColumn(name: string, start: nat, end: nat)

  /** The item begins with white space and comments and a name. */
  ghost predicate ColumnAt(sql: string, base: nat, item: Range, c: WrittenColumn) {
    0 <= item.start && TriviaAt(sql, base + item.start, c.start) && NameAt(sql, c.start, c.end, c.name)
  }

  /** Only white space stands before the name. */
  ghost predicate SpaceBefore(sql: string, base: nat, item: Range, c: WrittenColumn) {
    0 <= item.start && SkipSpace(sql, base + item.start) == c.start
  }

  /** A name with only white space before it is read; one with a comment before it is not. */
  lemma ColumnReadIff(sql: string, base: nat, item: Range, c: WrittenColumn)
    requires ColumnAt(sql, base, item, c)
    ensures ItemAlias(sql, base, item) == if SpaceBefore(sql, base, item, c) then [ColumnAlias(c.name, c.start, c.end)] else []
  {
    NameRead(sql, c.start, c.end, c.name);
    if !SpaceBefore(sql, base, item, c) {
      var p := SkipSpace(sql, base + item.start);
      CommentFirst(sql, base + item.start, c.start, p);
      assert Identifier(sql, p).0 == "";
    }
  }

  type ColumnTest = (Range, WrittenColumn) -> bool

  ghost function ColumnsOf(sql: string, base: nat): ColumnTest {
    (item, c) => ColumnAt(sql, base, item, c)
  }

  ghost function SpacesOf(sql: string, base: nat): ColumnTest {
    (item, c) => SpaceBefore(sql, base, item, c)
  }

  ghost predicate Each(holds: ColumnTest, items: seq<Range>, columns: seq<WrittenColumn>) {
    |items| == |columns| && forall k :: 0 <= k < |items| ==> holds(items[k], columns[k])
  }

  /** The written names that pass the test, in order. */
  ghost function Passing(holds: ColumnTest, items: seq<Range>, columns: seq<WrittenColumn>): seq<ColumnAlias>
    requires |items| == |columns|
  {
    if items == [] then []
    else
      var n := |items| - 1;
      Passing(holds, items[..n], columns[..n]) +
      if holds(items[n], columns[n]) then [ColumnAlias(columns[n].name, columns[n].start, columns[n].end)] else []
  }

  lemma {:induction false} ItemsRead(read: ItemReader, written: ColumnTest, spaced: ColumnTest, items: seq<Range>, columns: seq<WrittenColumn>)
    requires Each(written, items, columns)
    requires forall item, c: WrittenColumn :: written(item, c) ==> read(item) == if spaced(item, c) then [ColumnAlias(c.name, c.start, c.end)] else []
    ensures ReadAll(read, items) == Passing(spaced, items, columns)
  {
    if items != [] {
      var n := |items| - 1;
      assert forall k :: 0 <= k < n ==> items[..n][k] == items[k] && columns[..n][k] == columns[k];
      ItemsRead(read, written, spaced, items[..n], columns[..n]);
      assert written(items[n], columns[n]);
    }
  }

  /** Of a list whose items begin with names, exactly the names with only white space before them are read. */
  lemma NamesRead(sql: string, open: nat, close: nat, items: seq<Range>, columns: seq<WrittenColumn>)
    requires open < close <= |sql| && items == TopLevelRanges(sql[open + 1..close], ',')
    requires Each(ColumnsOf(sql, open + 1), items, columns)
    ensures ListAliases(sql, open, close) == Passing(SpacesOf(sql, open + 1), items, columns)
  {
    var read, written, spaced := AliasReader(sql, open + 1), ColumnsOf(sql, open + 1), SpacesOf(sql, open + 1);
    forall item, c | written(item, c)
      ensures read(item) == if spaced(item, c) then [ColumnAlias(c.name, c.start, c.end)] else []
    {
      ColumnReadIff(sql, open + 1, item, c);
    }
    ItemsRead(read, written, spaced, items, columns);
  }

  function Aliases(columns: seq<WrittenColumn>): seq<ColumnAlias> {
    if columns == [] then []
    else
      var last := columns[|columns| - 1];
      Aliases(columns[..|columns| - 1]) + [ColumnAlias(last.name, last.start, last.end)]
  }

  lemma {:induction false} AllPass(holds: ColumnTest, items: seq<Range>, columns: seq<WrittenColumn>)
    requires |items| == |columns|
    ensures |Passing(holds, items, columns)| <= |items| == |Aliases(columns)|
    ensures Passing(holds, items, columns) == Aliases(columns) <==> Each(holds, items, columns)
  {
    if items != [] {
      var n := |items| - 1;
      AllPass(holds, items[..n], columns[..n]);
      assert forall k :: 0 <= k < n ==> items[..n][k] == items[k] && columns[..n][k] == columns[k];
      var p, a := Passing(holds, items[..n], columns[..n]), Aliases(columns[..n]);
      if holds(items[n], columns[n]) && Passing(holds, items, columns) == Aliases(columns) {
        assert p == Passing(holds, items, columns)[..|p|] && a == Aliases(columns)[..|a|];
      }
    }
  }

  /** Exactly when a list gives its written names: when only white space stands before each of them. */
  lemma NamesReadIff(sql: string, open: nat, close: nat, items: seq<Range>, columns: seq<WrittenColumn>)
    requires open < close <= |sql| && items == TopLevelRanges(sql[open + 1..close], ',')
    requires Each(ColumnsOf(sql, open + 1), items, columns)
    ensures ListAliases(sql, open, close) == Aliases(columns) <==> Each(SpacesOf(sql, open + 1), items, columns)
  {
    NamesRead(sql, open, close, items, columns);
    AllPass(SpacesOf(sql, open + 1), items, columns);
  }

  // ----- Names that comments hide -----

  /** A definition's name, a comment, and a list with one name. */
  const HIDDEN := "a/**/(x)"

  lemma HiddenList()
    ensures SkipTrivia(HIDDEN, 1) == 5 && Parens(HIDDEN, 5, 7) && MatchingParen(HIDDEN, 5) == 7
  {
    assert BlockRemark(HIDDEN, 1, 5) && TriviaAt(HIDDEN, 5, 5);
    TriviaSkippedExactly(HIDDEN, 1, 5);
    UnbracketedBalanced(HIDDEN[6..7]);
    ClosesItselfIff(HIDDEN, 5, 7);
  }

  lemma OneItem(s: string, items: seq<Range>)
    requires items == TopLevelRanges(s, ',') && forall k :: 0 <= k < |s| ==> s[k] != ','
    ensures items == [Range(0, |s|)]
  {
    NoCuts(s, |s|);
  }

  lemma {:induction false} NoCuts(s: string, i: nat)
    requires i <= |s| && forall k :: 0 <= k < |s| ==> s[k] != ','
    ensures Cuts(s, ',', i) == []
  {
    if i > 0 {
      NoCuts(s, i - 1);
    }
  }

  lemma OneName(sql: string, open: nat, close: nat, c: WrittenColumn)
    requires open < close <= |sql| && (forall k :: open < k < close ==> sql[k] != ',') && ColumnAt(sql, open + 1, Range(0, close - open - 1), c)
    ensures ListAliases(sql, open, close) ==
            if SkipSpace(sql, open + 1) == c.start then [ColumnAlias(c.name, c.start, c.end)] else []
  {
    var items, item := TopLevelRanges(sql[open + 1..close], ','), Range(0, close - open - 1);
    OneItem(sql[open + 1..close], items);
    NamesRead(sql, open, close, items, [c]);
    assert Passing(SpacesOf(sql, open + 1), items[..0], [c][..0]) == [];
  }

  lemma HiddenColumns()
    ensures ColumnAliases(HIDDEN, 5) == [ColumnAlias("x", 6, 7)]
  {
    HiddenList();
    ListRead(HIDDEN, 5, 5, 7);
    assert BareAt(HIDDEN, 6, 7, "x");
    OneName(HIDDEN, 5, 7, WrittenColumn("x", 6, 7));
  }

  /** The list is read where it stands, yet lost behind the comment. */
  lemma CommentHidesColumns()
    ensures SkipTrivia(HIDDEN, 1) == 5 && ColumnAliases(HIDDEN, 1) == []
    ensures ColumnAliases(HIDDEN, 5) == [ColumnAlias("x", 6, 7)]
  {
    HiddenList();
    NoColumnAliases(HIDDEN, 1);
    HiddenColumns();
  }

  /** In a list, a name behind a comment is lost. */
  const INNER := "(/**/x)"

  lemma CommentHidesName()
    ensures ColumnAt(INNER, 1, Range(0, 5), WrittenColumn("x", 5, 6)) && ListAliases(INNER, 0, 6) == []
  {
    assert BlockRemark(INNER, 1, 5) && PieceAt(INNER, 1, 5) && TriviaAt(INNER, 5, 5);
    assert BareAt(INNER, 5, 6, "x");
    OneName(INNER, 0, 6, WrittenColumn("x", 5, 6));
  }
}
