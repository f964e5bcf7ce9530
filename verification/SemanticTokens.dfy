/** The relative encoding of semantic tokens (Language Server Protocol 3.17, section
    "Semantic Tokens"), tied to a decoder that follows that section. */
module SemanticTokens {
  import opened Wrappers
  import opened Utf8
  import opened Positions

  newtype uint32 = x: int | 0 <= x < 0x1_0000_0000

  datatype Token = Token(start: int, end: int, tokenType: int)

  /** A token as a client sees it. */
  datatype Placed = Placed(line: int, character: int, length: int, tokenType: int, modifiers: int)

  // ----- What a client reads -----

  /** Each group of five numbers is relative to the token before it; a token on a new line
      counts its character from the start of that line. */
  ghost function Decoded(data: seq<uint32>): seq<Placed>
    decreases |data|
  {
    if |data| < 5 then []
    else
      var n := |data| - 5;
      var earlier := Decoded(data[..n]);
      var last := if earlier == [] then Placed(0, 0, 0, 0, 0) else earlier[|earlier| - 1];
      var line := last.line + data[n] as int;
      var character := if data[n] == 0 then last.character + data[n + 1] as int else data[n + 1] as int;
      earlier + [Placed(line, character, data[n + 2] as int, data[n + 3] as int, data[n + 4] as int)]
  }

  // ----- What should be sent -----

  /** In bounds, non-empty and on a single line. */
  ghost predicate Encodable(text: seq<byte>, t: Token) {
    && 0 <= t.start < t.end <= |text|
    && PositionOf(text, t.start).line == PositionOf(text, t.end).line
  }

  ghost function Place(text: seq<byte>, t: Token): Placed {
    var start, end := PositionOf(text, t.start), PositionOf(text, t.end);
    Placed(start.line, start.character, Max(end.character - start.character, 1), t.tokenType, 0)
  }

  /** The encodable tokens, in their given order. */
  ghost function Expected(text: seq<byte>, tokens: seq<Token>): seq<Placed>
  {
    if tokens == [] then [] else
      var n := |tokens| - 1;
      Expected(text, tokens[..n]) + if Encodable(text, tokens[n]) then [Place(text, tokens[n])] else []
  }

  /** The token is sent: at its line and UTF-16 column, as long as it is in UTF-16 units but not shorter than one. */
  ghost predicate SentAs(text: seq<byte>, t: Token, x: Placed) {
    var start, end := PositionOf(text, t.start), PositionOf(text, t.end);
    && 0 <= t.start < t.end <= |text| && start.line == end.line
    && x.line == start.line && x.character == start.character && x.tokenType == t.tokenType && x.modifiers == 0
    && 1 <= x.length && (start.character < end.character ==> x.length == end.character - start.character)
    && (start.character >= end.character ==> x.length == 1)
  }

  /** What is sent are exactly the tokens that are in bounds, not empty and on one line, in order. */
  lemma {:induction false} ExpectedMeaning(text: seq<byte>, tokens: seq<Token>) returns (at: seq<nat>)
    ensures ExpectedAt(text, tokens, Expected(text, tokens), at)
  {
    at := [];
    if tokens != [] {
      var n := |tokens| - 1;
      var before := ExpectedMeaning(text, tokens[..n]);
      at := before;
      if Encodable(text, tokens[n]) {
        at := before + [n];
      }
      ExpectOneMore(text, tokens, n, Expected(text, tokens[..n]), before, Expected(text, tokens), at);
    }
  }

  ghost predicate ExpectedAt(text: seq<byte>, tokens: seq<Token>, sent: seq<Placed>, at: seq<nat>) {
    && |at| == |sent| && (forall j, k :: 0 <= j < k < |at| ==> at[j] < at[k])
    && (forall k :: 0 <= k < |at| ==> at[k] < |tokens| && SentAs(text, tokens[at[k]], sent[k]))
    && (forall i: nat :: i < |tokens| && Encodable(text, tokens[i]) ==> i in at)
  }

  lemma ExpectOneMore(text: seq<byte>, tokens: seq<Token>, n: nat, shorter: seq<Placed>, before: seq<nat>, sent: seq<Placed>, at: seq<nat>)
    requires |tokens| == n + 1 && ExpectedAt(text, tokens[..n], shorter, before)
    requires if Encodable(text, tokens[n]) then at == before + [n] && sent == shorter + [Place(text, tokens[n])] else at == before && sent == shorter
    ensures ExpectedAt(text, tokens, sent, at)
  {
    assert forall k :: 0 <= k < |before| ==> before[k] < n && tokens[..n][before[k]] == tokens[before[k]];
    if Encodable(text, tokens[n]) {
      assert at[|before|] == n && sent[|before|] == Place(text, tokens[n]);
    }
    forall i: nat | i < |tokens| && Encodable(text, tokens[i])
      ensures i in at
    {
      if i < n {
        assert tokens[..n][i] == tokens[i] && i in before;
      }
    }
  }

  // ----- Sorting by start, then end -----

  predicate Precedes(s: Token, t: Token) {
    if s.start == t.start then s.end < t.end else s.start < t.start
  }

  ghost predicate Sorted(tokens: seq<Token>) {
    forall i, j :: 0 <= i < j < |tokens| ==> !Precedes(tokens[j], tokens[i])
  }

  method IndexOfLeast(tokens: array<Token>, from: nat) returns (least: nat)
    requires from < tokens.Length
    ensures from <= least < tokens.Length
    ensures forall k :: from <= k < tokens.Length ==> !Precedes(tokens[k], tokens[least])
  {
    least := from;
    for k := from to tokens.Length
      invariant from <= least < tokens.Length
      invariant forall i :: from <= i < k ==> !Precedes(tokens[i], tokens[least])
    {
      if Precedes(tokens[k], tokens[least]) {
        least := k;
      }
    }
  }

  /** Sorts in place; like the library's sort, it promises nothing about equal tokens. */
  method SortTokens(tokens: array<Token>)
    modifies tokens
    ensures Sorted(tokens[..])
    ensures forall i, j :: 0 <= i < j < tokens.Length ==>
              tokens[i].start < tokens[j].start || (tokens[i].start == tokens[j].start && tokens[i].end <= tokens[j].end)
    ensures multiset(tokens[..]) == old(multiset(tokens[..]))
  {
    for n := 0 to tokens.Length
      invariant multiset(tokens[..]) == old(multiset(tokens[..]))
      invariant forall i, j :: 0 <= i < j < tokens.Length && i < n ==> !Precedes(tokens[j], tokens[i])
    {
      var least := IndexOfLeast(tokens, n);
      Swap(tokens, n, least);
    }
  }

  method Swap(tokens: array<Token>, m: nat, n: nat)
    requires m < tokens.Length && n < tokens.Length
    modifies tokens
    ensures tokens[m] == old(tokens[n]) && tokens[n] == old(tokens[m])
    ensures forall k :: 0 <= k < tokens.Length && k != m && k != n ==> tokens[k] == old(tokens[k])
    ensures multiset(tokens[..]) == old(multiset(tokens[..]))
  {
    tokens[m], tokens[n] := tokens[n], tokens[m];
  }

  // ----- Encoding -----

  lemma {:induction false} BoundaryPositionFits(text: seq<byte>, k: nat)
    requires k <= |Decode(text)|
    ensures Line(Decode(text), k) <= Offset(Decode(text), k)
    ensures Column(Decode(text), k) <= Offset(Decode(text), k)
  {
    if k > 0 {
      BoundaryPositionFits(text, k - 1);
      Step(text, k - 1);
    }
  }

  /** Neither coordinate of a position exceeds the length of the text. */
  lemma PositionFits(text: seq<byte>, o: int)
    ensures 0 <= PositionOf(text, o).line <= |text|
    ensures 0 <= PositionOf(text, o).character <= |text|
  {
    var k := Ceiling(Decode(text), 0, Clamp(text, o));
    BoundaryPositionFits(text, k);
    Step(text, k);
  }

  /** In sorted order every token starts at or after the position of the tokens before it,
      and ends at or after its own start. */
  lemma PositionsFollow(text: seq<byte>, s: Token, t: Token)
    requires Encodable(text, s) && Encodable(text, t) && !Precedes(t, s)
    ensures !Before(PositionOf(text, t.start), PositionOf(text, s.start))
    ensures !Before(PositionOf(text, t.end), PositionOf(text, t.start))
  {
    if s.start < t.start {
      PositionAtMonotone(text, s.start, t.start);
    }
    PositionAtMonotone(text, t.start, t.end);
  }

  function ToUint32(x: int): uint32 {
    (x % 0x1_0000_0000) as uint32
  }

  /** The position the next group is relative to: that of the last token sent. */
  ghost function LastPosition(sent: seq<Placed>): Position {
    if sent == [] then Position(0, 0) else Position(sent[|sent| - 1].line, sent[|sent| - 1].character)
  }

  lemma DecodedSnoc(data: seq<uint32>, group: seq<uint32>)
    requires |group| == 5
    ensures Decoded(data + group) == Decoded(data) + [ReadGroup(LastPosition(Decoded(data)), group)]
  {
    assert (data + group)[..|data + group| - 5] == data;
  }

  /** The group that EncodeSemanticTokens emits for a token. */
  function Group(from: Position, start: Position, end: Position, tokenType: int): seq<uint32> {
    var deltaLine := start.line - from.line;
    var deltaStart := if deltaLine == 0 then start.character - from.character else start.character;
    [ToUint32(deltaLine), ToUint32(deltaStart), ToUint32(Max(end.character - start.character, 1)), ToUint32(tokenType), 0]
  }

  lemma {:induction false} LastExpected(text: seq<byte>, tokens: seq<Token>) returns (j: int)
    requires Expected(text, tokens) != []
    ensures 0 <= j < |tokens| && Encodable(text, tokens[j])
    ensures LastPosition(Expected(text, tokens)) == PositionOf(text, tokens[j].start)
  {
    var n := |tokens| - 1;
    if Encodable(text, tokens[n]) {
      j := n;
    } else {
      j := LastExpected(text, tokens[..n]);
    }
  }

  /** The position of the next token never precedes the last one sent: no delta is negative. */
  lemma DeltasNotNegative(text: seq<byte>, tokens: seq<Token>, i: nat)
    requires Sorted(tokens) && i < |tokens| && Encodable(text, tokens[i])
    ensures !Before(PositionOf(text, tokens[i].start), LastPosition(Expected(text, tokens[..i])))
  {
    PositionFits(text, tokens[i].start);
    if Expected(text, tokens[..i]) != [] {
      var j := LastExpected(text, tokens[..i]);
      PositionsFollow(text, tokens[j], tokens[i]);
    }
  }

  /** A group read relative to the position it was made for gives back the token. */
  lemma GroupValues(from: Position, start: Position, end: Position, tokenType: int)
    requires 0 <= from.line && 0 <= from.character && !Before(start, from)
    requires 0 <= start.line < 0x1_0000_0000 && 0 <= start.character < 0x1_0000_0000
    requires end.line == start.line && end.character < 0x1_0000_0000
    requires 0 <= tokenType < 4
    ensures var group := Group(from, start, end, tokenType);
            && from.line + group[0] as int == start.line
            && (if group[0] == 0 then from.character + group[1] as int else group[1] as int) == start.character
            && group[2] as int == Max(end.character - start.character, 1)
            && group[3] as int == tokenType && group[4] == 0
  {
    assert 0 <= start.line - from.line < 0x1_0000_0000;
    assert start.line == from.line ==> 0 <= start.character - from.character < 0x1_0000_0000;
  }

  /** What a client reads from one group when the one before it ended at `from`. */
  ghost function ReadGroup(from: Position, group: seq<uint32>): Placed
    requires |group| == 5
  {
    Placed(from.line + group[0] as int,
           if group[0] == 0 then from.character + group[1] as int else group[1] as int,
           group[2] as int, group[3] as int, group[4] as int)
  }

  /** The group of the next token reads as that token's place. */
  lemma GroupReads(text: seq<byte>, tokens: seq<Token>, i: nat, from: Position)
    requires |text| < 0x1_0000_0000 && Sorted(tokens) && i < |tokens| && Encodable(text, tokens[i])
    requires 0 <= tokens[i].tokenType < 4 && from == LastPosition(Expected(text, tokens[..i]))
    ensures var t := tokens[i];
            ReadGroup(from, Group(from, PositionOf(text, t.start), PositionOf(text, t.end), t.tokenType)) == Place(text, t)
  {
    var t := tokens[i];
    if Expected(text, tokens[..i]) != [] {
      var j := LastExpected(text, tokens[..i]);
      PositionFits(text, tokens[j].start);
    }
    DeltasNotNegative(text, tokens, i);
    PositionFits(text, t.start);
    PositionFits(text, t.end);
    GroupValues(from, PositionOf(text, t.start), PositionOf(text, t.end), t.tokenType);
  }

  lemma GroupDecodes(text: seq<byte>, tokens: seq<Token>, i: nat, data: seq<uint32>)
    requires |text| < 0x1_0000_0000 && Sorted(tokens) && i < |tokens| && Encodable(text, tokens[i])
    requires 0 <= tokens[i].tokenType < 4
    requires Decoded(data) == Expected(text, tokens[..i])
    ensures Decoded(data + Group(LastPosition(Decoded(data)), PositionOf(text, tokens[i].start),
                                 PositionOf(text, tokens[i].end), tokens[i].tokenType))
         == Expected(text, tokens[..i + 1])
  {
    var t, from := tokens[i], LastPosition(Decoded(data));
    GroupReads(text, tokens, i, from);
    DecodedSnoc(data, Group(from, PositionOf(text, t.start), PositionOf(text, t.end), t.tokenType));
    SnocExpected(text, tokens, i);
  }

  lemma SnocExpected(text: seq<byte>, tokens: seq<Token>, i: nat)
    requires i < |tokens|
    ensures Expected(text, tokens[..i + 1])
         == Expected(text, tokens[..i]) + if Encodable(text, tokens[i]) then [Place(text, tokens[i])] else []
  {
    assert tokens[..i + 1][..i] == tokens[..i];
  }

  /** One token: its group and the position the next group is relative to, or nothing if it cannot be encoded. */
  method EncodeToken(text: seq<byte>, token: Token, lastLine: int, lastStart: int, ghost sorted: seq<Token>, ghost i: nat)
    returns (group: seq<uint32>, line: int, character: int)
    requires Sorted(sorted) && i < |sorted| && token == sorted[i]
    requires Position(lastLine, lastStart) == LastPosition(Expected(text, sorted[..i]))
    ensures Encodable(text, token) ==> Position(line, character) == PositionOf(text, token.start)
    ensures Encodable(text, token) ==>
              group == Group(Position(lastLine, lastStart), PositionOf(text, token.start), PositionOf(text, token.end), token.tokenType)
    ensures !Encodable(text, token) ==> group == [] && Position(line, character) == Position(lastLine, lastStart)
  {
    group, line, character := [], lastLine, lastStart;
    if token.end <= token.start || token.start < 0 || token.end > |text| {
      return;
    }
    var start := PositionAt(text, token.start);
    var end := PositionAt(text, token.end);
    if start.line != end.line {
      return;
    }
    DeltasNotNegative(text, sorted, i);
    PositionFits(text, token.start);
    var deltaLine := start.line - lastLine;
    var deltaStart := start.character;
    if deltaLine == 0 {
      deltaStart := start.character - lastStart;
    }
    if deltaStart < 0 {
      assert false;
    }
    group := [ToUint32(deltaLine), ToUint32(deltaStart), ToUint32(Max(end.character - start.character, 1)), ToUint32(token.tokenType), 0];
    line, character := start.line, start.character;
  }

  lemma TokenDecodes(text: seq<byte>, tokens: seq<Token>, i: nat, data: seq<uint32>, group: seq<uint32>)
    requires |text| < 0x1_0000_0000 && Sorted(tokens) && i < |tokens| && 0 <= tokens[i].tokenType < 4
    requires Decoded(data) == Expected(text, tokens[..i])
    requires group == if Encodable(text, tokens[i])
                      then Group(LastPosition(Decoded(data)), PositionOf(text, tokens[i].start), PositionOf(text, tokens[i].end), tokens[i].tokenType)
                      else []
    ensures Decoded(data + group) == Expected(text, tokens[..i + 1])
    ensures LastPosition(Decoded(data + group)) ==
            if Encodable(text, tokens[i]) then PositionOf(text, tokens[i].start) else LastPosition(Decoded(data))
  {
    SnocExpected(text, tokens, i);
    if Encodable(text, tokens[i]) {
      GroupDecodes(text, tokens, i, data);
    } else {
      assert data + group == data;
    }
  }

  /** Sorts the tokens in place and encodes them. A client that decodes the result sees exactly
      the encodable tokens, in sorted order: none is lost to the guard against negative deltas. */
  method EncodeSemanticTokens(text: seq<byte>, tokens: array<Token>) returns (data: seq<uint32>)
    requires |text| < 0x1_0000_0000
    requires forall t :: t in tokens[..] ==> 0 <= t.tokenType < 4
    modifies tokens
    ensures Sorted(tokens[..]) && multiset(tokens[..]) == old(multiset(tokens[..]))
    ensures Decoded(data) == Expected(text, tokens[..])
  {
    SortTokens(tokens);
    ghost var sorted := tokens[..];
    forall i | 0 <= i < |sorted|
      ensures 0 <= sorted[i].tokenType < 4
    {
      assert sorted[i] in multiset(sorted);
    }
    data := [];
    var lastLine, lastStart := 0, 0;
    for i := 0 to tokens.Length
      invariant tokens[..] == sorted
      invariant Decoded(data) == Expected(text, sorted[..i])
      invariant Position(lastLine, lastStart) == LastPosition(Decoded(data))
    {
      var group;
      group, lastLine, lastStart := EncodeToken(text, tokens[i], lastLine, lastStart, sorted, i);
      TokenDecodes(text, sorted, i, data, group);
      data := data + group;
    }
    assert sorted[..tokens.Length] == sorted;
  }
}
