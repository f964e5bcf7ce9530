/** Reading identifiers, skipping comments, and decoding qualified names. */
module Identifiers {
  import opened Wrappers
  import opened QueryTypes
  import opened Scanners

  // ----- White space and comments -----

  /** The next line feed, or the end. */
  function LineFeed(text: string, i: nat): (r: nat)
    requires i <= |text|
    ensures i <= r <= |text|
    decreases |text| - i
  {
    if i < |text| && text[i] != '\n' then LineFeed(text, i + 1) else i
  }

  /** The next comment end, or the end of the text. */
  function CommentEnd(text: string, i: nat): (r: nat)
    requires i <= |text|
    ensures i <= r <= |text| && (r < |text| ==> r + 1 < |text|)
    decreases |text| - i
  {
    if i + 1 >= |text| then |text|
    else if text[i] == '*' && text[i + 1] == '/' then i
    else CommentEnd(text, i + 1)
  }

  function SkipTrivia(text: string, i: nat): (r: nat)
    ensures i <= r && (r <= i || r <= |text|)
    decreases |text| - i
  {
    if i >= |text| then i
    else
      var s := SkipSpace(text, i);
      if s + 1 >= |text| then s
      else if text[s] == '-' && text[s + 1] == '-' then
        var nl := LineFeed(text, s + 2);
        if nl == |text| then |text| else SkipTrivia(text, nl + 1)
      else if text[s] == '/' && text[s + 1] == '*' then
        var end := CommentEnd(text, s + 2);
        if end == |text| then |text| else SkipTrivia(text, end + 2)
      else s
  }

  method SkipSQLTrivia(text: string, from: nat) returns (i: nat)
    ensures i == SkipTrivia(text, from)
  {
    i := from;
    while i < |text|
      invariant SkipTrivia(text, i) == SkipTrivia(text, from)
      decreases |text| - i
    {
      ghost var before := i;
      i := SkipSpace(text, i);
      if i + 1 >= |text| {
        return;
      }
      if text[i] == '-' && text[i + 1] == '-' {
        var newline := LineFeed(text, i + 2);
        if newline == |text| {
          return |text|;
        }
        i := newline + 1;
      } else if text[i] == '/' && text[i + 1] == '*' {
        var end := CommentEnd(text, i + 2);
        if end == |text| {
          return |text|;
        }
        i := end + 2;
      } else {
        return;
      }
    }
  }

  // ----- What is skipped -----

  predicate Two(text: string, i: nat, c: char, d: char) {
    i + 1 < |text| && text[i] == c && text[i + 1] == d
  }

  /** White space or a comment starts here. */
  predicate StartsTrivia(text: string, i: nat) {
    i < |text| && (IsSpace(text[i]) || Two(text, i, '-', '-') || Two(text, i, '/', '*'))
  }

  /** A comment from `i` to behind the line feed before `j`. */
  ghost predicate LineRemark(text: string, i: nat, j: nat) {
    && Two(text, i, '-', '-') && i + 2 < j <= |text| && text[j - 1] == '\n'
    && forall k :: i + 2 <= k < j - 1 ==> text[k] != '\n'
  }

  /** A comment from `i` to behind the two bytes before `j`. */
  ghost predicate BlockRemark(text: string, i: nat, j: nat) {
    && Two(text, i, '/', '*') && i + 4 <= j <= |text| && Two(text, j - 2, '*', '/')
    && forall k :: i + 2 <= k < j - 2 ==> !Two(text, k, '*', '/')
  }

  /** From `i` to `j` there is one white space character or one whole comment. */
  ghost predicate PieceAt(text: string, i: nat, j: nat) {
    || (i < |text| && IsSpace(text[i]) && j == i + 1)
    || LineRemark(text, i, j)
    || BlockRemark(text, i, j)
  }

  /** From `i` to `j` there are white space and whole comments, and nothing else. */
  ghost predicate TriviaAt(text: string, i: nat, j: nat)
    decreases j - i
  {
    i <= j <= |text| && (i == j || exists k :: i < k <= j && PieceAt(text, i, k) && TriviaAt(text, k, j))
  }

  /** A comment starts at `i` that nothing ends. */
  ghost predicate Unfinished(text: string, i: nat) {
    || (Two(text, i, '-', '-') && forall k :: i + 2 <= k < |text| ==> text[k] != '\n')
    || (Two(text, i, '/', '*') && forall k :: i + 2 <= k < |text| ==> !Two(text, k, '*', '/'))
  }

  lemma {:induction false} LineFeedIsFirst(text: string, i: nat, j: nat)
    requires i <= j <= |text| && (forall k :: i <= k < j ==> text[k] != '\n') && (j < |text| ==> text[j] == '\n')
    ensures LineFeed(text, i) == j
    decreases j - i
  {
    if i < j {
      LineFeedIsFirst(text, i + 1, j);
    }
  }

  lemma {:induction false} NoLineFeedBefore(text: string, i: nat)
    requires i <= |text|
    ensures forall k :: i <= k < LineFeed(text, i) ==> text[k] != '\n'
    ensures LineFeed(text, i) < |text| ==> text[LineFeed(text, i)] == '\n'
    decreases |text| - i
  {
    if i < |text| && text[i] != '\n' {
      NoLineFeedBefore(text, i + 1);
    }
  }

  lemma {:induction false} CommentEndIsFirst(text: string, i: nat, j: nat)
    requires i <= j && Two(text, j, '*', '/') && forall k :: i <= k < j ==> !Two(text, k, '*', '/')
    ensures CommentEnd(text, i) == j
    decreases j - i
  {
    if i < j {
      assert !Two(text, i, '*', '/');
      CommentEndIsFirst(text, i + 1, j);
    }
  }

  lemma {:induction false} NoCommentEndBefore(text: string, i: nat)
    requires i <= |text|
    ensures forall k :: i <= k < CommentEnd(text, i) ==> !Two(text, k, '*', '/')
    ensures CommentEnd(text, i) < |text| ==> Two(text, CommentEnd(text, i), '*', '/')
    decreases |text| - i
  {
    if i + 1 < |text| && !Two(text, i, '*', '/') {
      NoCommentEndBefore(text, i + 1);
    }
  }

  lemma AfterLine(text: string, s: nat)
    requires Two(text, s, '-', '-')
    ensures var nl := LineFeed(text, s + 2); SkipTrivia(text, s) == if nl == |text| then nl else SkipTrivia(text, nl + 1)
  {
    assert SkipSpace(text, s) == s;
  }

  lemma AfterBlock(text: string, s: nat)
    requires Two(text, s, '/', '*')
    ensures var end := CommentEnd(text, s + 2); SkipTrivia(text, s) == if end == |text| then end else SkipTrivia(text, end + 2)
  {
    assert SkipSpace(text, s) == s;
  }

  lemma SkippedFromSettled(text: string, i: nat)
    requires i <= |text|
    ensures SkipSpace(text, SkipSpace(text, i)) == SkipSpace(text, i) <= |text|
    ensures SkipTrivia(text, i) == SkipTrivia(text, SkipSpace(text, i))
  {
  }

  lemma BlankSkipped(text: string, i: nat)
    requires i < |text| && IsSpace(text[i])
    ensures SkipTrivia(text, i) == SkipTrivia(text, i + 1)
  {
    SkippedFromSettled(text, i);
    SkippedFromSettled(text, i + 1);
  }

  lemma NothingSkipped(text: string, i: nat)
    requires !StartsTrivia(text, i)
    ensures SkipTrivia(text, i) == i
  {
  }

  lemma LineRemarkSkipped(text: string, i: nat, j: nat)
    requires LineRemark(text, i, j)
    ensures SkipTrivia(text, i) == SkipTrivia(text, j)
  {
    LineFeedIsFirst(text, i + 2, j - 1);
    AfterLine(text, i);
  }

  lemma BlockRemarkSkipped(text: string, i: nat, j: nat)
    requires BlockRemark(text, i, j)
    ensures SkipTrivia(text, i) == SkipTrivia(text, j)
  {
    CommentEndIsFirst(text, i + 2, j - 2);
    AfterBlock(text, i);
  }

  /** One piece is skipped as a whole. */
  lemma PieceSkipped(text: string, i: nat, j: nat)
    requires PieceAt(text, i, j)
    ensures SkipTrivia(text, i) == SkipTrivia(text, j)
  {
    if LineRemark(text, i, j) {
      LineRemarkSkipped(text, i, j);
    } else if BlockRemark(text, i, j) {
      BlockRemarkSkipped(text, i, j);
    } else {
      BlankSkipped(text, i);
    }
  }

  lemma {:induction false} TriviaSkipped(text: string, i: nat, j: nat)
    requires TriviaAt(text, i, j)
    ensures SkipTrivia(text, i) == SkipTrivia(text, j)
    decreases j - i
  {
    if i < j {
      var k :| i < k <= j && PieceAt(text, i, k) && TriviaAt(text, k, j);
      PieceSkipped(text, i, k);
      TriviaSkipped(text, k, j);
    }
  }

  /** White space and whole comments are skipped, and nothing behind them. */
  lemma TriviaSkippedExactly(text: string, i: nat, j: nat)
    requires TriviaAt(text, i, j) && !StartsTrivia(text, j)
    ensures SkipTrivia(text, i) == j
  {
    TriviaSkipped(text, i, j);
    NothingSkipped(text, j);
  }

  lemma LineHere(text: string, i: nat) returns (j: nat)
    requires Two(text, i, '-', '-')
    ensures i < j <= |text| && (PieceAt(text, i, j) || (Unfinished(text, i) && SkipTrivia(text, i) == |text|))
  {
    NoLineFeedBefore(text, i + 2);
    AfterLine(text, i);
    j := if LineFeed(text, i + 2) < |text| then LineFeed(text, i + 2) + 1 else |text|;
  }

  lemma BlockHere(text: string, i: nat) returns (j: nat)
    requires Two(text, i, '/', '*')
    ensures i < j <= |text| && (PieceAt(text, i, j) || (Unfinished(text, i) && SkipTrivia(text, i) == |text|))
  {
    NoCommentEndBefore(text, i + 2);
    AfterBlock(text, i);
    j := if CommentEnd(text, i + 2) < |text| then CommentEnd(text, i + 2) + 2 else |text|;
  }

  /** The piece that starts at `i`, or a comment without an end. */
  lemma PieceHere(text: string, i: nat) returns (j: nat)
    requires StartsTrivia(text, i)
    ensures i < j <= |text| && (PieceAt(text, i, j) || (Unfinished(text, i) && SkipTrivia(text, i) == |text|))
  {
    if Two(text, i, '-', '-') {
      j := LineHere(text, i);
    } else if Two(text, i, '/', '*') {
      j := BlockHere(text, i);
    } else {
      j := i + 1;
    }
  }

  /** What is skipped is white space and comments, whole ones but for a last comment that runs to the end of the
      text; and what follows starts neither. */
  lemma {:induction false} SkippedIsTrivia(text: string, i: nat) returns (j: nat)
    requires i <= |text|
    ensures TriviaAt(text, i, j) && !StartsTrivia(text, SkipTrivia(text, i))
    ensures j == SkipTrivia(text, i) || (Unfinished(text, j) && SkipTrivia(text, i) == |text|)
    decreases |text| - i
  {
    j := i;
    if StartsTrivia(text, i) {
      var k := PieceHere(text, i);
      if PieceAt(text, i, k) {
        PieceSkipped(text, i, k);
        j := SkippedIsTrivia(text, k);
      }
    } else {
      NothingSkipped(text, i);
    }
  }

  /** Nothing is left to skip where skipping stops. */
  lemma TriviaSkippedOnce(text: string, i: nat)
    ensures SkipTrivia(text, SkipTrivia(text, i)) == SkipTrivia(text, i)
    ensures SkipSpace(text, SkipTrivia(text, i)) == SkipTrivia(text, i)
  {
    if i <= |text| {
      var j := SkippedIsTrivia(text, i);
      NothingSkipped(text, SkipTrivia(text, i));
    }
  }

  // ----- Identifiers -----

  /** The closing quote, doubled quotes skipped. */
  function ClosingQuote(text: string, end: nat, q: char): (r: Option<nat>)
    ensures r.Some? ==> end <= r.value < |text| && text[r.value] == q
    decreases |text| - end
  {
    if end >= |text| then None
    else if text[end] != q then ClosingQuote(text, end + 1, q)
    else if end + 1 < |text| && text[end + 1] == q then ClosingQuote(text, end + 2, q)
    else Some(end)
  }

  /** Every doubled quote becomes a single one, from left to right. */
  function Undouble(s: string, q: char): string {
    if s == "" then ""
    else if |s| >= 2 && s[0] == q && s[1] == q then [q] + Undouble(s[2..], q)
    else [s[0]] + Undouble(s[1..], q)
  }

  function IdentEnd(text: string, i: nat): (r: nat)
    ensures i <= r && (r <= i || r <= |text|)
    ensures forall k :: i <= k < r ==> IsIdentByte(text[k])
    ensures r < |text| ==> !IsIdentByte(text[r])
    decreases |text| - i
  {
    if i < |text| && IsIdentByte(text[i]) then IdentEnd(text, i + 1) else i
  }

  /** The identifier at `i` and where it ends. */
  function Identifier(text: string, i: nat): (r: (string, nat))
    ensures i <= r.1 && (r.1 <= i || r.1 <= |text|)
    ensures r.0 != "" ==> SkipSpace(text, i) < r.1 <= |text|
  {
    var s := SkipSpace(text, i);
    if s >= |text| then ("", s)
    else if text[s] == '"' || text[s] == '`' then
      match ClosingQuote(text, s + 1, text[s])
      case Some(end) => (Undouble(text[s + 1..end], text[s]), end + 1)
      case None => ("", s)
    else (text[s..IdentEnd(text, s)], IdentEnd(text, s))
  }

  method ReadIdentifier(text: string, from: nat) returns (name: string, end: nat)
    ensures (name, end) == Identifier(text, from)
  {
    var i := SkipSpace(text, from);
    if i >= |text| {
      return "", i;
    }
    if text[i] == '"' || text[i] == '`' {
      var quote := text[i];
      end := i + 1;
      while end < |text|
        invariant i < end && ClosingQuote(text, end, quote) == ClosingQuote(text, i + 1, quote)
        decreases |text| - end
      {
        if text[end] != quote {
          end := end + 1;
          continue;
        }
        if end + 1 < |text| && text[end + 1] == quote {
          end := end + 2;
          continue;
        }
        return Undouble(text[i + 1..end], quote), end + 1;
      }
      return "", i;
    }
    end := i;
    while end < |text| && IsIdentByte(text[end])
      invariant i <= end <= |text| && IdentEnd(text, end) == IdentEnd(text, i)
    {
      end := end + 1;
    }
    name := text[i..end];
  }

  function Double(s: string, q: char): string {
    if s == "" then "" else (if s[0] == q then [q, q] else [s[0]]) + Double(s[1..], q)
  }

  /** A name as it is written in quotes. */
  function Enquoted(name: string, q: char): string {
    [q] + Double(name, q) + [q]
  }

  lemma {:induction false} UndoubleDouble(s: string, q: char)
    ensures Undouble(Double(s, q), q) == s
  {
    if s != "" {
      UndoubleDouble(s[1..], q);
      if s[0] == q {
        assert Double(s, q)[2..] == Double(s[1..], q);
      } else {
        assert Double(s, q)[1..] == Double(s[1..], q);
      }
    }
  }

  /** The closing quote of a doubled text is the one after it. */
  lemma {:induction false} ClosingQuoteFound(text: string, i: nat, s: string, q: char, end: nat)
    requires At(text, i, Double(s, q)) && end == i + |Double(s, q)| < |text| && text[end] == q
    requires end + 1 < |text| ==> text[end + 1] != q
    ensures ClosingQuote(text, i, q) == Some(end)
    decreases |s|
  {
    if s != "" {
      var head := if s[0] == q then [q, q] else [s[0]];
      AtConcat(text, i, head, Double(s[1..], q));
      assert text[i + 0] == head[0];
      if s[0] == q {
        assert text[i + 1] == head[1];
      }
      ClosingQuoteFound(text, i + |head|, s[1..], q, end);
    }
  }

  lemma AtSlice(raw: string, i: nat, s: string)
    requires At(raw, i, s)
    ensures raw[i..i + |s|] == s
  {
  }

  /** The parts of a name in quotes. */
  lemma EnquotedAt(text: string, i: nat, name: string, q: char, end: nat)
    requires At(text, i, Enquoted(name, q)) && end == i + |Enquoted(name, q)|
    ensures i + 1 < end <= |text| && text[i] == q && At(text, i + 1, Double(name, q)) && text[end - 1] == q
    ensures end - 1 == i + 1 + |Double(name, q)| && text[i + 1..end - 1] == Double(name, q)
  {
    AtConcat(text, i, [q] + Double(name, q), [q]);
    AtConcat(text, i, [q], Double(name, q));
    AtChar(text, i, q);
    AtChar(text, end - 1, q);
    AtSlice(text, i + 1, Double(name, q));
  }

  /** A name written in quotes is read back wherever it stands, whatever characters it has. */
  lemma QuotedRead(text: string, i: nat, name: string, q: char, end: nat)
    requires (q == '"' || q == '`') && At(text, i, Enquoted(name, q)) && end == i + |Enquoted(name, q)|
    requires end < |text| ==> text[end] != q
    ensures Identifier(text, i) == (name, end) && text[i] == q
  {
    EnquotedAt(text, i, name, q, end);
    ClosingQuoteFound(text, i + 1, name, q, end - 1);
    UndoubleDouble(name, q);
    IdentifierInQuotes(text, i, q, end);
  }

  lemma IdentifierInQuotes(text: string, i: nat, q: char, end: nat)
    requires i + 1 < end <= |text| && text[i] == q && (q == '"' || q == '`') && ClosingQuote(text, i + 1, q) == Some(end - 1)
    ensures Identifier(text, i) == (Undouble(text[i + 1..end - 1], q), end)
  {
    assert SkipSpace(text, i) == i;
  }

  lemma QuotedIdentifierRoundTrip(name: string, q: char, after: string)
    requires (q == '"' || q == '`') && (after == "" || after[0] != q)
    ensures Identifier(Enquoted(name, q) + after, 0) == (name, |Enquoted(name, q)|)
  {
    QuotedRead(Enquoted(name, q) + after, 0, name, q, |Enquoted(name, q)|);
  }

  predicate IsKeyword(lower: string) {
    lower in ["on", "where", "join", "left", "right", "inner", "outer", "full", "cross", "group", "order", "limit", "select", "from", "as"]
  }

  // ----- Qualified names -----

  /** The first dot from `i` on outside quotes, when quote `q` is open before `i`; or the length. */
  function DotFrom(raw: string, i: nat, q: Option<char>): (r: nat)
    requires i <= |raw|
    ensures i <= r <= |raw| && (r < |raw| ==> raw[r] == '.')
    decreases |raw| - i
  {
    if i == |raw| then i
    else if q != None then DotFrom(raw, i + 1, if q == Some(raw[i]) then None else q)
    else if IsQuote(raw[i]) then DotFrom(raw, i + 1, Some(raw[i]))
    else if raw[i] == '.' then i
    else DotFrom(raw, i + 1, None)
  }

  function SkipBack(raw: string, s: nat, e: nat): (r: nat)
    requires s <= e <= |raw|
    ensures s <= r <= e
  {
    if e > s && IsSpace(raw[e - 1]) then SkipBack(raw, s, e - 1) else e
  }

  function SkipWithin(raw: string, s: nat, e: nat): (r: nat)
    requires s <= e <= |raw|
    ensures s <= r <= e
    decreases e - s
  {
    if s < e && IsSpace(raw[s]) then SkipWithin(raw, s + 1, e) else s
  }

  /** A segment without the white space around it, unless it is nothing else. */
  function TrimSegment(raw: string, start: nat, end: nat): (r: Range)
    requires start <= end <= |raw|
    ensures start <= r.start <= r.end <= end
  {
    var s := SkipWithin(raw, start, end);
    var e := SkipBack(raw, s, end);
    if e <= s then Range(start, end) else Range(s, e)
  }

  /** The segments from `start` on, which is the beginning or behind a dot. */
  function Segments(raw: string, start: nat): (r: seq<Range>)
    requires start <= |raw|
    ensures r != []
    decreases |raw| - start
  {
    var dot := DotFrom(raw, start, None);
    if dot == |raw| then [TrimSegment(raw, start, dot)] else [TrimSegment(raw, start, dot)] + Segments(raw, dot + 1)
  }

  method SplitQualifiedIdentifier(raw: string) returns (parts: seq<Range>)
    ensures parts == Segments(raw, 0)
  {
    parts := [];
    var inQuote: Option<char> := None;
    var segStart := 0;
    for i := 0 to |raw|
      invariant segStart <= i && DotFrom(raw, segStart, None) == DotFrom(raw, i, inQuote)
      invariant parts + Segments(raw, segStart) == Segments(raw, 0)
    {
      var ch := raw[i];
      if inQuote != None {
        if Some(ch) == inQuote {
          inQuote := None;
        }
      } else if IsQuote(ch) {
        inQuote := Some(ch);
      } else if ch == '.' {
        Reassociate(parts, [TrimSegment(raw, segStart, i)], Segments(raw, i + 1));
        parts := parts + [TrimSegment(raw, segStart, i)];
        segStart := i + 1;
      }
    }
    parts := parts + [TrimSegment(raw, segStart, |raw|)];
  }

  ghost predicate InOrder(spans: seq<Range>, start: nat, end: nat) {
    && (forall k :: 0 <= k < |spans| ==> start <= spans[k].start <= spans[k].end <= end)
    && (forall j, k :: 0 <= j < k < |spans| ==> spans[j].end < spans[k].start)
  }

  lemma InOrderStep(first: Range, later: seq<Range>, start: nat, dot: nat, end: nat)
    requires start <= first.start <= first.end <= dot < end && InOrder(later, dot + 1, end)
    ensures InOrder([first] + later, start, end)
  {
  }

  /** Segments lie in the text one behind the other. */
  lemma {:induction false} SegmentsInOrder(raw: string, start: nat)
    requires start <= |raw|
    ensures InOrder(Segments(raw, start), start, |raw|)
    decreases |raw| - start
  {
    var dot := DotFrom(raw, start, None);
    if dot < |raw| {
      SegmentsInOrder(raw, dot + 1);
      InOrderStep(TrimSegment(raw, start, dot), Segments(raw, dot + 1), start, dot, |raw|);
    }
  }

  ghost predicate Covered(spans: seq<Range>, i: nat) {
    exists k :: 0 <= k < |spans| && spans[k].start <= i < spans[k].end
  }

  lemma {:induction false} SkippedWithin(raw: string, s: nat, e: nat, i: nat)
    requires s <= i < e <= |raw| && !IsSpace(raw[i])
    ensures SkipWithin(raw, s, e) <= i
    decreases e - s
  {
    if s < i && IsSpace(raw[s]) {
      SkippedWithin(raw, s + 1, e, i);
    }
  }

  lemma {:induction false} SkippedBack(raw: string, s: nat, e: nat, i: nat)
    requires s <= i < e <= |raw| && !IsSpace(raw[i])
    ensures i < SkipBack(raw, s, e)
    decreases e
  {
    if i < e - 1 && IsSpace(raw[e - 1]) {
      SkippedBack(raw, s, e - 1, i);
    }
  }

  /** Trimming loses white space only. */
  lemma TrimKeeps(raw: string, start: nat, end: nat, i: nat)
    requires start <= i < end <= |raw| && !IsSpace(raw[i])
    ensures TrimSegment(raw, start, end).start <= i < TrimSegment(raw, start, end).end
  {
    SkippedWithin(raw, start, end, i);
    SkippedBack(raw, SkipWithin(raw, start, end), end, i);
  }

  lemma {:induction false} AllSkippedWithin(raw: string, s: nat, e: nat)
    requires s <= e <= |raw| && forall k :: s <= k < e ==> IsSpace(raw[k])
    ensures SkipWithin(raw, s, e) == e
    decreases e - s
  {
    if s < e {
      AllSkippedWithin(raw, s + 1, e);
    }
  }

  /** A blank segment keeps its white space. */
  lemma BlankSegmentStays(raw: string, start: nat, end: nat)
    requires start <= end <= |raw| && forall k :: start <= k < end ==> IsSpace(raw[k])
    ensures TrimSegment(raw, start, end) == Range(start, end)
  {
    AllSkippedWithin(raw, start, end);
  }

  /** The segments cover everything but dots and white space. */
  lemma {:induction false} SegmentsCover(raw: string, start: nat, i: nat)
    requires start <= i < |raw| && !IsSpace(raw[i]) && raw[i] != '.'
    ensures Covered(Segments(raw, start), i)
    decreases |raw| - start
  {
    var dot := DotFrom(raw, start, None);
    if i < dot {
      TrimKeeps(raw, start, dot, i);
      assert Segments(raw, start)[0] == TrimSegment(raw, start, dot);
    } else {
      SegmentsCover(raw, dot + 1, i);
      var k :| 0 <= k < |Segments(raw, dot + 1)| && Segments(raw, dot + 1)[k].start <= i < Segments(raw, dot + 1)[k].end;
      assert Segments(raw, start)[k + 1] == Segments(raw, dot + 1)[k];
    }
  }

  /** A segment without its quotes. */
  function Decode(part: string): string {
    if |part| >= 2 && IsQuote(part[0]) && part[|part| - 1] == part[0] then Undouble(part[1..|part| - 1], part[0]) else part
  }

  /** The decoded segments. */
  function DecodedFrom(raw: string, start: nat): seq<string>
    requires start <= |raw|
    decreases |raw| - start
  {
    var dot := DotFrom(raw, start, None);
    var t := TrimSegment(raw, start, dot);
    if dot == |raw| then [Decode(raw[t.start..t.end])] else [Decode(raw[t.start..t.end])] + DecodedFrom(raw, dot + 1)
  }

  function Normalized(value: string): string {
    Join(DecodedFrom(value, 0), ".")
  }

  lemma {:induction false} DecodedAt(raw: string, start: nat, k: nat)
    requires start <= |raw| && k < |Segments(raw, start)|
    ensures |DecodedFrom(raw, start)| == |Segments(raw, start)| && InOrder(Segments(raw, start), start, |raw|)
    ensures var t := Segments(raw, start)[k]; DecodedFrom(raw, start)[k] == Decode(raw[t.start..t.end])
    decreases |raw| - start
  {
    SegmentsInOrder(raw, start);
    var dot := DotFrom(raw, start, None);
    if dot < |raw| {
      DecodedAt(raw, dot + 1, if k == 0 then 0 else k - 1);
    }
  }

  method NormalizeRelation(value: string) returns (name: string)
    ensures name == Normalized(value)
  {
    var spans := SplitQualifiedIdentifier(value);
    SegmentsInOrder(value, 0);
    var parts: seq<string> := [];
    for k := 0 to |spans|
      invariant |parts| == k && k <= |DecodedFrom(value, 0)|
      invariant forall j :: 0 <= j < k ==> parts[j] == DecodedFrom(value, 0)[j]
    {
      DecodedAt(value, 0, k);
      parts := parts + [Decode(value[spans[k].start..spans[k].end])];
    }
    DecodedAt(value, 0, 0);
    assert parts == DecodedFrom(value, 0);
    name := Join(parts, ".");
  }

  // ----- Writing and normalizing a qualified name -----

  /** A segment of a name as it can be written: bare or quoted, with white space around it. */
  datatype Written = Bare(before: string, text: string, after: string) | InQuotes(before: string, name: string, q: char, after: string) {
    function Core(): string {
      if Bare? then text else Enquoted(name, q)
    }

    function Source(): string {
      before + Core() + after
    }

    function Meaning(): string {
      if Bare? then text else name
    }

    ghost predicate Valid() {
      && AllSpace(before) && AllSpace(after)
      && (Bare? ==> text != "" && forall i :: 0 <= i < |text| ==> IsIdentByte(text[i]))
      && (InQuotes? ==> IsQuote(q))
    }
  }

  ghost predicate AllSpace(s: string) {
    forall i :: 0 <= i < |s| ==> IsSpace(s[i])
  }

  function Sources(parts: seq<Written>): seq<string> {
    if parts == [] then [] else [parts[0].Source()] + Sources(parts[1..])
  }

  function Meanings(parts: seq<Written>): seq<string> {
    if parts == [] then [] else [parts[0].Meaning()] + Meanings(parts[1..])
  }

  /** `s` stands at `i`. */
  ghost predicate At(raw: string, i: nat, s: string) {
    i + |s| <= |raw| && forall k :: 0 <= k < |s| ==> raw[i + k] == s[k]
  }

  lemma AtConcat(raw: string, i: nat, s: string, t: string)
    requires At(raw, i, s + t)
    ensures At(raw, i, s) && At(raw, i + |s|, t)
  {
    forall k | 0 <= k < |s|
      ensures raw[i + k] == s[k]
    {
      assert (s + t)[k] == s[k];
    }
    forall k | 0 <= k < |t|
      ensures raw[i + |s| + k] == t[k]
    {
      assert (s + t)[|s| + k] == t[k];
    }
  }

  lemma AtChar(raw: string, i: nat, c: char)
    requires At(raw, i, [c])
    ensures i < |raw| && raw[i] == c
  {
    assert [c][0] == c;
  }

  /** Characters without quotes or dots are passed over. */
  lemma {:induction false} DotPast(raw: string, i: nat, j: nat)
    requires i <= j <= |raw| && forall k :: i <= k < j ==> !IsQuote(raw[k]) && raw[k] != '.'
    ensures DotFrom(raw, i, None) == DotFrom(raw, j, None)
    decreases j - i
  {
    if i < j {
      DotPast(raw, i + 1, j);
    }
  }

  /** Inside quotes, the doubled text is passed over. */
  lemma {:induction false} DotPastDoubled(raw: string, i: nat, s: string, q: char)
    requires IsQuote(q) && At(raw, i, Double(s, q))
    ensures i + |Double(s, q)| <= |raw| && DotFrom(raw, i, Some(q)) == DotFrom(raw, i + |Double(s, q)|, Some(q))
    decreases |s|
  {
    if s != "" {
      var head := if s[0] == q then [q, q] else [s[0]];
      AtConcat(raw, i, head, Double(s[1..], q));
      assert raw[i + 0] == head[0];
      if s[0] == q {
        assert raw[i + 1] == head[1];
      }
      DotPastDoubled(raw, i + |head|, s[1..], q);
    }
  }

  lemma DotPastCore(raw: string, i: nat, w: Written)
    requires w.Valid() && At(raw, i, w.Core())
    ensures i + |w.Core()| <= |raw| && DotFrom(raw, i, None) == DotFrom(raw, i + |w.Core()|, None)
  {
    if w.Bare? {
      forall k | i <= k < i + |w.text|
        ensures !IsQuote(raw[k]) && raw[k] != '.'
      {
        assert raw[i + (k - i)] == w.text[k - i];
      }
      DotPast(raw, i, i + |w.text|);
    } else {
      AtConcat(raw, i, [w.q] + Double(w.name, w.q), [w.q]);
      AtConcat(raw, i, [w.q], Double(w.name, w.q));
      AtChar(raw, i, w.q);
      DotPastDoubled(raw, i + 1, w.name, w.q);
      AtChar(raw, i + |[w.q] + Double(w.name, w.q)|, w.q);
    }
  }

  lemma SpaceAt(raw: string, i: nat, s: string)
    requires At(raw, i, s) && AllSpace(s)
    ensures forall k :: i <= k < i + |s| ==> IsSpace(raw[k])
  {
    forall k | i <= k < i + |s|
      ensures IsSpace(raw[k])
    {
      assert raw[i + (k - i)] == s[k - i];
    }
  }

  lemma CoreEnds(w: Written)
    requires w.Valid()
    ensures w.Core() != "" && !IsSpace(w.Core()[0]) && !IsSpace(w.Core()[|w.Core()| - 1]) && Decode(w.Core()) == w.Meaning()
  {
    if w.InQuotes? {
      var core := w.Core();
      assert core[1..|core| - 1] == Double(w.name, w.q);
      UndoubleDouble(w.name, w.q);
    } else {
      assert IsIdentByte(w.text[0]);
    }
  }

  lemma AtEnds(raw: string, i: nat, s: string)
    requires At(raw, i, s) && s != ""
    ensures i + |s| <= |raw| && raw[i] == s[0] && raw[i + |s| - 1] == s[|s| - 1] && raw[i..i + |s|] == s
  {
    assert raw[i + 0] == s[0] && raw[i + (|s| - 1)] == s[|s| - 1];
  }

  lemma ThreePieces(raw: string, i: nat, before: string, core: string, after: string)
    requires At(raw, i, before + core + after)
    ensures At(raw, i, before) && At(raw, i + |before|, core) && At(raw, i + |before| + |core|, after)
  {
    AtConcat(raw, i, before + core, after);
    AtConcat(raw, i, before, core);
  }

  /** The three pieces of a written segment, up to `start`, up to `end` and up to `stop`. */
  lemma PiecesAt(raw: string, i: nat, w: Written) returns (start: nat, end: nat, stop: nat)
    requires w.Valid() && At(raw, i, w.Source())
    ensures i <= start < end <= stop <= |raw| && stop == i + |w.Source()| && end == start + |w.Core()|
    ensures forall k :: i <= k < start ==> IsSpace(raw[k])
    ensures raw[start..end] == w.Core() && At(raw, start, w.Core()) && !IsSpace(raw[start]) && !IsSpace(raw[end - 1])
    ensures forall k :: end <= k < stop ==> IsSpace(raw[k])
  {
    CoreEnds(w);
    var core := w.Core();
    ThreePieces(raw, i, w.before, core, w.after);
    start := i + |w.before|;
    end := start + |core|;
    stop := end + |w.after|;
    AtEnds(raw, start, core);
    SpaceAt(raw, i, w.before);
    SpaceAt(raw, end, w.after);
  }

  lemma SpacesHaveNoDots(raw: string, i: nat, j: nat)
    requires i <= j <= |raw| && forall k :: i <= k < j ==> IsSpace(raw[k])
    ensures DotFrom(raw, i, None) == DotFrom(raw, j, None)
  {
    DotPast(raw, i, j);
  }

  lemma DotAfterWritten(raw: string, i: nat, w: Written)
    requires w.Valid() && At(raw, i, w.Source())
    ensures i + |w.Source()| <= |raw| && DotFrom(raw, i, None) == DotFrom(raw, i + |w.Source()|, None)
  {
    var start, end, stop := PiecesAt(raw, i, w);
    SpacesHaveNoDots(raw, i, start);
    DotPastCore(raw, start, w);
    SpacesHaveNoDots(raw, end, stop);
  }

  lemma {:induction false} WithinSkips(raw: string, s: nat, k: nat, e: nat)
    requires s <= k < e <= |raw| && !IsSpace(raw[k]) && forall i :: s <= i < k ==> IsSpace(raw[i])
    ensures SkipWithin(raw, s, e) == k
    decreases k - s
  {
    if s < k {
      WithinSkips(raw, s + 1, k, e);
    }
  }

  lemma {:induction false} BackSkips(raw: string, s: nat, k: nat, e: nat)
    requires s < k <= e <= |raw| && !IsSpace(raw[k - 1]) && forall i :: k <= i < e ==> IsSpace(raw[i])
    ensures SkipBack(raw, s, e) == k
    decreases e
  {
    if k < e {
      BackSkips(raw, s, k, e - 1);
    }
  }

  lemma TrimPieces(raw: string, i: nat, start: nat, end: nat, stop: nat)
    requires i <= start < end <= stop <= |raw| && !IsSpace(raw[start]) && !IsSpace(raw[end - 1])
    requires forall k :: i <= k < start ==> IsSpace(raw[k])
    requires forall k :: end <= k < stop ==> IsSpace(raw[k])
    ensures TrimSegment(raw, i, stop) == Range(start, end)
  {
    WithinSkips(raw, i, start, stop);
    BackSkips(raw, start, end, stop);
  }

  /** A written segment is trimmed to its core and decoded to its meaning, wherever it stands. */
  lemma TrimWritten(raw: string, i: nat, w: Written)
    requires w.Valid() && At(raw, i, w.Source())
    ensures i + |w.Source()| <= |raw|
    ensures var t := TrimSegment(raw, i, i + |w.Source()|); Decode(raw[t.start..t.end]) == w.Meaning()
  {
    var start, end, stop := PiecesAt(raw, i, w);
    CoreEnds(w);
    TrimPieces(raw, i, start, end, stop);
  }

  lemma DotHere(raw: string, i: nat)
    requires i <= |raw| && (i < |raw| ==> raw[i] == '.')
    ensures DotFrom(raw, i, None) == i
  {
  }

  lemma SegmentUpTo(raw: string, i: nat, dot: nat, part: string)
    requires i <= dot <= |raw| && DotFrom(raw, i, None) == dot
    requires var t := TrimSegment(raw, i, dot); Decode(raw[t.start..t.end]) == part
    ensures DecodedFrom(raw, i) == [part] + LaterDecoded(raw, dot)
  {
  }

  /** The segments behind the dot at `dot`, or none at the end of the text. */
  function LaterDecoded(raw: string, dot: nat): seq<string>
    requires dot <= |raw|
  {
    if dot == |raw| then [] else DecodedFrom(raw, dot + 1)
  }

  /** A written segment that ends at a dot or at the end of the text is the next decoded one. */
  lemma WrittenSegment(raw: string, i: nat, w: Written, end: nat)
    requires w.Valid() && At(raw, i, w.Source()) && end == i + |w.Source()|
    requires end < |raw| ==> raw[end] == '.'
    ensures i <= end <= |raw|
    ensures DecodedFrom(raw, i) == [w.Meaning()] + LaterDecoded(raw, end)
  {
    DotAfterWritten(raw, i, w);
    DotHere(raw, end);
    TrimWritten(raw, i, w);
    SegmentUpTo(raw, i, end, w.Meaning());
  }

  /** From `i` to the end, the text is the written segments with dots between them. */
  ghost predicate WrittenAt(raw: string, i: nat, parts: seq<Written>)
    requires parts != []
    decreases |parts|
  {
    var end := i + |parts[0].Source()|;
    At(raw, i, parts[0].Source()) &&
    if |parts| == 1 then end == |raw|
    else end < |raw| && raw[end] == '.' && WrittenAt(raw, end + 1, parts[1..])
  }

  lemma {:induction false} JoinedIsWritten(raw: string, i: nat, parts: seq<Written>, joined: string)
    requires parts != [] && joined == Join(Sources(parts), ".") && At(raw, i, joined) && i + |joined| == |raw|
    ensures WrittenAt(raw, i, parts)
    decreases |parts|
  {
    if |parts| == 1 {
      assert Sources(parts) == [parts[0].Source()];
    } else {
      var rest := Join(Sources(parts[1..]), ".");
      JoinStep(parts);
      SplitAtDot(raw, i, parts[0].Source(), rest);
      JoinedIsWritten(raw, i + |parts[0].Source()| + 1, parts[1..], rest);
    }
  }

  lemma SplitAtDot(raw: string, i: nat, first: string, rest: string)
    requires At(raw, i, first + ("." + rest)) && i + |first + ("." + rest)| == |raw|
    ensures At(raw, i, first) && At(raw, i + |first| + 1, rest) && i + |first| + 1 + |rest| == |raw| && raw[i + |first|] == '.'
  {
    AtConcat(raw, i, first, "." + rest);
    AtConcat(raw, i + |first|, ".", rest);
    AtChar(raw, i + |first|, '.');
  }

  lemma FirstDecodes(raw: string, i: nat, parts: seq<Written>) returns (end: nat)
    requires parts != [] && WrittenAt(raw, i, parts) && parts[0].Valid()
    ensures i <= end <= |raw| && (|parts| > 1 ==> end < |raw| && WrittenAt(raw, end + 1, parts[1..]))
    ensures |parts| == 1 ==> end == |raw|
    ensures DecodedFrom(raw, i) == [parts[0].Meaning()] + LaterDecoded(raw, end)
  {
    end := FirstWritten(raw, i, parts);
    WrittenSegment(raw, i, parts[0], end);
  }

  lemma FirstWritten(raw: string, i: nat, parts: seq<Written>) returns (end: nat)
    requires parts != [] && WrittenAt(raw, i, parts)
    ensures At(raw, i, parts[0].Source()) && end == i + |parts[0].Source()| && (end < |raw| ==> raw[end] == '.')
    ensures if |parts| == 1 then end == |raw| else end < |raw| && WrittenAt(raw, end + 1, parts[1..])
  {
    end := i + |parts[0].Source()|;
  }

  lemma {:induction false} WrittenDecodes(raw: string, i: nat, parts: seq<Written>)
    requires parts != [] && WrittenAt(raw, i, parts) && forall k :: 0 <= k < |parts| ==> parts[k].Valid()
    ensures i <= |raw| && DecodedFrom(raw, i) == Meanings(parts)
    decreases |parts|
  {
    var end := FirstDecodes(raw, i, parts);
    if |parts| > 1 {
      WrittenDecodes(raw, end + 1, parts[1..]);
    }
  }

  lemma JoinStep(parts: seq<Written>)
    requires |parts| > 1
    ensures Join(Sources(parts), ".") == parts[0].Source() + ("." + Join(Sources(parts[1..]), "."))
  {
    assert Sources(parts)[1..] == Sources(parts[1..]);
    assert parts[0].Source() + "." + Join(Sources(parts[1..]), ".") == parts[0].Source() + ("." + Join(Sources(parts[1..]), "."));
  }

  /** However the segments of a qualified name are written (bare, in any of the three quotes with
      arbitrary characters inside, with white space around them), normalizing gives their names
      joined by dots. */
  lemma NormalizeRoundTrip(parts: seq<Written>)
    requires parts != [] && forall k :: 0 <= k < |parts| ==> parts[k].Valid()
    ensures Normalized(Join(Sources(parts), ".")) == Join(Meanings(parts), ".")
  {
    JoinedIsWritten(Join(Sources(parts), "."), 0, parts, Join(Sources(parts), "."));
    WrittenDecodes(Join(Sources(parts), "."), 0, parts);
  }

  // ----- Tokens of a relation -----

  datatype TokenType = SchemaToken | TableToken

  datatype Token = Token(range: Range, kind: TokenType)

  ghost predicate TokenAt(tokens: seq<Token>, i: nat) {
    exists k :: 0 <= k < |tokens| && tokens[k].range.start <= i < tokens[k].range.end
  }

  /** The tokens lie inside the relation's range one behind the other and cover all of it but dots and white space;
      the last is the table and all before it are schemas. */
  method RelationSemanticTokens(sql: string, relation: RelationUse) returns (tokens: seq<Token>)
    ensures tokens != []
    ensures forall k :: 0 <= k < |tokens| ==> (tokens[k].kind == TableToken <==> k == |tokens| - 1)
    ensures relation.start <= relation.end ==>
              forall k :: 0 <= k < |tokens| ==> relation.start <= tokens[k].range.start <= tokens[k].range.end <= relation.end
    ensures forall j, k :: 0 <= j < k < |tokens| ==> tokens[j].range.end < tokens[k].range.start
    ensures 0 <= relation.start <= relation.end <= |sql| ==>
              forall i: nat | relation.start <= i < relation.end && !IsSpace(sql[i]) && sql[i] != '.' :: TokenAt(tokens, i)
  {
    if relation.start < 0 || relation.end > |sql| || relation.end <= relation.start {
      return [Token(Range(relation.start, relation.end), TableToken)];
    }
    var raw := sql[relation.start..relation.end];
    var parts := SplitQualifiedIdentifier(raw);
    SegmentsInOrder(raw, 0);
    if |parts| <= 1 {
      tokens := [Token(Range(relation.start, relation.end), TableToken)];
      assert forall i: nat | relation.start <= i < relation.end :: tokens[0].range.start <= i < tokens[0].range.end && TokenAt(tokens, i);
      return;
    }
    tokens := [];
    for index := 0 to |parts|
      invariant |tokens| == index
      invariant forall k :: 0 <= k < index ==>
                  tokens[k] == Token(Range(relation.start + parts[k].start, relation.start + parts[k].end), if k == |parts| - 1 then TableToken else SchemaToken)
    {
      var part := parts[index];
      var kind := if index == |parts| - 1 then TableToken else SchemaToken;
      tokens := tokens + [Token(Range(relation.start + part.start, relation.start + part.end), kind)];
    }
    TokensCover(sql, relation.start, relation.end, raw, tokens);
  }

  lemma TokensCover(sql: string, start: nat, end: nat, raw: string, tokens: seq<Token>)
    requires start <= end <= |sql| && raw == sql[start..end] && |tokens| == |Segments(raw, 0)|
    requires forall k :: 0 <= k < |tokens| ==> tokens[k].range == Range(start + Segments(raw, 0)[k].start, start + Segments(raw, 0)[k].end)
    ensures forall i: nat | start <= i < end && !IsSpace(sql[i]) && sql[i] != '.' :: TokenAt(tokens, i)
  {
    forall i: nat | start <= i < end && !IsSpace(sql[i]) && sql[i] != '.'
      ensures TokenAt(tokens, i)
    {
      SegmentsCover(raw, 0, i - start);
      var k :| 0 <= k < |tokens| && Segments(raw, 0)[k].start <= i - start < Segments(raw, 0)[k].end;
      assert tokens[k].range.start <= i < tokens[k].range.end;
    }
  }
}
