/** The byte scanners of the SQL analyzer: words, quotes and parentheses.
    A Go string is a byte string; one `char` stands for one byte. */
module Scanners {
  import opened Wrappers

  // ----- Bytes and words -----

  predicate IsSpace(c: char) {
    c == ' ' || c == '\t' || c == '\n' || c == '\r'
  }

  predicate IsIdentByte(c: char) {
    'A' <= c <= 'Z' || 'a' <= c <= 'z' || '0' <= c <= '9' || c == '_' || c == '$'
  }

  predicate IsQuote(c: char) {
    c == '\'' || c == '"' || c == '`'
  }

  function Lower(c: char): char {
    if 'A' <= c <= 'Z' then (c as int + 32) as char else c
  }

  /** Equality up to ASCII case. For the words used here this is Unicode case folding as well:
      slices of equal byte length that fold to an ASCII word are ASCII. */
  predicate EqualFold(s: string, t: string) {
    |s| == |t| && forall k :: 0 <= k < |s| ==> Lower(s[k]) == Lower(t[k])
  }

  predicate HasWordAt(text: string, i: int, word: string) {
    && 0 <= i && i + |word| <= |text|
    && EqualFold(text[i..i + |word|], word)
    && (i == 0 || !IsIdentByte(text[i - 1]))
    && (i + |word| == |text| || !IsIdentByte(text[i + |word|]))
  }

  /** The bytes of identifiers, and lower case. */
  lemma IdentBytes(c: char)
    ensures IsIdentByte(c) <==>
              c in "ABCDEFGHIJKLMNOPQRSTUVWXYZ" || c in "abcdefghijklmnopqrstuvwxyz" || c in "0123456789" || c == '_' || c == '$'
  {
    LetterBytes(c);
  }

  lemma LetterBytes(c: char)
    ensures c in "ABCDEFGHIJKLMNOPQRSTUVWXYZ" <==> 'A' <= c <= 'Z'
    ensures c in "abcdefghijklmnopqrstuvwxyz" <==> 'a' <= c <= 'z'
    ensures c in "0123456789" <==> '0' <= c <= '9'
  {
    UpperBytes(c, "ABCDEFGHIJKLMNOPQRSTUVWXYZ");
    LowerBytes(c, "abcdefghijklmnopqrstuvwxyz");
    DigitBytes(c, "0123456789");
  }

  lemma UpperBytes(c: char, letters: string)
    requires letters == "ABCDEFGHIJKLMNOPQRSTUVWXYZ"
    ensures c in letters <==> 'A' <= c <= 'Z'
  {
    assert forall k :: 0 <= k < |letters| ==> letters[k] as int == 'A' as int + k;
    if 'A' <= c <= 'Z' {
      assert letters[c as int - 'A' as int] == c;
    }
  }

  lemma LowerBytes(c: char, letters: string)
    requires letters == "abcdefghijklmnopqrstuvwxyz"
    ensures c in letters <==> 'a' <= c <= 'z'
  {
    assert forall k :: 0 <= k < |letters| ==> letters[k] as int == 'a' as int + k;
    if 'a' <= c <= 'z' {
      assert letters[c as int - 'a' as int] == c;
    }
  }

  lemma DigitBytes(c: char, digits: string)
    requires digits == "0123456789"
    ensures c in digits <==> '0' <= c <= '9'
  {
    assert forall k :: 0 <= k < |digits| ==> digits[k] as int == '0' as int + k;
    if '0' <= c <= '9' {
      assert digits[c as int - '0' as int] == c;
    }
  }

  /** The letters fold pairwise, and nothing else folds. */
  lemma LettersFold(c: char)
    ensures forall k :: 0 <= k < 26 ==> Lower("ABCDEFGHIJKLMNOPQRSTUVWXYZ"[k]) == "abcdefghijklmnopqrstuvwxyz"[k]
    ensures c !in "ABCDEFGHIJKLMNOPQRSTUVWXYZ" ==> Lower(c) == c
  {
    LetterBytes(c);
  }

  /** A word is found exactly where it stands apart from other bytes of identifiers. */
  lemma WordStandsAlone(before: string, word: string, after: string, text: string)
    requires text == before + (word + after)
    ensures HasWordAt(text, |before|, word) <==>
              (before == "" || !IsIdentByte(before[|before| - 1])) && (after == "" || !IsIdentByte(after[0]))
  {
    assert text[|before|..|before| + |word|] == word;
    assert before != "" ==> text[|before| - 1] == before[|before| - 1];
    assert after != "" ==> text[|before| + |word|] == after[0];
  }

  function SkipSpace(text: string, i: nat): (r: nat)
    ensures i <= r && (r <= i || r <= |text|)
    ensures r < |text| ==> !IsSpace(text[r])
    decreases |text| - i
  {
    if i < |text| && IsSpace(text[i]) then SkipSpace(text, i + 1) else i
  }

  lemma {:induction false} OnlySpaceSkipped(text: string, i: nat, k: nat)
    requires i <= k < SkipSpace(text, i)
    ensures k < |text| && IsSpace(text[k])
    decreases k - i
  {
    if i < k {
      OnlySpaceSkipped(text, i + 1, k);
    }
  }

  /** White space from `i` up to `j`, and none at `j`. */
  ghost predicate SpaceUpTo(text: string, i: nat, j: nat) {
    i <= j <= |text| && (forall k :: i <= k < j ==> IsSpace(text[k])) && (j < |text| ==> !IsSpace(text[j]))
  }

  lemma {:induction false} SkippedTo(text: string, i: nat, j: nat)
    requires SpaceUpTo(text, i, j)
    ensures SkipSpace(text, i) == j
    decreases j - i
  {
    if i < j {
      SkippedTo(text, i + 1, j);
    }
  }

  lemma SpaceSkippedUpTo(text: string, i: nat)
    requires i <= |text|
    ensures SpaceUpTo(text, i, SkipSpace(text, i))
  {
    forall k | i <= k < SkipSpace(text, i)
      ensures k < |text| && IsSpace(text[k])
    {
      OnlySpaceSkipped(text, i, k);
    }
  }

  // ----- Quotes -----

  /** The quote that is open before byte `i` when a scan that toggles at every matching quote
      byte starts at `from`. */
  function Quote(text: string, from: nat, i: nat): Option<char>
    requires from <= i <= |text|
  {
    if i == from then None
    else
      var c := text[i - 1];
      match Quote(text, from, i - 1)
      case Some(q) => if c == q then None else Some(q)
      case None => if IsQuote(c) then Some(c) else None
  }

  /** What a full lexical scan knows before a byte. `Second` comes before the second byte of a
      two-byte token: a comment delimiter, or a doubled quote inside a quoted stretch. */
  datatype Lexical = Code | Quoted(q: char) | LineComment | BlockComment | Second(after: Lexical)

  function Following(text: string, n: nat, i: nat): Option<char>
    requires n <= |text|
  {
    if i + 1 < n then Some(text[i + 1]) else None
  }

  /** The state before byte `i` of a scan that can see the first `n` bytes only. */
  function Lex(text: string, n: nat, i: nat): Lexical
    requires i <= n <= |text|
  {
    if i == 0 then Code
    else
      var c, next := text[i - 1], Following(text, n, i - 1);
      match Lex(text, n, i - 1)
      case Second(s) => s
      case LineComment => if c == '\n' then Code else LineComment
      case BlockComment => if c == '*' && next == Some('/') then Second(Code) else BlockComment
      case Quoted(q) => if c != q then Quoted(q) else if next == Some(q) then Second(Quoted(q)) else Code
      case Code =>
        if c == '-' && next == Some('-') then Second(LineComment)
        else if c == '/' && next == Some('*') then Second(BlockComment)
        else if IsQuote(c) then Quoted(c)
        else Code
  }

  /** Outside quotes, nothing starts a comment. */
  predicate CommentFree(text: string) {
    forall i: nat :: i < |text| - 1 ==> StartsNoComment(text, i)
  }

  predicate StartsNoComment(text: string, i: nat)
    requires i < |text| - 1
  {
    Quote(text, 0, i) == None ==> !(text[i] == '-' && text[i + 1] == '-') && !(text[i] == '/' && text[i + 1] == '*')
  }

  lemma {:induction false} ScansRelate(text: string, n: nat, i: nat)
    requires i <= n <= |text| && CommentFree(text)
    ensures match Lex(text, n, i)
            case Code => Quote(text, 0, i) == None
            case Quoted(q) => Quote(text, 0, i) == Some(q) && IsQuote(q)
            case Second(s) => s.Quoted? && Quote(text, 0, i) == None && i < n && text[i] == s.q && IsQuote(s.q)
            case _ => false
  {
    if i > 0 {
      ScansRelate(text, n, i - 1);
      assert i < |text| ==> StartsNoComment(text, i - 1);
    }
  }

  /** On comment-free text, the scan that toggles at quotes and the full scan agree at every
      byte that is not itself a quote, so at every parenthesis. */
  lemma QuoteScansAgree(text: string, n: nat, i: nat)
    requires i <= n <= |text| && CommentFree(text) && (i < n ==> !IsQuote(text[i]))
    ensures Lex(text, n, i) == (match Quote(text, 0, i) case None => Code case Some(q) => Quoted(q))
  {
    ScansRelate(text, n, i);
  }

  /** A scan of the first `n` bytes only ends in the state the whole scan has there, unless
      byte `n` is the second of a two-byte token. */
  lemma {:induction false} PrefixScanAgrees(text: string, n: nat, i: nat)
    requires i <= n <= |text|
    ensures i < n || !Lex(text, |text|, i).Second? ==> Lex(text, n, i) == Lex(text, |text|, i)
  {
    if i > 0 {
      PrefixScanAgrees(text, n, i - 1);
    }
  }

  /** A scan that starts outside quotes sees what the scan of the whole text sees. */
  lemma {:induction false} QuoteFrom(text: string, from: nat, i: nat)
    requires from <= i <= |text| && Quote(text, 0, from) == None
    ensures Quote(text, from, i) == Quote(text, 0, i)
  {
    if from < i {
      QuoteFrom(text, from, i - 1);
    }
  }

  // ----- Parentheses -----

  /** Opening minus closing parentheses outside quotes, from `from` up to `i`. */
  function Depth(text: string, from: nat, i: nat): int
    requires from <= i <= |text|
  {
    if i == from then 0 else
      var d := Depth(text, from, i - 1);
      if Quote(text, from, i - 1) != None then d
      else if text[i - 1] == '(' then d + 1
      else if text[i - 1] == ')' then d - 1
      else d
  }

  lemma {:induction false} DepthFrom(text: string, from: nat, i: nat)
    requires from <= i <= |text| && Quote(text, 0, from) == None
    ensures Depth(text, from, i) == Depth(text, 0, i) - Depth(text, 0, from)
  {
    if from < i {
      DepthFrom(text, from, i - 1);
      QuoteFrom(text, from, i - 1);
    }
  }

  /** Byte `i` closes the parenthesis opened at `open`, as far as a scan from `open` can tell. */
  predicate ClosesAt(text: string, open: nat, i: nat)
    requires open <= i
  {
    i < |text| && text[i] == ')' && Quote(text, open, i) == None && Depth(text, open, i + 1) == 0
  }

  /** The first byte from the `i`-th on that closes `open`, or -1. */
  function MatchFrom(text: string, open: nat, i: nat): (r: int)
    requires open <= i
    ensures r == -1 || (i <= r < |text| && text[r] == ')')
    decreases |text| - i
  {
    if i >= |text| then -1
    else if ClosesAt(text, open, i) then i
    else MatchFrom(text, open, i + 1)
  }

  function MatchingParen(text: string, open: nat): int {
    MatchFrom(text, open, open)
  }

  lemma {:induction false} MatchFromIsFirst(text: string, open: nat, i: nat)
    requires open <= i
    ensures MatchFrom(text, open, i) != -1 ==> ClosesAt(text, open, MatchFrom(text, open, i))
    ensures forall k :: i <= k < |text| && ClosesAt(text, open, k) ==> -1 < MatchFrom(text, open, i) <= k
    decreases |text| - i
  {
    if i < |text| && !ClosesAt(text, open, i) {
      MatchFromIsFirst(text, open, i + 1);
    }
  }

  /** FindMatchingParen answers with the first byte that closes `open`. */
  lemma MatchingParenIsFirst(text: string, open: nat)
    ensures MatchingParen(text, open) != -1 ==> ClosesAt(text, open, MatchingParen(text, open))
    ensures forall k :: open <= k < |text| && ClosesAt(text, open, k) ==> -1 < MatchingParen(text, open) <= k
  {
    MatchFromIsFirst(text, open, open);
  }

  method FindMatchingParen(sql: string, open: nat) returns (r: int)
    ensures r == MatchingParen(sql, open)
  {
    var depth := 0;
    var inQuote: Option<char> := None;
    var i := open;
    while i < |sql|
      invariant open <= i && (i <= |sql| || i == open)
      invariant i <= |sql| ==> inQuote == Quote(sql, open, i) && depth == Depth(sql, open, i)
      invariant MatchFrom(sql, open, open) == MatchFrom(sql, open, i)
      decreases |sql| - i
    {
      var ch := sql[i];
      if inQuote != None {
        if Some(ch) == inQuote {
          inQuote := None;
        }
      } else if IsQuote(ch) {
        inQuote := Some(ch);
      } else if ch == '(' {
        depth := depth + 1;
      } else if ch == ')' {
        depth := depth - 1;
        if depth == 0 {
          return i;
        }
      }
      i := i + 1;
    }
    return -1;
  }

  // ----- Splitting at top-level separators -----

  datatype Range = Range(start: int, end: int)

  /** Nesting depth as the splitting scans count it: a stray closing parenthesis is ignored. */
  function Nesting(text: string, i: nat): nat
    requires i <= |text|
  {
    if i == 0 then 0
    else
      var n := Nesting(text, i - 1);
      if Quote(text, 0, i - 1) != None then n
      else if text[i - 1] == '(' then n + 1
      else if text[i - 1] == ')' && n > 0 then n - 1
      else n
  }

  /** The nesting is how far the depth has risen above the lowest it has been: closing parentheses without an opening one
      do not count. */
  lemma {:induction false} NestingMeaning(text: string, i: nat) returns (lowest: nat)
    requires i <= |text|
    ensures lowest <= i && Nesting(text, i) == Depth(text, 0, i) - Depth(text, 0, lowest)
    ensures forall k :: 0 <= k <= i ==> Depth(text, 0, lowest) <= Depth(text, 0, k)
  {
    lowest := 0;
    if i > 0 {
      lowest := NestingMeaning(text, i - 1);
      if Depth(text, 0, i) < Depth(text, 0, lowest) {
        lowest := i;
      }
    }
  }

  /** Quotes and parentheses are taken for what they are before they are compared with a separator. */
  predicate CanSeparate(sep: char) {
    !IsQuote(sep) && sep != '(' && sep != ')'
  }

  predicate TopLevel(text: string, i: nat) {
    i < |text| && Quote(text, 0, i) == None && Nesting(text, i) == 0
  }

  predicate IsCut(text: string, sep: char, i: nat) {
    CanSeparate(sep) && TopLevel(text, i) && text[i] == sep
  }

  /** The top-level separators among the first `i` bytes, in order. */
  function Cuts(text: string, sep: char, i: nat): seq<nat>
    requires i <= |text|
  {
    if i == 0 then []
    else Cuts(text, sep, i - 1) + if IsCut(text, sep, i - 1) then [i - 1] else []
  }

  function AfterCut(cuts: seq<nat>, k: nat): nat
    requires k <= |cuts|
  {
    if k == 0 then 0 else cuts[k - 1] + 1
  }

  /** The ranges that lie between consecutive top-level separators and, with the separators, make up
      the whole text. */
  function TopLevelRanges(text: string, sep: char): seq<Range> {
    Between(Cuts(text, sep, |text|), |text|)
  }

  function Between(cuts: seq<nat>, n: nat): seq<Range> {
    seq(|cuts| + 1, (k: int) requires 0 <= k <= |cuts| => Range(AfterCut(cuts, k), if k == |cuts| then n else cuts[k]))
  }

  lemma BetweenTiles(cuts: seq<nat>, n: nat, parts: seq<Range>)
    requires parts == Between(cuts, n)
    requires forall k {:trigger cuts[k]} :: 0 <= k < |cuts| ==> cuts[k] < n
    requires forall j, k :: 0 <= j < k < |cuts| ==> cuts[j] < cuts[k]
    ensures |parts| == |cuts| + 1 && parts[0].start == 0 && parts[|cuts|].end == n
    ensures forall k :: 0 <= k < |parts| ==> 0 <= parts[k].start <= parts[k].end <= n
    ensures forall k :: 0 <= k < |cuts| ==> parts[k].end == cuts[k] && parts[k + 1].start == cuts[k] + 1
  {
  }

  /** The ranges run from the start to the end of the text, with one separator between each two. */
  lemma RangesTileText(text: string, sep: char, parts: seq<Range>)
    requires parts == TopLevelRanges(text, sep)
    ensures parts != [] && parts[0].start == 0 && parts[|parts| - 1].end == |text|
    ensures forall k :: 0 <= k < |parts| ==> 0 <= parts[k].start <= parts[k].end <= |text|
    ensures forall k :: 0 <= k < |parts| - 1 ==> parts[k + 1].start == parts[k].end + 1 && IsCut(text, sep, parts[k].end)
  {
    var cuts := Cuts(text, sep, |text|);
    CutsMeaning(text, sep, |text|, cuts);
    BetweenTiles(cuts, |text|, parts);
  }

  method SplitTopLevelRanges(text: string, sep: char) returns (parts: seq<Range>)
    ensures parts == TopLevelRanges(text, sep)
  {
    parts := [];
    var start := 0;
    var depth := 0;
    var inQuote: Option<char> := None;
    ghost var cuts: seq<nat> := [];
    for i := 0 to |text|
      invariant inQuote == Quote(text, 0, i) && depth == Nesting(text, i)
      invariant cuts == Cuts(text, sep, i)
      invariant |parts| == |cuts| && start == AfterCut(cuts, |cuts|)
      invariant forall k :: 0 <= k < |cuts| ==> parts[k] == Range(AfterCut(cuts, k), cuts[k])
    {
      var ch := text[i];
      if inQuote != None {
        if Some(ch) == inQuote {
          inQuote := None;
        }
      } else if IsQuote(ch) {
        inQuote := Some(ch);
      } else if ch == '(' {
        depth := depth + 1;
      } else if ch == ')' {
        if depth > 0 {
          depth := depth - 1;
        }
      } else if ch == sep && depth == 0 {
        parts := parts + [Range(start, i)];
        start := i + 1;
        cuts := cuts + [i];
      }
    }
    parts := parts + [Range(start, |text|)];
  }

  /** The cuts are exactly the top-level separators, in increasing order. */
  lemma {:induction false} CutsMeaning(text: string, sep: char, i: nat, cuts: seq<nat>)
    requires i <= |text| && cuts == Cuts(text, sep, i)
    ensures forall k {:trigger cuts[k]} :: 0 <= k < |cuts| ==> cuts[k] < i && IsCut(text, sep, cuts[k])
    ensures forall j :: 0 <= j < i && IsCut(text, sep, j) ==> j in cuts
    ensures forall j, k :: 0 <= j < k < |cuts| ==> cuts[j] < cuts[k]
  {
    if i > 0 {
      var earlier := Cuts(text, sep, i - 1);
      CutsMeaning(text, sep, i - 1, earlier);
      assert cuts == if IsCut(text, sep, i - 1) then earlier + [i - 1] else earlier;
      forall j | 0 <= j < i && IsCut(text, sep, j)
        ensures j in cuts
      {
        assert j == i - 1 || j in earlier;
      }
    }
  }
}
