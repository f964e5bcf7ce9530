/** Two ways of counting parentheses: the scan that finds a closing one toggles at quotes and reads comments as code,
    the lexical scan knows both. */
module Parentheses {
  import opened Wrappers
  import opened Scanners

  /** A parenthesis and one behind it. */
  predicate Parens(sql: string, open: nat, close: nat) {
    open < close < |sql| && sql[open] == '(' && sql[close] == ')'
  }

  /** Outside quotes every closing parenthesis has its opening one before it, and nothing is left open: so a scan
      counts that toggles at quotes and reads comments as code. */
  predicate BalancedByQuotes(s: string) {
    && Quote(s, 0, |s|) == None && Depth(s, 0, |s|) == 0
    && forall k :: 0 <= k <= |s| ==> Depth(s, 0, k) >= 0
  }

  /** Opening minus closing parentheses in code, as the full lexical scan reads `s`. */
  function CodeDepth(s: string, k: nat): int
    requires k <= |s|
  {
    if k == 0 then 0 else
      var d := CodeDepth(s, k - 1);
      if Lex(s, |s|, k - 1) != Code then d
      else if s[k - 1] == '(' then d + 1
      else if s[k - 1] == ')' then d - 1
      else d
  }

  /** In code every closing parenthesis has its opening one before it, and nothing is left open, neither a
      parenthesis nor a quote nor a comment. */
  predicate Balanced(s: string) {
    && Lex(s, |s|, |s|) == Code && CodeDepth(s, |s|) == 0
    && forall k :: 0 <= k <= |s| ==> CodeDepth(s, k) >= 0
  }

  /** Inside the parentheses the scan from the opening one counts one more. */
  lemma {:induction false} InsideParens(sql: string, open: nat, close: nat, s: string, k: nat)
    requires open < close <= |sql| && sql[open] == '(' && s == sql[open + 1..close] && k <= |s|
    ensures Quote(sql, open, open + 1 + k) == Quote(s, 0, k)
    ensures Depth(sql, open, open + 1 + k) == Depth(s, 0, k) + 1
  {
    if k > 0 {
      InsideParens(sql, open, close, s, k - 1);
      assert sql[open + k] == s[k - 1];
    }
  }

  /** Without a byte that closes it, the depth never falls below that of the parenthesis. */
  lemma {:induction false} StaysInside(sql: string, open: nat, close: nat, s: string, k: nat)
    requires open < close <= |sql| && sql[open] == '(' && s == sql[open + 1..close] && k <= |s|
    requires forall j :: open <= j < close ==> !ClosesAt(sql, open, j)
    ensures Depth(s, 0, k) >= 0
  {
    if k > 0 {
      StaysInside(sql, open, close, s, k - 1);
      InsideParens(sql, open, close, s, k - 1);
      InsideParens(sql, open, close, s, k);
      assert !ClosesAt(sql, open, open + k) && sql[open + k] == s[k - 1];
    }
  }

  /** The first byte that brings the depth counted from `open` back to zero. */
  ghost predicate FirstToClose(sql: string, open: nat, close: nat) {
    open <= close && ClosesAt(sql, open, close) && forall k :: open <= k < close ==> !ClosesAt(sql, open, k)
  }

  /** The search from a parenthesis answers with the parenthesis the writer means exactly when that is the first to
      close it, so exactly when the text between them is balanced for a scan that reads comments as code. */
  lemma ClosesItselfIff(sql: string, open: nat, close: nat)
    requires Parens(sql, open, close)
    ensures MatchingParen(sql, open) == close <==> FirstToClose(sql, open, close)
    ensures MatchingParen(sql, open) == close <==> BalancedByQuotes(sql[open + 1..close])
  {
    var s := sql[open + 1..close];
    MatchingParenIsFirst(sql, open);
    InsideParens(sql, open, close, s, |s|);
    if MatchingParen(sql, open) == close {
      forall k | 0 <= k <= |s|
        ensures Depth(s, 0, k) >= 0
      {
        StaysInside(sql, open, close, s, k);
      }
    } else if BalancedByQuotes(s) {
      assert ClosesAt(sql, open, close);
      NoneCloses(sql, open, close, s);
    }
  }

  lemma NoneCloses(sql: string, open: nat, close: nat, s: string)
    requires open < close <= |sql| && sql[open] == '(' && s == sql[open + 1..close] && BalancedByQuotes(s)
    ensures forall k :: open <= k < close ==> !ClosesAt(sql, open, k)
  {
    forall k | open <= k < close
      ensures !ClosesAt(sql, open, k)
    {
      if open < k {
        InsideParens(sql, open, close, s, k - open);
      }
    }
  }

  /** On a comment-free text both ways of counting agree. */
  lemma {:induction false} DepthsAgree(s: string, k: nat)
    requires CommentFree(s) && k <= |s|
    ensures CodeDepth(s, k) == Depth(s, 0, k)
  {
    if k > 0 {
      DepthsAgree(s, k - 1);
      if !IsQuote(s[k - 1]) {
        QuoteScansAgree(s, |s|, k - 1);
      }
    }
  }

  /** Without comments, what is balanced in code is balanced for the other scan. */
  lemma CommentFreeBalanced(s: string)
    requires CommentFree(s) && Balanced(s)
    ensures BalancedByQuotes(s)
  {
    forall k | 0 <= k <= |s|
      ensures CodeDepth(s, k) == Depth(s, 0, k)
    {
      DepthsAgree(s, k);
    }
    ScansRelate(s, |s|, |s|);
  }

  predicate ByQuote(state: Lexical) {
    match state
    case Quoted(q) => IsQuote(q)
    case Second(after) => ByQuote(after)
    case _ => true
  }

  lemma {:induction false} OnlyQuotesQuote(text: string, n: nat, i: nat)
    requires i <= n <= |text|
    ensures ByQuote(Lex(text, n, i))
  {
    if i > 0 {
      OnlyQuotesQuote(text, n, i - 1);
    }
  }

  /** Inside parentheses that stand in code, the text is read as the scan of the whole text reads it. */
  lemma {:induction false} LexInside(sql: string, open: nat, close: nat, s: string, k: nat)
    requires Parens(sql, open, close) && s == sql[open + 1..close] && k <= |s| && Lex(sql, |sql|, open) == Code
    ensures Lex(sql, |sql|, open + 1 + k) == Lex(s, |s|, k)
  {
    if k > 0 {
      LexInside(sql, open, close, s, k - 1);
      OnlyQuotesQuote(s, |s|, k - 1);
      assert sql[open + k] == s[k - 1];
      assert Following(sql, |sql|, open + k) == Some(if k < |s| then s[k] else ')');
    }
  }

  /** A closing parenthesis behind it does not change how a text is read. */
  lemma {:induction false} LexPrefix(s: string, prefix: string, m: nat, k: nat)
    requires k <= m < |s| && s[m] == ')' && prefix == s[..m]
    ensures Lex(s, |s|, k) == Lex(prefix, m, k) && CodeDepth(s, k) == CodeDepth(prefix, k)
  {
    if k > 0 {
      LexPrefix(s, prefix, m, k - 1);
      OnlyQuotesQuote(s, |s|, k - 1);
      assert Following(s, |s|, k - 1) == Some(s[k]) && prefix[k - 1] == s[k - 1];
    }
  }

  /** In code, at most one parenthesis closes another: the one with a balanced text between them. */
  lemma CodeCloseIsUnique(sql: string, open: nat, a: nat, b: nat)
    requires Parens(sql, open, a) && Parens(sql, open, b) && Balanced(sql[open + 1..a]) && Balanced(sql[open + 1..b])
    ensures a == b
  {
    if a < b {
      NotBoth(sql[open + 1..b], sql[open + 1..a], a - open - 1);
    } else if b < a {
      NotBoth(sql[open + 1..a], sql[open + 1..b], b - open - 1);
    }
  }

  lemma NotBoth(s: string, prefix: string, m: nat)
    requires m < |s| && s[m] == ')' && prefix == s[..m] && Balanced(prefix)
    ensures !Balanced(s)
  {
    LexPrefix(s, prefix, m, m);
    assert CodeDepth(s, m + 1) == -1;
  }

  lemma {:induction false} StaysQuoted(text: string, from: nat, i: nat, j: nat, q: char)
    requires from <= i <= j <= |text| && Quote(text, from, i) == Some(q) && forall k :: i <= k < j ==> text[k] != q
    ensures Quote(text, from, j) == Some(q)
    decreases j
  {
    if i < j {
      StaysQuoted(text, from, i, j - 1, q);
    }
  }

  lemma {:induction false} NoParensNoDepth(s: string, k: nat)
    requires k <= |s| && forall j :: 0 <= j < |s| ==> s[j] != '(' && s[j] != ')'
    ensures CodeDepth(s, k) == 0
  {
    if k > 0 {
      NoParensNoDepth(s, k - 1);
    }
  }

  lemma {:induction false} UnbracketedDepth(s: string, k: nat)
    requires k <= |s| && forall j :: 0 <= j < |s| ==> !IsQuote(s[j]) && s[j] != '(' && s[j] != ')'
    ensures Quote(s, 0, k) == None && Depth(s, 0, k) == 0
  {
    if k > 0 {
      UnbracketedDepth(s, k - 1);
    }
  }

  /** A text without quotes and parentheses is balanced. */
  lemma UnbracketedBalanced(s: string)
    requires forall j :: 0 <= j < |s| ==> !IsQuote(s[j]) && s[j] != '(' && s[j] != ')'
    ensures BalancedByQuotes(s)
  {
    forall k | 0 <= k <= |s|
      ensures Quote(s, 0, k) == None && Depth(s, 0, k) == 0
    {
      UnbracketedDepth(s, k);
    }
  }
}
