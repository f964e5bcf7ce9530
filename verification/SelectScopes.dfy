/** Which query scopes enclose a cursor, and which UNION branch of the innermost one it is in. */
module SelectScopes {
  import opened Wrappers
  import opened Scanners
  import opened Parentheses

  function Clamp(offset: int, length: nat): nat {
    if offset < 0 then 0 else if offset > length then length else offset
  }

  // ----- Where is code? -----

  /** The state a scan has settled on: inside a two-byte token it is already the state after it. */
  function Settled(s: Lexical): Lexical {
    if s.Second? then s.after else s
  }

  /** One step of the scanning loops: the state before byte `i` and how many bytes it takes. */
  function ScanStep(text: string, n: nat, i: nat, state: Lexical): (Lexical, nat)
    requires i < n <= |text|
  {
    var ch, next := text[i], Following(text, n, i);
    match state
    case LineComment => (if ch == '\n' then Code else LineComment, 1)
    case BlockComment => if ch == '*' && next == Some('/') then (Code, 2) else (BlockComment, 1)
    case Quoted(q) => if ch != q then (state, 1) else if next == Some(q) then (state, 2) else (Code, 1)
    case _ =>
      if ch == '-' && next == Some('-') then (LineComment, 2)
      else if ch == '/' && next == Some('*') then (BlockComment, 2)
      else if IsQuote(ch) then (Quoted(ch), 1)
      else (Code, 1)
  }

  lemma ScanStepIsLex(text: string, n: nat, i: nat)
    requires i < n <= |text| && !Lex(text, n, i).Second?
    ensures var (after, width) := ScanStep(text, n, i, Lex(text, n, i));
            && i + width <= n && !after.Second? && Lex(text, n, i + width) == after
            && (width == 2 ==> Lex(text, n, i + 1) == Second(after))
  {
  }

  /** Whether the cursor is in a string literal, in a quoted identifier, or in a comment. */
  method QuoteContextAtOffset(sql: string, offset: int) returns (inString: bool, inIdentifier: bool, inComment: bool)
    ensures var n := Clamp(offset, |sql|);
            && inString == (Lex(sql, n, n) == Quoted('\''))
            && inIdentifier == (Lex(sql, n, n).Quoted? && Lex(sql, n, n) != Quoted('\''))
            && inComment == (Lex(sql, n, n) == LineComment || Lex(sql, n, n) == BlockComment)
  {
    var n := Clamp(offset, |sql|);
    var state := Code;
    var i := 0;
    while i < n
      invariant i <= n && state == Lex(sql, n, i) && !state.Second?
    {
      ScanStepIsLex(sql, n, i);
      var step := ScanStep(sql, n, i, state);
      state, i := step.0, i + step.1;
    }
    return state == Quoted('\''), state.Quoted? && state.q != '\'', state == LineComment || state == BlockComment;
  }

  /** Unlike the scans above, this one looks past the cursor for the second byte of a token. */
  method OffsetInSQLCode(sql: string, offset: int) returns (inCode: bool)
    ensures inCode == (Settled(Lex(sql, |sql|, Clamp(offset, |sql|))) == Code)
  {
    var n := |sql|;
    var state := Code;
    var i := 0;
    while i < n && i < offset
      invariant i <= n && state == Lex(sql, n, i) && !state.Second?
      invariant i <= Clamp(offset, n) || (i == Clamp(offset, n) + 1 && Lex(sql, n, i - 1) == Second(state))
    {
      ScanStepIsLex(sql, n, i);
      var step := ScanStep(sql, n, i, state);
      state, i := step.0, i + step.1;
    }
    return state == Code;
  }

  // ----- The scopes around a cursor -----

  /** The parentheses opened in code before byte `i` and not yet closed; a closing one with
      nothing to close is ignored. */
  ghost function OpenParens(text: string, n: nat, i: nat): seq<nat>
    requires i <= n <= |text|
  {
    if i == 0 then [] else
      var open := OpenParens(text, n, i - 1);
      if Lex(text, n, i - 1) != Code then open
      else if text[i - 1] == '(' then open + [i - 1]
      else if text[i - 1] == ')' && open != [] then open[..|open| - 1]
      else open
  }

  predicate IsQueryBodyStart(text: string, start: int) {
    || HasWordAt(text, start, "select")
    || HasWordAt(text, start, "with")
    || HasWordAt(text, start, "values")
    || HasWordAt(text, start, "describe")
  }

  predicate OpensQuery(text: string, open: nat) {
    IsQueryBodyStart(text, SkipSpace(text, open + 1))
  }

  /** A parenthesis starts a query exactly when one of these words stands behind it, after white space only. */
  lemma OpensQueryIff(text: string, open: nat)
    requires open < |text|
    ensures OpensQuery(text, open) <==>
              exists j: nat, word :: SpaceUpTo(text, open + 1, j) && word in ["select", "with", "values", "describe"] && HasWordAt(text, j, word)
  {
    var from := open + 1;
    var j := SkipSpace(text, from);
    SpaceSkippedUpTo(text, from);
    forall k: nat | SpaceUpTo(text, from, k)
      ensures k == j
    {
      SkippedTo(text, from, k);
    }
    assert SpaceUpTo(text, from, j) && "select" in ["select", "with", "values", "describe"];
  }

  function BodyRange(text: string, open: nat): Range {
    var end := MatchingParen(text, open);
    Range(open + 1, if end < 0 then |text| else end)
  }

  /** The body of the query in parentheses at `i` ends there, if there is one. */
  function QueryEnd(sql: string, i: nat): (r: Option<nat>)
    requires i < |sql|
    ensures r.Some? ==> i < r.value < |sql| && sql[i] == '(' && sql[r.value] == ')'
  {
    if sql[i] != '(' || !OpensQuery(sql, i) then None
    else
      var close := MatchingParen(sql, i);
      if close < 0 then None else Some(close)
  }

  /** The whole text, then the body of every open parenthesis that starts a query. */
  ghost function Scopes(text: string, open: seq<nat>): seq<Range>
  {
    if open == [] then [Range(0, |text|)]
    else
      var o := open[|open| - 1];
      Scopes(text, open[..|open| - 1]) + if OpensQuery(text, o) then [BodyRange(text, o)] else []
  }

  lemma ScopesSnoc(text: string, open: seq<nat>, k: nat)
    requires k < |open|
    ensures Scopes(text, open[..k + 1]) == Scopes(text, open[..k]) + if OpensQuery(text, open[k]) then [BodyRange(text, open[k])] else []
  {
    assert open[..k + 1][..k] == open[..k];
  }

  /** The first half of SelectScopeRangesAt: the stack of open parentheses at the cursor. */
  method ScanOpenParens(text: string, n: nat) returns (openParens: seq<nat>)
    requires n <= |text|
    ensures openParens == OpenParens(text, n, n)
  {
    openParens := [];
    var state := Code;
    var i := 0;
    while i < n
      invariant i <= n && state == Lex(text, n, i) && !state.Second?
      invariant openParens == OpenParens(text, n, i)
    {
      ScanStepIsLex(text, n, i);
      var ch := text[i];
      var step := ScanStep(text, n, i, state);
      if step.1 == 2 {
        TokenKeepsOpenParens(text, n, i);
      }
      if state == Code && step == (Code, 1) {
        if ch == '(' {
          openParens := openParens + [i];
        } else if ch == ')' {
          if |openParens| > 0 {
            openParens := openParens[..|openParens| - 1];
          }
        }
      }
      state, i := step.0, i + step.1;
    }
  }

  lemma TokenKeepsOpenParens(text: string, n: nat, i: nat)
    requires i + 2 <= n <= |text| && !Lex(text, n, i).Second? && Lex(text, n, i + 1).Second?
    ensures OpenParens(text, n, i + 2) == OpenParens(text, n, i)
  {
    assert OpenParens(text, n, i + 1) == OpenParens(text, n, i);
  }

  method SelectScopeRangesAt(text: string, offset: int) returns (scopes: seq<Range>)
    ensures var n := Clamp(offset, |text|); scopes == Scopes(text, OpenParens(text, n, n))
  {
    var n := Clamp(offset, |text|);
    var openParens := ScanOpenParens(text, n);
    scopes := ScopesOf(text, openParens);
  }

  /** The loop over the open parentheses. */
  method ScopesOf(text: string, openParens: seq<nat>) returns (scopes: seq<Range>)
    ensures scopes == Scopes(text, openParens)
  {
    scopes := [Range(0, |text|)];
    for k := 0 to |openParens|
      invariant scopes == Scopes(text, openParens[..k])
    {
      var open := openParens[k];
      ScopesSnoc(text, openParens, k);
      var body := QueryBody(text, open);
      if body.Some? {
        scopes := scopes + [body.value];
      }
    }
    assert openParens[..|openParens|] == openParens;
  }

  method QueryBody(text: string, open: nat) returns (body: Option<Range>)
    ensures body == if OpensQuery(text, open) then Some(BodyRange(text, open)) else None
  {
    var bodyStart := SkipSpace(text, open + 1);
    if !IsQueryBodyStart(text, bodyStart) {
      return None;
    }
    var end := FindMatchingParen(text, open);
    if end < 0 {
      end := |text|;
    }
    return Some(Range(open + 1, end));
  }

  /** A chain of ranges from the whole text inwards, each properly inside the one before it and
      each containing the offset. */
  ghost predicate NestedAround(scopes: seq<Range>, text: string, offset: nat) {
    && scopes != [] && scopes[0] == Range(0, |text|)
    && (forall k :: 0 <= k < |scopes| ==> scopes[k].start <= offset <= scopes[k].end <= |text|)
    && (forall j, k :: 0 <= j < k < |scopes| ==> scopes[j].start < scopes[k].start && scopes[k].end <= scopes[j].end)
    && (forall j, k :: 1 <= j < k < |scopes| ==> scopes[k].end < scopes[j].end || scopes[k].end == scopes[j].end == |text|)
  }

  // ----- When the scopes nest -----

  /** The parentheses among `open` that start a query. */
  ghost function QueryOpens(text: string, open: seq<nat>): seq<nat> {
    if open == [] then []
    else
      var o := open[|open| - 1];
      QueryOpens(text, open[..|open| - 1]) + if OpensQuery(text, o) then [o] else []
  }

  ghost predicate Increasing(open: seq<nat>, n: nat) {
    && (forall k :: 0 <= k < |open| ==> open[k] < n)
    && (forall j, k :: 0 <= j < k < |open| ==> open[j] < open[k])
  }

  lemma {:induction false} OpenParensIncrease(text: string, n: nat, i: nat)
    requires i <= n <= |text|
    ensures Increasing(OpenParens(text, n, i), i)
  {
    if i > 0 {
      OpenParensIncrease(text, n, i - 1);
    }
  }

  /** The scopes are the whole text and the bodies of these parentheses. */
  lemma {:induction false} ScopesAreBodies(text: string, open: seq<nat>, qs: seq<nat>, scopes: seq<Range>)
    requires qs == QueryOpens(text, open) && scopes == Scopes(text, open)
    ensures |scopes| == |qs| + 1 && scopes[0] == Range(0, |text|)
    ensures forall k :: 0 <= k < |qs| ==> scopes[k + 1] == BodyRange(text, qs[k])
  {
    if open != [] {
      var shorter := open[..|open| - 1];
      ScopesAreBodies(text, shorter, QueryOpens(text, shorter), Scopes(text, shorter));
    }
  }

  lemma {:induction false} QueryOpensMeaning(text: string, open: seq<nat>, n: nat, qs: seq<nat>)
    requires Increasing(open, n) && qs == QueryOpens(text, open)
    ensures Increasing(qs, n) && forall o :: o in qs <==> o in open && OpensQuery(text, o)
  {
    if open != [] {
      var shorter, last := open[..|open| - 1], open[|open| - 1];
      var rest := QueryOpens(text, shorter);
      QueryOpensMeaning(text, shorter, n, rest);
      assert open == shorter + [last];
      forall k | 0 <= k < |rest|
        ensures rest[k] < last
      {
        assert rest[k] in rest;
      }
    }
  }

  /** No byte before the cursor brings the depth counted from `o` back to zero. */
  ghost predicate ReachesCursor(text: string, o: nat, n: nat) {
    forall k :: o <= k < n ==> !ClosesAt(text, o, k)
  }

  /** Wherever the depth counted from `o` is back at zero, the depth counted from `p` was earlier. */
  ghost predicate InnerClosesFirst(text: string, o: nat, p: nat) {
    forall k :: o <= k < |text| && ClosesAt(text, o, k) ==> exists j :: p <= j < k && ClosesAt(text, p, j)
  }

  /** A body reaches the cursor exactly when no byte before the cursor closes its parenthesis. */
  lemma BodyReachesIff(text: string, o: nat, n: nat)
    requires o < n <= |text|
    ensures BodyRange(text, o).start <= n && BodyRange(text, o).end <= |text|
    ensures n <= BodyRange(text, o).end <==> ReachesCursor(text, o, n)
  {
    MatchingParenIsFirst(text, o);
  }

  /** `inner` starts behind `outer` and ends before it, or both run to the end of the text. */
  ghost predicate Within(inner: Range, outer: Range, text: string) {
    && outer.start < inner.start
    && (inner.end < outer.end || inner.end == outer.end == |text|)
  }

  /** Of two bodies, the later one lies in the earlier one exactly when its parenthesis closes first
      wherever the other one closes. */
  lemma BodiesWithinIff(text: string, o: nat, p: nat)
    requires o < p < |text|
    ensures Within(BodyRange(text, p), BodyRange(text, o), text) <==> InnerClosesFirst(text, o, p)
  {
    MatchingParenIsFirst(text, o);
    MatchingParenIsFirst(text, p);
  }

  lemma ChainOfBodies(text: string, n: nat, qs: seq<nat>, scopes: seq<Range>)
    requires n <= |text| && Increasing(qs, n) && |scopes| == |qs| + 1 && scopes[0] == Range(0, |text|)
    requires forall k :: 0 <= k < |qs| ==> scopes[k + 1] == BodyRange(text, qs[k])
    requires forall k :: 0 <= k < |qs| ==> BodyRange(text, qs[k]).start <= n && BodyRange(text, qs[k]).end <= |text|
    ensures NestedAround(scopes, text, n) <==>
            && (forall k :: 0 <= k < |qs| ==> n <= BodyRange(text, qs[k]).end)
            && (forall j, k :: 0 <= j < k < |qs| ==> Within(BodyRange(text, qs[k]), BodyRange(text, qs[j]), text))
  {
    if NestedAround(scopes, text, n) {
      forall j, k | 0 <= j < k < |qs|
        ensures Within(BodyRange(text, qs[k]), BodyRange(text, qs[j]), text)
      {
        assert scopes[j + 1].start < scopes[k + 1].start;
      }
      forall k | 0 <= k < |qs|
        ensures n <= BodyRange(text, qs[k]).end
      {
        assert n <= scopes[k + 1].end;
      }
    } else {
      assert forall k :: 1 <= k < |scopes| ==> scopes[k] == BodyRange(text, qs[k - 1]);
    }
  }

  /** The parentheses of the queries around the cursor close where they should: none before the
      cursor, and inner ones before outer ones, as the scan that reads comments as code counts. */
  ghost predicate ClosesInOrder(text: string, open: seq<nat>, n: nat) {
    && (forall o :: o in open && OpensQuery(text, o) ==> ReachesCursor(text, o, n))
    && (forall o, p :: o in open && p in open && o < p && OpensQuery(text, o) && OpensQuery(text, p) ==> InnerClosesFirst(text, o, p))
  }

  lemma PairsInOrder(qs: seq<nat>, n: nat, o: nat, p: nat) returns (j: nat, k: nat)
    requires Increasing(qs, n) && o in qs && p in qs && o < p
    ensures j < k < |qs| && qs[j] == o && qs[k] == p
  {
    j :| 0 <= j < |qs| && qs[j] == o;
    k :| 0 <= k < |qs| && qs[k] == p;
  }

  /** On any text, the scopes around a cursor form a strictly nested chain that contains the cursor if
      and only if the queries' parentheses close in order. */
  lemma ScopesNestIff(text: string, n: nat)
    requires n <= |text|
    ensures NestedAround(Scopes(text, OpenParens(text, n, n)), text, n) <==> ClosesInOrder(text, OpenParens(text, n, n), n)
  {
    var open := OpenParens(text, n, n);
    var qs, scopes := QueryOpens(text, open), Scopes(text, open);
    OpenParensIncrease(text, n, n);
    ScopesAreBodies(text, open, qs, scopes);
    QueryOpensMeaning(text, open, n, qs);
    forall k | 0 <= k < |qs|
      ensures BodyRange(text, qs[k]).start <= n && BodyRange(text, qs[k]).end <= |text|
      ensures n <= BodyRange(text, qs[k]).end <==> ReachesCursor(text, qs[k], n)
    {
      BodyReachesIff(text, qs[k], n);
    }
    forall j, k | 0 <= j < k < |qs|
      ensures Within(BodyRange(text, qs[k]), BodyRange(text, qs[j]), text) <==> InnerClosesFirst(text, qs[j], qs[k])
    {
      BodiesWithinIff(text, qs[j], qs[k]);
    }
    ChainOfBodies(text, n, qs, scopes);
    InOrderByIndex(text, open, qs, n);
  }

  lemma InOrderByIndex(text: string, open: seq<nat>, qs: seq<nat>, n: nat)
    requires Increasing(qs, n) && forall o :: o in qs <==> o in open && OpensQuery(text, o)
    ensures ClosesInOrder(text, open, n) <==>
            && (forall k :: 0 <= k < |qs| ==> ReachesCursor(text, qs[k], n))
            && (forall j, k :: 0 <= j < k < |qs| ==> InnerClosesFirst(text, qs[j], qs[k]))
  {
    assert forall k :: 0 <= k < |qs| ==> qs[k] in qs;
    if (forall k :: 0 <= k < |qs| ==> ReachesCursor(text, qs[k], n))
       && (forall j, k :: 0 <= j < k < |qs| ==> InnerClosesFirst(text, qs[j], qs[k])) {
      forall o, p | o in open && p in open && o < p && OpensQuery(text, o) && OpensQuery(text, p)
        ensures InnerClosesFirst(text, o, p)
      {
        var j, k := PairsInOrder(qs, n, o, p);
      }
    }
  }

  // ----- On comment-free text the scopes nest -----

  /** The parenthesis at `o` stays below the depth of every byte behind it, up to `i`. */
  ghost predicate StillOpen(text: string, o: nat, i: nat)
  {
    && o < i <= |text| && Depth(text, 0, o) < Depth(text, 0, i)
    && if i == o + 1 then text[o] == '(' && Quote(text, 0, o) == None else StillOpen(text, o, i - 1)
  }

  lemma {:induction false} StillOpenAt(text: string, o: nat, i: nat, k: nat)
    requires StillOpen(text, o, i) && o < k <= i
    ensures StillOpen(text, o, k) && text[o] == '(' && Quote(text, 0, o) == None
  {
    if i > o + 1 {
      StillOpenAt(text, o, i - 1, if k == i then i - 1 else k);
    }
  }

  ghost predicate AllOpen(text: string, open: seq<nat>, i: nat) {
    && (forall o :: o in open ==> StillOpen(text, o, i))
    && (forall j, k :: 0 <= j < k < |open| ==> open[j] < open[k])
  }

  lemma PushedOpen(text: string, open: seq<nat>, i: nat)
    requires i < |text| && AllOpen(text, open, i)
    requires Quote(text, 0, i) == None && text[i] == '('
    ensures AllOpen(text, open + [i], i + 1)
  {
    assert Depth(text, 0, i + 1) == Depth(text, 0, i) + 1;
    assert StillOpen(text, i, i + 1);
    forall o | o in open
      ensures StillOpen(text, o, i + 1)
    {
      assert StillOpen(text, o, i);
    }
    assert forall k :: 0 <= k < |open| ==> open[k] in open;
  }

  lemma KeptOpen(text: string, open: seq<nat>, i: nat)
    requires i < |text| && AllOpen(text, open, i)
    requires Depth(text, 0, i) <= Depth(text, 0, i + 1)
    ensures AllOpen(text, open, i + 1)
  {
    forall o | o in open
      ensures StillOpen(text, o, i + 1)
    {
      assert StillOpen(text, o, i);
    }
  }

  lemma PoppedOpen(text: string, open: seq<nat>, i: nat)
    requires i < |text| && AllOpen(text, open, i) && open != []
    requires Quote(text, 0, i) == None && text[i] == ')'
    ensures AllOpen(text, open[..|open| - 1], i + 1)
  {
    var top := open[|open| - 1];
    assert StillOpen(text, top, i);
    assert Depth(text, 0, i + 1) == Depth(text, 0, i) - 1;
    forall j | 0 <= j < |open| - 1
      ensures StillOpen(text, open[j], i + 1)
    {
      assert open[j] in open && open[j] < top;
      StillOpenAt(text, open[j], i, top);
    }
  }

  lemma {:induction false} OpenParensStillOpen(text: string, n: nat, i: nat)
    requires i <= n <= |text| && CommentFree(text)
    ensures AllOpen(text, OpenParens(text, n, i), i)
  {
    if i > 0 {
      var open := OpenParens(text, n, i - 1);
      OpenParensStillOpen(text, n, i - 1);
      ScansRelate(text, n, i - 1);
      var code := Lex(text, n, i - 1) == Code;
      if code && text[i - 1] == '(' {
        PushedOpen(text, open, i - 1);
      } else if code && text[i - 1] == ')' && open != [] {
        PoppedOpen(text, open, i - 1);
      } else if open != [] {
        KeptOpen(text, open, i - 1);
      }
    }
  }

  /** The end that a scan from an open parenthesis finds is not before the cursor. */
  lemma MatchNotBefore(text: string, o: nat, n: nat)
    requires StillOpen(text, o, n)
    ensures MatchingParen(text, o) == -1 || n <= MatchingParen(text, o) < |text|
  {
    var r := MatchingParen(text, o);
    if r != -1 {
      MatchingParenIsFirst(text, o);
      StillOpenAt(text, o, n, n);
      DepthFrom(text, o, r + 1);
      if o < r + 1 <= n {
        StillOpenAt(text, o, n, r + 1);
      }
    }
  }

  /** When the depth has sunk below that of `p` behind byte `r`, a scan from `p` finds its end
      before `r`. */
  lemma ClosedBefore(text: string, p: nat, n: nat, r: nat)
    requires StillOpen(text, p, n) && n <= r < |text|
    requires Depth(text, 0, r + 1) < Depth(text, 0, p)
    ensures -1 < MatchingParen(text, p) < r
  {
    StillOpenAt(text, p, n, n);
    var s := n;
    while Depth(text, 0, s + 1) > Depth(text, 0, p)
      invariant n <= s <= r
      invariant Depth(text, 0, s) > Depth(text, 0, p)
      decreases r - s
    {
      s := s + 1;
    }
    DepthFrom(text, p, s + 1);
    QuoteFrom(text, p, s);
    assert ClosesAt(text, p, s);
    MatchingParenIsFirst(text, p);
  }

  /** Of two parentheses still open, the outer one closes after the inner one. */
  lemma MatchesNest(text: string, o: nat, p: nat, n: nat)
    requires o < p && StillOpen(text, o, n) && StillOpen(text, p, n)
    ensures MatchingParen(text, o) == -1 || -1 < MatchingParen(text, p) < MatchingParen(text, o)
  {
    var r := MatchingParen(text, o);
    if r != -1 {
      MatchNotBefore(text, o, n);
      MatchingParenIsFirst(text, o);
      StillOpenAt(text, o, n, p);
      DepthFrom(text, o, r + 1);
      ClosedBefore(text, p, n, r);
    }
  }

  /** On comment-free text the scopes around a cursor form a strictly nested chain. */
  lemma ScopesNest(text: string, n: nat)
    requires n <= |text| && CommentFree(text)
    ensures NestedAround(Scopes(text, OpenParens(text, n, n)), text, n)
  {
    var open := OpenParens(text, n, n);
    OpenParensStillOpen(text, n, n);
    OpenParensIncrease(text, n, n);
    forall o | o in open
      ensures ReachesCursor(text, o, n)
    {
      MatchNotBefore(text, o, n);
      BodyReachesIff(text, o, n);
    }
    forall o, p | o in open && p in open && o < p
      ensures InnerClosesFirst(text, o, p)
    {
      MatchesNest(text, o, p, n);
      BodiesWithinIff(text, o, p);
    }
    ScopesNestIff(text, n);
  }

  /** Comments do not have to break the chain: here the scopes nest although the text is a comment. */
  lemma CommentsCanBeHarmless()
    ensures !CommentFree("--x") && NestedAround(Scopes("--x", OpenParens("--x", 3, 3)), "--x", 3)
  {
    assert !StartsNoComment("--x", 0);
    assert Quote("--x", 0, 0) == None;
    assert OpenParens("--x", 3, 2) == [] && OpenParens("--x", 3, 3) == [];
  }

  /** A query whose closing parenthesis stands in a comment, with the cursor at the end. */
  const COMMENTED := "(select/*)*/"

  lemma CommentedLex()
    ensures Lex(COMMENTED, 12, 7) == Code
    ensures Lex(COMMENTED, 12, 8) == Second(BlockComment) && Lex(COMMENTED, 12, 9) == Lex(COMMENTED, 12, 10) == BlockComment
    ensures Lex(COMMENTED, 12, 11) == Second(Code)
  {
    assert Lex(COMMENTED, 12, 4) == Code;
  }

  lemma CommentedMatch()
    ensures MatchingParen(COMMENTED, 0) == 9
  {
    assert COMMENTED[1..9] == "select/*";
    UnbracketedBalanced(COMMENTED[1..9]);
    ClosesItselfIff(COMMENTED, 0, 9);
  }

  /** Bytes that are no parentheses open and close nothing. */
  lemma {:induction false} NoParens(text: string, n: nat, i: nat, j: nat)
    requires i <= j <= n <= |text| && forall k :: i <= k < j ==> text[k] != '(' && text[k] != ')'
    ensures OpenParens(text, n, j) == OpenParens(text, n, i)
    decreases j
  {
    if i < j {
      NoParens(text, n, i, j - 1);
    }
  }

  lemma CommentedOpen()
    ensures OpenParens(COMMENTED, 12, 12) == [0]
  {
    CommentedLex();
    assert OpenParens(COMMENTED, 12, 1) == [0];
    NoParens(COMMENTED, 12, 1, 9);
    assert OpenParens(COMMENTED, 12, 10) == OpenParens(COMMENTED, 12, 9);
    NoParens(COMMENTED, 12, 10, 12);
  }

  lemma CommentedScopes()
    ensures Scopes(COMMENTED, [0]) == [Range(0, 12), Range(1, 9)]
  {
    CommentedMatch();
    assert HasWordAt(COMMENTED, 1, "select");
    assert SkipSpace(COMMENTED, 1) == 1;
    assert [0][..0] == [];
    assert Scopes(COMMENTED, []) == [Range(0, 12)];
  }

  /** Without the restriction to comment-free text a scope need not contain the cursor: the scan
      for the closing parenthesis reads comments as code. */
  lemma CommentsBreakNesting()
    ensures Scopes(COMMENTED, OpenParens(COMMENTED, 12, 12)) == [Range(0, 12), Range(1, 9)]
    ensures !NestedAround(Scopes(COMMENTED, OpenParens(COMMENTED, 12, 12)), COMMENTED, 12)
  {
    CommentedOpen();
    CommentedScopes();
    assert Scopes(COMMENTED, [0])[1] == Range(1, 9);
  }

  // ----- The UNION branch under a cursor -----

  /** Where the separator that starts with the UNION at `i` ends: behind ALL or DISTINCT if one
      follows. A word found by HasWordAt is all that the word pattern matches there. */
  function UnionEnd(text: string, i: nat): nat {
    var j := SkipSpace(text, i + 5);
    if HasWordAt(text, j, "all") then j + 3
    else if HasWordAt(text, j, "distinct") then j + 8
    else i + 5
  }

  /** Behind a UNION, after white space only, stands ALL or DISTINCT. */
  ghost predicate QualifierAt(text: string, i: nat, j: nat, word: string) {
    i + 5 <= |text| && SpaceUpTo(text, i + 5, j) && (word == "all" || word == "distinct") && HasWordAt(text, j, word)
  }

  /** The separator ends behind the ALL or DISTINCT that follows the UNION, and behind the UNION if neither does. */
  lemma UnionEndMeaning(text: string, i: nat)
    requires i + 5 <= |text|
    ensures forall j: nat, word :: QualifierAt(text, i, j, word) ==> UnionEnd(text, i) == j + |word|
    ensures (forall j: nat, word :: !QualifierAt(text, i, j, word)) ==> UnionEnd(text, i) == i + 5
  {
    var next := SkipSpace(text, i + 5);
    SpaceSkippedUpTo(text, i + 5);
    forall j: nat, word | QualifierAt(text, i, j, word)
      ensures UnionEnd(text, i) == j + |word|
    {
      SkippedTo(text, i + 5, j);
      if word == "distinct" && HasWordAt(text, j, "all") {
        WordBytes(text, j, "all", 0);
        WordBytes(text, j, "distinct", 0);
      }
    }
    assert QualifierAt(text, i, next, "all") <==> HasWordAt(text, next, "all");
    assert QualifierAt(text, i, next, "distinct") <==> HasWordAt(text, next, "distinct");
  }

  /** Where the statement branch that reaches byte `i` starts. */
  ghost function BranchStart(text: string, i: nat): nat
    requires i <= |text|
  {
    if i == 0 then 0
    else if TopLevel(text, i - 1) && text[i - 1] == ';' then i
    else if TopLevel(text, i - 1) && HasWordAt(text, i - 1, "union") then UnionEnd(text, i - 1)
    else BranchStart(text, i - 1)
  }

  method CurrentTopLevelSelectStart(text: string, offset: nat) returns (start: nat)
    ensures start == BranchStart(text, Clamp(offset, |text|))
  {
    var n := if offset > |text| then |text| else offset;
    start := 0;
    var depth := 0;
    var inQuote: Option<char> := None;
    for i := 0 to n
      invariant inQuote == Quote(text, 0, i) && depth == Nesting(text, i)
      invariant start == BranchStart(text, i)
    {
      var ch := text[i];
      if inQuote != None {
        if Some(ch) == inQuote {
          inQuote := None;
        }
        continue;
      }
      if IsQuote(ch) {
        QuoteStartsNoWord(text, i);
        inQuote := Some(ch);
        continue;
      }
      if ch == '(' {
        QuoteStartsNoWord(text, i);
        depth := depth + 1;
      } else if ch == ')' {
        QuoteStartsNoWord(text, i);
        if depth > 0 {
          depth := depth - 1;
        }
      } else if ch == ';' {
        if depth == 0 {
          start := i + 1;
        }
      } else if depth == 0 && HasWordAt(text, i, "union") {
        start := UnionEnd(text, i);
      }
    }
  }

  lemma WordBytes(text: string, i: int, word: string, k: nat)
    requires HasWordAt(text, i, word) && k < |word|
    ensures Lower(text[i + k]) == Lower(word[k])
  {
    assert text[i..i + |word|][k] == text[i + k];
  }

  lemma QuoteStartsNoWord(text: string, i: nat)
    requires i < |text| && !IsIdentByte(text[i])
    ensures !HasWordAt(text, i, "union")
  {
    if HasWordAt(text, i, "union") {
      WordBytes(text, i, "union", 0);
      assert false;
    }
  }

  /** The text of the branch up to the cursor. `None` stands for a slice whose start lies behind
      its end, against which the Go code has no guard. */
  method CurrentTopLevelSelectSegment(text: string, offset: nat) returns (segment: Option<string>)
    ensures var n := Clamp(offset, |text|);
            segment == if BranchStart(text, n) <= n then Some(text[BranchStart(text, n)..n]) else None
    ensures segment == None <==> InsideSeparator(text, Clamp(offset, |text|))
  {
    var n := if offset > |text| then |text| else offset;
    var start := CurrentTopLevelSelectStart(text, offset);
    SegmentDefined(text, n);
    segment := if start <= n then Some(text[start..n]) else None;
  }

  /** The cursor is behind the first byte of a top-level UNION [ALL | DISTINCT], before its end. */
  ghost predicate InsideSeparator(text: string, n: nat) {
    exists i :: 0 <= i < n && IsUnion(text, i) && n < UnionEnd(text, i)
  }

  ghost predicate IsUnion(text: string, i: nat) {
    TopLevel(text, i) && HasWordAt(text, i, "union")
  }

  predicate Letters(word: string) {
    forall k :: 0 <= k < |word| ==> 'a' <= word[k] <= 'z'
  }

  /** Inside a word no separator starts. */
  lemma InsideWord(text: string, i: nat, word: string, j: nat)
    requires HasWordAt(text, i, word) && Letters(word) && i <= j < i + |word|
    ensures IsIdentByte(text[j]) && text[j] != ';'
    ensures i < j ==> !HasWordAt(text, j, "union")
  {
    WordBytes(text, i, word, j - i);
    if i < j {
      WordBytes(text, i, word, j - i - 1);
      assert IsIdentByte(text[j - 1]);
    }
  }

  /** A word that does not start with `u` is not a UNION. */
  lemma OtherWord(text: string, i: nat, word: string)
    requires HasWordAt(text, i, word) && Letters(word) && word != "" && word[0] != 'u'
    ensures !HasWordAt(text, i, "union")
  {
    WordBytes(text, i, word, 0);
    if HasWordAt(text, i, "union") {
      WordBytes(text, i, "union", 0);
      assert false;
    }
  }

  lemma SecondWord(text: string, k: nat, word: string, j: nat)
    requires HasWordAt(text, k, word) && (word == "all" || word == "distinct") && k <= j < k + |word|
    ensures j < |text| && text[j] != ';' && !HasWordAt(text, j, "union")
  {
    OtherWord(text, k, word);
    InsideWord(text, k, word, j);
  }

  /** No statement separator and no other UNION starts inside a UNION separator. */
  lemma SeparatorBytes(text: string, i: nat, j: nat)
    requires HasWordAt(text, i, "union") && i < j < UnionEnd(text, i)
    ensures j < |text| && text[j] != ';' && !HasWordAt(text, j, "union")
  {
    var k := SkipSpace(text, i + 5);
    if j < i + 5 {
      InsideWord(text, i, "union", j);
    } else if j < k {
      OnlySpaceSkipped(text, i + 5, j);
      QuoteStartsNoWord(text, j);
    } else if HasWordAt(text, k, "all") {
      SecondWord(text, k, "all", j);
    } else {
      SecondWord(text, k, "distinct", j);
    }
  }

  /** While the cursor is inside a separator, that separator decides the start. */
  lemma {:induction false} SeparatorDecides(text: string, i: nat, n: nat)
    requires i < n <= |text| && IsUnion(text, i) && n < UnionEnd(text, i)
    ensures BranchStart(text, n) == UnionEnd(text, i)
    decreases n - i
  {
    if n == i + 1 {
      WordBytes(text, i, "union", 0);
    } else {
      SeparatorDecides(text, i, n - 1);
      SeparatorBytes(text, i, n - 1);
    }
  }

  lemma {:induction false} StartBehindSeparator(text: string, n: nat)
    requires n <= |text|
    ensures BranchStart(text, n) <= n
         || exists i :: 0 <= i < n && IsUnion(text, i) && BranchStart(text, n) == UnionEnd(text, i)
  {
    if n > 0 {
      StartBehindSeparator(text, n - 1);
      if IsUnion(text, n - 1) {
        WordBytes(text, n - 1, "union", 0);
      }
    }
  }

  /** The segment is well defined exactly when the cursor is not inside a separator. */
  lemma SegmentDefined(text: string, n: nat)
    requires n <= |text|
    ensures BranchStart(text, n) <= n <==> !InsideSeparator(text, n)
  {
    StartBehindSeparator(text, n);
    if InsideSeparator(text, n) {
      var i :| 0 <= i < n && IsUnion(text, i) && n < UnionEnd(text, i);
      SeparatorDecides(text, i, n);
    }
  }

  /** The slice does fail: with the cursor behind the third byte of a UNION the branch starts at byte five. */
  lemma SliceFailsInsideUnion()
    ensures InsideSeparator("union", 3) && BranchStart("union", 3) == 5 && !(BranchStart("union", 3) <= 3)
  {
    assert HasWordAt("union", 0, "union") && TopLevel("union", 0);
    assert SkipSpace("union", 5) == 5 && UnionEnd("union", 0) == 5;
    assert IsUnion("union", 0);
    SeparatorDecides("union", 0, 3);
  }

  /** Every separator before the cursor lies before the start of the branch. */
  lemma {:induction false} StartPassesSeparators(text: string, n: nat, j: nat)
    requires j < n <= |text|
    requires IsUnion(text, j) || (TopLevel(text, j) && text[j] == ';')
    ensures j < BranchStart(text, n)
    decreases n
  {
    if j < n - 1 {
      StartPassesSeparators(text, n - 1, j);
    }
  }
}
