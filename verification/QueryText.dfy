/** Preparing a query text without moving any byte: template calls replaced by names of the same
    width, nested queries blanked out. */
module QueryText {
  import opened Wrappers
  import opened Scanners
  import opened SelectScopes

  // ----- Template calls -----

  predicate OpensAt(s: string, i: nat) {
    i + 1 < |s| && s[i] == '{' && s[i + 1] == '{'
  }

  predicate ClosesCallAt(s: string, i: nat) {
    i + 1 < |s| && s[i] == '}' && s[i + 1] == '}'
  }

  /** The next opening braces, or the length. */
  function NextOpen(s: string, i: nat): (r: nat)
    requires i <= |s|
    ensures i <= r <= |s| && (r < |s| ==> OpensAt(s, r))
    ensures forall k :: i <= k < r ==> !OpensAt(s, k)
    decreases |s| - i
  {
    if i == |s| then i else if OpensAt(s, i) then i else NextOpen(s, i + 1)
  }

  /** The next closing braces, or the length. */
  function NextClose(s: string, i: nat): (r: nat)
    requires i <= |s|
    ensures i <= r <= |s| && (r < |s| ==> ClosesCallAt(s, r))
    ensures forall k :: i <= k < r ==> !ClosesCallAt(s, k)
    decreases |s| - i
  {
    if i == |s| then i else if ClosesCallAt(s, i) then i else NextClose(s, i + 1)
  }

  /** The next template call at or after `i`: the leftmost opening braces and the first closing ones
      behind them. */
  function NextCall(s: string, i: nat): (r: Option<Range>)
    requires i <= |s|
    ensures r.Some? ==> i <= r.value.start && r.value.start + 4 <= r.value.end <= |s|
  {
    var open := NextOpen(s, i);
    if open == |s| then None
    else
      var close := NextClose(s, open + 2);
      if close == |s| then None else Some(Range(open, close + 2))
  }

  /** A call at or after `i`: the first opening braces from there, up to and with the first closing ones behind them. */
  ghost predicate FirstCall(s: string, i: nat, call: Range) {
    && i <= call.start && call.start + 4 <= call.end <= |s|
    && TwiceAt(s, call.start, '{') && (forall k :: i <= k < call.start ==> !TwiceAt(s, k, '{'))
    && TwiceAt(s, call.end - 2, '}') && (forall k :: call.start + 2 <= k < call.end - 2 ==> !TwiceAt(s, k, '}'))
  }

  ghost predicate TwiceAt(s: string, i: int, c: char) {
    0 <= i < |s| - 1 && s[i] == c && s[i + 1] == c
  }

  lemma NextCallIff(s: string, i: nat, call: Range)
    requires i <= |s|
    ensures NextCall(s, i) == Some(call) <==> FirstCall(s, i, call)
  {
    assert forall k: nat :: (OpensAt(s, k) <==> TwiceAt(s, k, '{')) && (ClosesCallAt(s, k) <==> TwiceAt(s, k, '}'));
    if FirstCall(s, i, call) {
      var open := NextOpen(s, i);
      assert OpensAt(s, call.start) && open <= call.start;
      assert open == call.start;
      var close := NextClose(s, open + 2);
      assert close <= call.end - 2;
      assert close < |s| && ClosesCallAt(s, close);
    }
  }

  ghost predicate TemplateFree(s: string) {
    forall i, j :: 0 <= i && i + 2 <= j && OpensAt(s, i) ==> !ClosesCallAt(s, j)
  }

  lemma NoCall(s: string, i: nat)
    requires i <= |s| && TemplateFree(s)
    ensures NextCall(s, i) == None
  {
    var open := NextOpen(s, i);
    if open < |s| {
      assert OpensAt(s, open);
    }
  }

  lemma SliceTemplateFree(s: string, i: nat, j: nat)
    requires i <= j <= |s| && TemplateFree(s)
    ensures TemplateFree(s[i..j])
  {
    var t := s[i..j];
    forall a, b | 0 <= a && a + 2 <= b && OpensAt(t, a)
      ensures !ClosesCallAt(t, b)
    {
      assert OpensAt(s, i + a);
      assert !ClosesCallAt(s, i + b);
    }
  }

  const TEMPLATE_NAME := "__template__"

  function Spaces(n: nat): (r: string)
    ensures |r| == n
  {
    seq(n, _ => ' ')
  }

  /** A replacement cut or padded to a width; an empty one becomes a placeholder. */
  function Fit(value: string, width: nat): (r: string)
    ensures |r| == width
  {
    var v := if value == "" then TEMPLATE_NAME else value;
    if |v| > width then v[..width] else v + Spaces(width - |v|)
  }

  type Replacement = string -> string

  /** The text from `i` on with every template call replaced. */
  function PreparedFrom(s: string, i: nat, replacement: Replacement): string
    requires i <= |s|
    decreases |s| - i
  {
    match NextCall(s, i)
    case None => s[i..]
    case Some(call) =>
      s[i..call.start] + (Fit(replacement(s[call.start..call.end]), call.end - call.start) + PreparedFrom(s, call.end, replacement))
  }

  function Prepared(s: string, replacement: Replacement): string {
    PreparedFrom(s, 0, replacement)
  }

  lemma {:induction false} PreparedLength(s: string, i: nat, replacement: Replacement)
    requires i <= |s|
    ensures |PreparedFrom(s, i, replacement)| == |s| - i
    decreases |s| - i
  {
    match NextCall(s, i)
    case None =>
    case Some(call) => PreparedLength(s, call.end, replacement);
  }

  /** Preparing keeps the length, so offsets keep their meaning; a text without template calls is
      left as it is. */
  lemma PreparingMovesNothing(s: string, replacement: Replacement)
    ensures |Prepared(s, replacement)| == |s|
    ensures TemplateFree(s) ==> Prepared(s, replacement) == s
  {
    PreparedLength(s, 0, replacement);
    if TemplateFree(s) {
      NoCall(s, 0);
    }
  }

  ghost predicate InCall(s: string, from: nat, k: nat)
    requires from <= |s|
    decreases |s| - from
  {
    match NextCall(s, from)
    case None => false
    case Some(call) => call.start <= k < call.end || InCall(s, call.end, k)
  }

  /** Every byte outside the template calls stays what it was. */
  lemma {:induction false} OutsideCallsUnchanged(s: string, from: nat, k: nat, replacement: Replacement)
    requires from <= k < |s| && !InCall(s, from, k)
    ensures |PreparedFrom(s, from, replacement)| == |s| - from && PreparedFrom(s, from, replacement)[k - from] == s[k]
    decreases |s| - from
  {
    PreparedLength(s, from, replacement);
    match NextCall(s, from)
    case None =>
    case Some(call) =>
      if call.end <= k {
        OutsideCallsUnchanged(s, call.end, k, replacement);
      }
  }

  /** One of the calls from `from` on. */
  ghost predicate IsCall(s: string, from: nat, call: Range)
    requires from <= |s|
    decreases |s| - from
  {
    match NextCall(s, from)
    case None => false
    case Some(first) => call == first || IsCall(s, first.end, call)
  }

  /** What stands at the `k`-th byte of a call: the replacement, or the placeholder if that is empty, cut at the end of the
      call or followed by blanks. */
  function CallByte(value: string, k: nat): char {
    if value == "" then (if k < 12 then "__template__"[k] else ' ')
    else if k < |value| then value[k] else ' '
  }

  /** The bytes of a call are those of its replacement. */
  lemma {:induction false} CallsAreReplaced(s: string, from: nat, call: Range, k: nat, replacement: Replacement, written: string, prepared: string)
    requires from <= |s| && IsCall(s, from, call) && call.start <= k < call.end <= |s| && 0 <= call.start && written == s[call.start..call.end]
    requires prepared == PreparedFrom(s, from, replacement)
    ensures 0 <= k - from < |prepared| && prepared[k - from] == CallByte(replacement(written), k - call.start)
    decreases |s| - from
  {
    var first := NextCall(s, from).value;
    var rest := PreparedFrom(s, first.end, replacement);
    if call == first {
      FirstIsReplaced(s, from, call, k, replacement, written, prepared, rest);
    } else {
      CallsAreReplaced(s, first.end, call, k, replacement, written, rest);
      var gap, fitted := PreparedParts(s, from, first, replacement, prepared, rest);
      ThreeParts(gap, fitted, rest, k - from, prepared);
    }
  }

  lemma FirstIsReplaced(s: string, from: nat, call: Range, k: nat, replacement: Replacement, written: string, prepared: string, rest: string)
    requires from <= |s| && NextCall(s, from) == Some(call) && call.start <= k < call.end && written == s[call.start..call.end]
    requires prepared == PreparedFrom(s, from, replacement) && rest == PreparedFrom(s, call.end, replacement)
    ensures k - from < |prepared| && prepared[k - from] == CallByte(replacement(written), k - call.start)
  {
    var gap, fitted := PreparedParts(s, from, call, replacement, prepared, rest);
    FittedByte(replacement(written), call.end - call.start, k - call.start);
    ThreeParts(gap, fitted, rest, k - from, prepared);
  }

  lemma PreparedParts(s: string, from: nat, first: Range, replacement: Replacement, prepared: string, rest: string) returns (gap: string, fitted: string)
    requires from <= |s| && NextCall(s, from) == Some(first)
    requires prepared == PreparedFrom(s, from, replacement) && rest == PreparedFrom(s, first.end, replacement)
    ensures |gap| == first.start - from && |fitted| == first.end - first.start && prepared == gap + (fitted + rest)
    ensures fitted == Fit(replacement(s[first.start..first.end]), first.end - first.start)
  {
    PreparedStep(s, from, first, replacement);
    gap, fitted := s[from..first.start], Fit(replacement(s[first.start..first.end]), first.end - first.start);
  }

  lemma FittedByte(value: string, width: nat, k: nat)
    requires k < width
    ensures Fit(value, width)[k] == CallByte(value, k)
  {
  }

  lemma ThreeParts(a: string, b: string, c: string, k: nat, whole: string)
    requires k < |a| + |b| + |c| && whole == a + (b + c)
    ensures |whole| == |a| + |b| + |c| && whole[k] == if k < |a| then a[k] else if k < |a| + |b| then b[k - |a|] else c[k - |a| - |b|]
  {
  }

  method CopyInto(result: array<char>, start: nat, padded: string)
    requires start + |padded| <= result.Length
    modifies result
    ensures result[..] == old(result[..])[..start] + padded + old(result[..])[start + |padded|..]
  {
    for k := 0 to |padded|
      invariant forall j :: 0 <= j < start ==> result[j] == old(result[j])
      invariant forall j :: 0 <= j < k ==> result[start + j] == padded[j]
      invariant forall j :: start + |padded| <= j < result.Length ==> result[j] == old(result[j])
    {
      result[start + k] := padded[k];
    }
    assert result[..] == result[..start] + result[start..start + |padded|] + result[start + |padded|..];
    assert result[start..start + |padded|] == padded;
  }

  /** Copying over a stretch of a text of which the first `i` bytes are done. */
  lemma Overwritten(done: string, s: string, start: nat, end: nat, padded: string)
    requires |done| <= start <= end <= |s| && |padded| == end - start
    ensures var before := done + s[|done|..];
            before[..start] + padded + before[end..] == (done + s[|done|..start] + padded) + s[end..]
  {
    var before := done + s[|done|..];
    assert before[..start] == done + s[|done|..start];
    assert before[end..] == s[end..];
  }

  lemma PreparedStep(s: string, i: nat, call: Range, replacement: Replacement)
    requires i <= |s| && NextCall(s, i) == Some(call)
    ensures PreparedFrom(s, i, replacement) ==
            s[i..call.start] + (Fit(replacement(s[call.start..call.end]), call.end - call.start) + PreparedFrom(s, call.end, replacement))
  {
  }

  lemma DoneUpTo(s: string, i: nat, call: Range, replacement: Replacement, done: string, padded: string)
    requires i <= |s| && NextCall(s, i) == Some(call)
    requires padded == Fit(replacement(s[call.start..call.end]), call.end - call.start)
    ensures done + PreparedFrom(s, i, replacement) == (done + s[i..call.start] + padded) + PreparedFrom(s, call.end, replacement)
  {
    PreparedStep(s, i, call, replacement);
    Reassociate(done, s[i..call.start], padded + PreparedFrom(s, call.end, replacement));
    Reassociate(done + s[i..call.start], padded, PreparedFrom(s, call.end, replacement));
  }

  /** One call. */
  method ReplaceCall(result: array<char>, sql: string, i: nat, call: Range, replacement: Replacement, ghost done: string) returns (ghost done': string)
    requires i == |done| <= |sql| == result.Length && result[..] == done + sql[i..] && NextCall(sql, i) == Some(call)
    modifies result
    ensures |done'| == call.end && result[..] == done' + sql[call.end..]
    ensures done + PreparedFrom(sql, i, replacement) == done' + PreparedFrom(sql, call.end, replacement)
  {
    var padded := Fit(replacement(sql[call.start..call.end]), call.end - call.start);
    Overwritten(done, sql, call.start, call.end, padded);
    DoneUpTo(sql, i, call, replacement, done, padded);
    CopyInto(result, call.start, padded);
    done' := done + sql[i..call.start] + padded;
  }

  /** The replacement, copied over each call in place. */
  method ReplaceCalls(sql: string, replacement: Replacement) returns (r: string)
    ensures r == Prepared(sql, replacement)
  {
    var result := new char[|sql|](i requires 0 <= i < |sql| => sql[i]);
    var i := 0;
    ghost var done := "";
    ghost var goal := Prepared(sql, replacement);
    while NextCall(sql, i).Some?
      invariant i == |done| <= |sql| == result.Length
      invariant result[..] == done + sql[i..] && done + PreparedFrom(sql, i, replacement) == goal
      decreases |sql| - i
    {
      var call := NextCall(sql, i).value;
      done := ReplaceCall(result, sql, i, call, replacement, done);
      i := call.end;
    }
    r := result[..];
  }

  // ----- Nested queries -----

  /** The body of the parenthesis at `i`, if it starts a query and is closed. */
  function QueryRangeAt(sql: string, i: nat): (r: Option<Range>)
    requires i < |sql|
    ensures r.Some? ==> r.value.start == i + 1 <= r.value.end < |sql| && sql[i] == '(' && sql[r.value.end] == ')'
  {
    match QueryEnd(sql, i)
    case None => None
    case Some(close) => Some(Range(i + 1, close))
  }

  /** The outermost query bodies from `i` on: each is skipped as a whole. */
  function QueryRanges(sql: string, i: nat): seq<Range>
    requires i <= |sql|
    decreases |sql| - i
  {
    if i == |sql| then []
    else match QueryRangeAt(sql, i)
      case None => QueryRanges(sql, i + 1)
      case Some(r) => [r] + QueryRanges(sql, r.end + 1)
  }

  /** Each range is the body of a parenthesis that starts a query, up to the parenthesis that closes it. */
  lemma {:induction false} RangesAreQueries(sql: string, i: nat, r: Range)
    requires i <= |sql| && r in QueryRanges(sql, i)
    ensures 1 <= r.start <= r.end < |sql| && sql[r.start - 1] == '(' && OpensQuery(sql, r.start - 1) && MatchingParen(sql, r.start - 1) == r.end
    decreases |sql| - i
  {
    match QueryRangeAt(sql, i)
    case None => RangesAreQueries(sql, i + 1, r);
    case Some(first) =>
      if r != first {
        RangesAreQueries(sql, first.end + 1, r);
      }
  }

  ghost predicate Apart(ranges: seq<Range>, from: nat, to: nat) {
    && (forall k :: 0 <= k < |ranges| ==> from < ranges[k].start <= ranges[k].end < to)
    && (forall j, k :: 0 <= j < k < |ranges| ==> ranges[j].end < ranges[k].start)
  }

  lemma ApartStep(first: Range, later: seq<Range>, from: nat, to: nat)
    requires from < first.start <= first.end < to && Apart(later, first.end + 1, to)
    ensures Apart([first] + later, from, to)
  {
  }

  lemma ApartFrom(ranges: seq<Range>, from: nat, to: nat)
    requires Apart(ranges, from + 1, to)
    ensures Apart(ranges, from, to)
  {
  }

  /** The ranges are disjoint and in order. */
  lemma {:induction false} QueryRangesApart(sql: string, i: nat, ranges: seq<Range>)
    requires i <= |sql| && ranges == QueryRanges(sql, i)
    ensures Apart(ranges, i, |sql|)
    decreases |sql| - i
  {
    if i < |sql| {
      var found := QueryRangeAt(sql, i);
      if found.None? {
        QueryRangesApart(sql, i + 1, ranges);
        ApartFrom(ranges, i, |sql|);
      } else {
        var later := QueryRanges(sql, found.value.end + 1);
        QueryRangesApart(sql, found.value.end + 1, later);
        ApartStep(found.value, later, i, |sql|);
      }
    }
  }

  /** Every parenthesis that starts a closed query opens one of the ranges or lies inside one. */
  lemma {:induction false} EveryQueryIsCovered(sql: string, i: nat, k: nat, ranges: seq<Range>)
    requires i <= k < |sql| && QueryRangeAt(sql, k).Some? && ranges == QueryRanges(sql, i)
    ensures CoveredBy(ranges, k)
    decreases |sql| - i
  {
    var found := QueryRangeAt(sql, i);
    if found.None? {
      EveryQueryIsCovered(sql, i + 1, k, ranges);
    } else {
      var later := QueryRanges(sql, found.value.end + 1);
      if found.value.end < k {
        EveryQueryIsCovered(sql, found.value.end + 1, k, later);
      }
      CoveredByStep(found.value, later, k, ranges);
    }
  }

  ghost predicate CoveredBy(ranges: seq<Range>, k: nat) {
    exists j :: 0 <= j < |ranges| && Covers(ranges[j], k)
  }

  ghost predicate Covers(r: Range, k: nat) {
    r.start - 1 <= k < r.end
  }

  lemma CoveredByStep(r: Range, later: seq<Range>, k: nat, ranges: seq<Range>)
    requires ranges == [r] + later
    ensures Covers(r, k) || CoveredBy(later, k) ==> CoveredBy(ranges, k)
  {
    if Covers(r, k) {
      assert Covers(ranges[0], k);
    } else if CoveredBy(later, k) {
      var j :| 0 <= j < |later| && Covers(later[j], k);
      assert Covers(ranges[j + 1], k);
    }
  }

  method ExtractSubqueryRanges(sql: string) returns (ranges: seq<Range>)
    ensures ranges == QueryRanges(sql, 0)
  {
    ranges := [];
    var i := 0;
    ghost var goal := QueryRanges(sql, 0);
    while i < |sql|
      invariant i <= |sql| && ranges + QueryRanges(sql, i) == goal
      decreases |sql| - i
    {
      var found := FindQueryRange(sql, i);
      QueryRangesStep(ranges, sql, i);
      if found.Some? {
        ranges := ranges + [found.value];
        i := found.value.end;
      }
      i := i + 1;
    }
  }

  lemma QueryRangesStep(ranges: seq<Range>, sql: string, i: nat)
    requires i < |sql|
    ensures var found := QueryRangeAt(sql, i);
            ranges + QueryRanges(sql, i) ==
            if found.Some? then (ranges + [found.value]) + QueryRanges(sql, found.value.end + 1) else ranges + QueryRanges(sql, i + 1)
  {
    var found := QueryRangeAt(sql, i);
    if found.Some? {
      var later := QueryRanges(sql, found.value.end + 1);
      assert (ranges + [found.value]) + later == ranges + ([found.value] + later);
    }
  }

  method FindQueryRange(sql: string, i: nat) returns (r: Option<Range>)
    requires i < |sql|
    ensures r == QueryRangeAt(sql, i)
  {
    if sql[i] != '(' {
      return None;
    }
    var bodyStart := SkipSpace(sql, i + 1);
    if !IsQueryBodyStart(sql, bodyStart) {
      return None;
    }
    var close := FindMatchingParen(sql, i);
    if close < 0 {
      return None;
    }
    return Some(Range(i + 1, close));
  }

  predicate Blanked(sql: string, ranges: seq<Range>, k: nat) {
    k < |sql| && sql[k] != '\n' && sql[k] != '\r' && exists j :: 0 <= j < |ranges| && ranges[j].start <= k < ranges[j].end
  }

  /** The text with the bodies of nested queries blanked, line ends kept, and nothing moved. */
  function Masked(sql: string): (masked: string)
    ensures |masked| == |sql|
  {
    var ranges := QueryRanges(sql, 0);
    seq(|sql|, (k: int) requires 0 <= k < |sql| => if Blanked(sql, ranges, k) then ' ' else sql[k])
  }

  /** Exactly the bytes in one of the ranges are blanked, except for line ends. */
  lemma MaskedAt(sql: string, k: nat)
    requires k < |sql|
    ensures Masked(sql)[k] == if sql[k] != '\n' && sql[k] != '\r' && (exists r :: r in QueryRanges(sql, 0) && r.start <= k < r.end) then ' ' else sql[k]
  {
    var ranges := QueryRanges(sql, 0);
    if r :| r in ranges && r.start <= k < r.end {
      var j :| 0 <= j < |ranges| && ranges[j] == r;
    }
  }

  method MaskNestedQueries(sql: string) returns (masked: string)
    ensures masked == Masked(sql)
  {
    var result := new char[|sql|](i requires 0 <= i < |sql| => sql[i]);
    var ranges := ExtractSubqueryRanges(sql);
    QueryRangesApart(sql, 0, ranges);
    for n := 0 to |ranges|
      invariant result.Length == |sql|
      invariant forall k :: 0 <= k < |sql| ==> result[k] == if Blanked(sql, ranges[..n], k) then ' ' else sql[k]
    {
      BlankRange(sql, ranges, n, result);
    }
    assert ranges[..|ranges|] == ranges;
    masked := result[..];
  }

  lemma BlankedStep(sql: string, ranges: seq<Range>, n: nat, k: nat)
    requires n < |ranges| && k < |sql|
    ensures Blanked(sql, ranges[..n + 1], k) <==>
            Blanked(sql, ranges[..n], k) || (ranges[n].start <= k < ranges[n].end && sql[k] != '\n' && sql[k] != '\r')
  {
    var shorter, longer := ranges[..n], ranges[..n + 1];
    assert longer == shorter + [ranges[n]];
    if Blanked(sql, shorter, k) {
      var j :| 0 <= j < n && shorter[j].start <= k < shorter[j].end;
      assert longer[j] == shorter[j];
    }
    if ranges[n].start <= k < ranges[n].end {
      assert longer[n] == ranges[n];
    }
  }

  method BlankRange(sql: string, ranges: seq<Range>, n: nat, result: array<char>)
    requires n < |ranges| && Apart(ranges, 0, |sql|) && result.Length == |sql|
    requires forall k :: 0 <= k < |sql| ==> result[k] == if Blanked(sql, ranges[..n], k) then ' ' else sql[k]
    modifies result
    ensures forall k :: 0 <= k < |sql| ==> result[k] == if Blanked(sql, ranges[..n + 1], k) then ' ' else sql[k]
  {
    var r := ranges[n];
    forall k | 0 <= k < |sql|
      ensures Blanked(sql, ranges[..n + 1], k) <==> Blanked(sql, ranges[..n], k) || (r.start <= k < r.end && sql[k] != '\n' && sql[k] != '\r')
    {
      BlankedStep(sql, ranges, n, k);
    }
    forall k | r.start <= k < r.end
      ensures !Blanked(sql, ranges[..n], k)
    {
      NotEarlier(sql, ranges, n, k);
    }
    for i := r.start to r.end
      invariant forall k :: 0 <= k < |sql| && !(r.start <= k < i) ==> result[k] == old(result[k])
      invariant forall k :: r.start <= k < i ==> result[k] == if sql[k] != '\n' && sql[k] != '\r' then ' ' else sql[k]
    {
      if result[i] != '\n' && result[i] != '\r' {
        result[i] := ' ';
      }
    }
  }

  lemma NotEarlier(sql: string, ranges: seq<Range>, n: nat, k: nat)
    requires n < |ranges| && Apart(ranges, 0, |sql|) && ranges[n].start <= k
    ensures !Blanked(sql, ranges[..n], k)
  {
    forall j | 0 <= j < n
      ensures !(ranges[..n][j].start <= k < ranges[..n][j].end)
    {
      assert ranges[j].end < ranges[n].start;
    }
  }
}
