/** Splitting a script at its top-level semicolons with three counters, and moving DECLARE statements
    to the front. */
module DeclareHoister {
  import opened Wrappers

  /** What the scan distinguishes in a token; only a semicolon's position is used. */
  datatype Token = OpenParen | CloseParen | CaseWord | BeginWord | EndWord | TransactionWord | Semicolon(start: nat) | Comment | Other

  // ----- The counters -----

  datatype Counters = Counters(parens: nat, begins: nat, cases: nat)

  /** The first token that is not a comment is the word TRANSACTION. */
  predicate TransactionFollows(tokens: seq<Token>) {
    if tokens == [] then false
    else if tokens[0].Comment? then TransactionFollows(tokens[1..])
    else tokens[0].TransactionWord?
  }

  /** What a token followed by `rest` does to the counters. */
  function Count(m: Counters, token: Token, rest: seq<Token>): Counters {
    match token
    case OpenParen => m.(parens := m.parens + 1)
    case CloseParen => if m.parens > 0 then m.(parens := m.parens - 1) else m
    case CaseWord => m.(cases := m.cases + 1)
    case BeginWord => if TransactionFollows(rest) then m else m.(begins := m.begins + 1)
    case EndWord =>
      if m.cases > 0 then m.(cases := m.cases - 1)
      else if m.begins > 0 then m.(begins := m.begins - 1)
      else m
    case _ => m
  }

  function ReportOf(m: Counters, token: Token): seq<nat> {
    if token.Semicolon? && m.parens == 0 && m.begins == 0 then [token.start] else []
  }

  /** The semicolons the scan reports from here on. */
  function Reported(m: Counters, tokens: seq<Token>): seq<nat>
    decreases |tokens|
  {
    if tokens == [] then []
    else ReportOf(m, tokens[0]) + Reported(Count(m, tokens[0], tokens[1..]), tokens[1..])
  }

  method NextSignificantIsTransaction(tokens: seq<Token>, start: nat) returns (yes: bool)
    requires start <= |tokens|
    ensures yes == TransactionFollows(tokens[start..])
  {
    for index := start to |tokens|
      invariant TransactionFollows(tokens[start..]) == TransactionFollows(tokens[index..])
    {
      assert tokens[index..][0] == tokens[index] && tokens[index..][1..] == tokens[index + 1..];
      if tokens[index].Comment? {
        continue;
      }
      return tokens[index].TransactionWord?;
    }
    return false;
  }

  /** One token of the scan. */
  method CountToken(m: Counters, tokens: seq<Token>, index: nat) returns (m': Counters)
    requires index < |tokens|
    ensures m' == Count(m, tokens[index], tokens[index + 1..])
  {
    m' := m;
    match tokens[index] {
      case OpenParen => m' := m.(parens := m.parens + 1);
      case CloseParen => if m.parens > 0 { m' := m.(parens := m.parens - 1); }
      case CaseWord => m' := m.(cases := m.cases + 1);
      case BeginWord =>
        var nextIsTransaction := NextSignificantIsTransaction(tokens, index + 1);
        if !nextIsTransaction {
          m' := m.(begins := m.begins + 1);
        }
      case EndWord =>
        if m.cases > 0 {
          m' := m.(cases := m.cases - 1);
        } else if m.begins > 0 {
          m' := m.(begins := m.begins - 1);
        }
      case _ =>
    }
  }

  method TopLevelSemicolons(tokens: seq<Token>) returns (positions: seq<nat>)
    ensures positions == Reported(Counters(0, 0, 0), tokens)
  {
    var m := Counters(0, 0, 0);
    positions := [];
    for index := 0 to |tokens|
      invariant Reported(Counters(0, 0, 0), tokens) == positions + Reported(m, tokens[index..])
    {
      ghost var here := tokens[index..];
      assert here[0] == tokens[index] && here[1..] == tokens[index + 1..];
      if tokens[index].Semicolon? && m.parens == 0 && m.begins == 0 {
        positions := positions + [tokens[index].start];
      }
      m := CountToken(m, tokens, index);
    }
    assert tokens[|tokens|..] == [];
  }

  // ----- Scripts by their nesting -----

  /** A script as the grammar nests it: `rest` continues at the same level, `body` is one level down. */
  datatype Script =
    | Empty
    | Plain(rest: Script)
    | Remark(rest: Script)
    | Transaction(rest: Script)
    | BeginTransaction(remarks: nat, rest: Script)
    | Semi(start: nat, rest: Script)
    | Parens(body: Script, rest: Script)
    | Block(body: Script, rest: Script)
    | Cases(body: Script, rest: Script)

  function Comments(n: nat): seq<Token> {
    if n == 0 then [] else [Comment] + Comments(n - 1)
  }

  function Yield(s: Script): seq<Token> {
    match s
    case Empty => []
    case Plain(rest) => [Other] + Yield(rest)
    case Remark(rest) => [Comment] + Yield(rest)
    case Transaction(rest) => [TransactionWord] + Yield(rest)
    case BeginTransaction(remarks, rest) => [BeginWord] + (Comments(remarks) + ([TransactionWord] + Yield(rest)))
    case Semi(start, rest) => [Semicolon(start)] + Yield(rest)
    case Parens(body, rest) => [OpenParen] + (Yield(body) + ([CloseParen] + Yield(rest)))
    case Block(body, rest) => [BeginWord] + (Yield(body) + ([EndWord] + Yield(rest)))
    case Cases(body, rest) => [CaseWord] + (Yield(body) + ([EndWord] + Yield(rest)))
  }

  /** No block starts with the word TRANSACTION. */
  ghost predicate WellFormed(s: Script) {
    match s
    case Empty => true
    case Plain(rest) => WellFormed(rest)
    case Remark(rest) => WellFormed(rest)
    case Transaction(rest) => WellFormed(rest)
    case BeginTransaction(_, rest) => WellFormed(rest)
    case Semi(_, rest) => WellFormed(rest)
    case Parens(body, rest) => WellFormed(body) && WellFormed(rest)
    case Block(body, rest) => WellFormed(body) && WellFormed(rest) && !TransactionFollows(Yield(body))
    case Cases(body, rest) => WellFormed(body) && WellFormed(rest)
  }

  /** The semicolons at empty nesting. */
  ghost function TopLevel(s: Script): seq<nat> {
    match s
    case Empty => []
    case Plain(rest) => TopLevel(rest)
    case Remark(rest) => TopLevel(rest)
    case Transaction(rest) => TopLevel(rest)
    case BeginTransaction(_, rest) => TopLevel(rest)
    case Semi(start, rest) => [start] + TopLevel(rest)
    case Parens(_, rest) => TopLevel(rest)
    case Block(_, rest) => TopLevel(rest)
    case Cases(_, rest) => TopLevel(rest)
  }

  /** Some block begins in the script, at any depth. */
  ghost predicate HasBlock(s: Script) {
    match s
    case Empty => false
    case Plain(rest) => HasBlock(rest)
    case Remark(rest) => HasBlock(rest)
    case Transaction(rest) => HasBlock(rest)
    case BeginTransaction(_, rest) => HasBlock(rest)
    case Semi(_, rest) => HasBlock(rest)
    case Parens(body, rest) => HasBlock(body) || HasBlock(rest)
    case Block(_, _) => true
    case Cases(body, rest) => HasBlock(body) || HasBlock(rest)
  }

  /** Where a part of a script stands: open parentheses, open blocks and CASEs, and whether a block
      has begun since the outermost of those was opened. */
  datatype Place = Place(parens: nat, open: nat, begun: bool) {
    ghost function After(s: Script): Place {
      Place(parens, open, open > 0 && (begun || HasBlock(s)))
    }

    ghost function InParens(): Place {
      Place(parens + 1, open, begun)
    }

    ghost function InBlock(): Place {
      Place(parens, open + 1, true)
    }

    ghost function InCase(): Place {
      Place(parens, open + 1, begun)
    }

    predicate Nested() {
      parens > 0 || open > 0
    }

    /** Under CASEs only, outside parentheses, before any block of the outermost CASE. */
    predicate Exposes() {
      parens == 0 && open > 0 && !begun
    }
  }

  const TOP := Place(0, 0, false)

  /** The semicolons below the top level that nothing hides. */
  ghost function Exposed(s: Script, p: Place): nat {
    match s
    case Empty => 0
    case Plain(rest) => Exposed(rest, p)
    case Remark(rest) => Exposed(rest, p)
    case Transaction(rest) => Exposed(rest, p)
    case BeginTransaction(_, rest) => Exposed(rest, p)
    case Semi(_, rest) => (if p.Exposes() then 1 else 0) + Exposed(rest, p)
    case Parens(body, rest) => Exposed(body, p.InParens()) + Exposed(rest, p.After(body))
    case Block(body, rest) => Exposed(body, p.InBlock()) + Exposed(rest, p.After(s))
    case Cases(body, rest) => Exposed(body, p.InCase()) + Exposed(rest, p.After(body))
  }

  /** What the scan reports, by nesting. */
  ghost function Marks(s: Script, p: Place): seq<nat> {
    match s
    case Empty => []
    case Plain(rest) => Marks(rest, p)
    case Remark(rest) => Marks(rest, p)
    case Transaction(rest) => Marks(rest, p)
    case BeginTransaction(_, rest) => Marks(rest, p)
    case Semi(start, rest) => (if !p.Nested() || p.Exposes() then [start] else []) + Marks(rest, p)
    case Parens(body, rest) => Marks(body, p.InParens()) + Marks(rest, p.After(body))
    case Block(body, rest) => Marks(body, p.InBlock()) + Marks(rest, p.After(s))
    case Cases(body, rest) => Marks(body, p.InCase()) + Marks(rest, p.After(body))
  }

  // ----- The scan follows the nesting -----

  /** The counters of a place: two counters share the open blocks and CASEs between them, because END
      closes a CASE first, and the one for blocks is zero exactly while no block has begun. */
  ghost predicate Agrees(m: Counters, p: Place) {
    && m.parens == p.parens
    && m.begins + m.cases == p.open
    && (p.begun ==> p.open > 0)
    && (m.begins == 0 <==> !p.begun)
  }

  lemma {:induction false} RemarksAreSkipped(n: nat, tail: seq<Token>, m: Counters)
    ensures TransactionFollows(Comments(n) + tail) == TransactionFollows(tail)
    ensures Reported(m, Comments(n) + tail) == Reported(m, tail)
  {
    if n == 0 {
      assert Comments(n) + tail == tail;
    } else {
      RemarksAreSkipped(n - 1, tail, m);
      Lead(Comment, Comments(n - 1), tail);
      OneToken(m, Comment, Comments(n - 1) + tail);
    }
  }

  /** A block's END is a significant token, so what follows the block is not looked at. */
  lemma {:induction false} LookaheadStopsAtEnd(body: seq<Token>, tail: seq<Token>)
    ensures TransactionFollows(body + ([EndWord] + tail)) == TransactionFollows(body)
  {
    if body == [] {
      assert body + ([EndWord] + tail) == [EndWord] + tail;
    } else {
      LookaheadStopsAtEnd(body[1..], tail);
      assert (body + ([EndWord] + tail))[1..] == body[1..] + ([EndWord] + tail);
    }
  }

  lemma OneToken(m: Counters, token: Token, tail: seq<Token>)
    ensures Reported(m, [token] + tail) == ReportOf(m, token) + Reported(Count(m, token, tail), tail)
  {
    assert ([token] + tail)[1..] == tail;
  }

  lemma ThenTail(open: Token, body: seq<Token>, close: Token, rest: seq<Token>, tail: seq<Token>)
    ensures ([open] + (body + ([close] + rest))) + tail == [open] + (body + ([close] + (rest + tail)))
  {
  }

  /** Scanning the yield of a script reports its marks and leaves counters that agree with the place
      after it. */
  lemma {:induction false} ScanFollowsNesting(s: Script, p: Place, m: Counters, tail: seq<Token>) returns (m': Counters)
    requires WellFormed(s) && Agrees(m, p)
    ensures Agrees(m', p.After(s))
    ensures Reported(m, Yield(s) + tail) == Marks(s, p) + Reported(m', tail)
    decreases s, 1
  {
    match s
    case Empty =>
      m' := m;
      assert Yield(s) + tail == tail;
    case Plain(rest) => m' := ScanToken(s, Other, rest, p, m, tail);
    case Remark(rest) => m' := ScanToken(s, Comment, rest, p, m, tail);
    case Transaction(rest) => m' := ScanToken(s, TransactionWord, rest, p, m, tail);
    case Semi(start, rest) => m' := ScanToken(s, Semicolon(start), rest, p, m, tail);
    case BeginTransaction(remarks, rest) =>
      m' := ScanFollowsNesting(rest, p, m, tail);
      ScanBeginTransaction(remarks, Yield(rest), m, tail);
    case Parens(_, _) => m' := ScanParens(s, p, m, tail);
    case Block(_, _) => m' := ScanBlock(s, p, m, tail);
    case Cases(_, _) => m' := ScanCases(s, p, m, tail);
  }

  lemma {:induction false} ScanToken(s: Script, token: Token, rest: Script, p: Place, m: Counters, tail: seq<Token>) returns (m': Counters)
    requires rest < s && WellFormed(rest) && Agrees(m, p) && Count(m, token, Yield(rest) + tail) == m
    requires Yield(s) == [token] + Yield(rest) && HasBlock(s) == HasBlock(rest)
    requires Marks(s, p) == (if token.Semicolon? && (!p.Nested() || p.Exposes()) then [token.start] else []) + Marks(rest, p)
    ensures Agrees(m', p.After(s))
    ensures Reported(m, Yield(s) + tail) == Marks(s, p) + Reported(m', tail)
    decreases s, 0
  {
    m' := ScanFollowsNesting(rest, p, m, tail);
    PrependToken(m, token, Yield(rest), tail, Marks(rest, p), Reported(m', tail));
  }

  /** One token in front of a part that has been scanned. */
  lemma PrependToken(m: Counters, token: Token, part: seq<Token>, tail: seq<Token>, marks: seq<nat>, after: seq<nat>)
    requires Count(m, token, part + tail) == m && Reported(m, part + tail) == marks + after
    ensures Reported(m, ([token] + part) + tail) == (ReportOf(m, token) + marks) + after
  {
    OneToken(m, token, part + tail);
    Reassociate(ReportOf(m, token), marks, after);
    Lead(token, part, tail);
  }

  lemma Lead(token: Token, part: seq<Token>, tail: seq<Token>)
    ensures ([token] + part) + tail == [token] + (part + tail)
  {
  }

  /** An opening token and a closing one round a part that has been scanned. */
  lemma Enclose(m: Counters, open: Token, part: seq<Token>, close: Token, tail: seq<Token>, marks: seq<nat>, k: Counters)
    requires !open.Semicolon? && !close.Semicolon?
    requires var inside := part + ([close] + tail); Reported(Count(m, open, inside), inside) == marks + Reported(k, [close] + tail)
    ensures Reported(m, [open] + (part + ([close] + tail))) == marks + Reported(Count(k, close, tail), tail)
  {
    OneToken(m, open, part + ([close] + tail));
    OneToken(k, close, tail);
  }

  lemma ScanBeginTransaction(remarks: nat, rest: seq<Token>, m: Counters, tail: seq<Token>)
    ensures Reported(m, ([BeginWord] + (Comments(remarks) + ([TransactionWord] + rest))) + tail) == Reported(m, rest + tail)
  {
    var more := [TransactionWord] + (rest + tail);
    assert ([BeginWord] + (Comments(remarks) + ([TransactionWord] + rest))) + tail == [BeginWord] + (Comments(remarks) + more);
    OneToken(m, BeginWord, Comments(remarks) + more);
    RemarksAreSkipped(remarks, more, m);
    OneToken(m, TransactionWord, rest + tail);
  }

  lemma {:induction false} ScanParens(s: Script, p: Place, m: Counters, tail: seq<Token>) returns (m': Counters)
    requires s.Parens? && WellFormed(s) && Agrees(m, p)
    ensures Agrees(m', p.After(s))
    ensures Reported(m, Yield(s) + tail) == Marks(s, p) + Reported(m', tail)
    decreases s, 0
  {
    var third := Yield(s.rest) + tail;
    var second := Yield(s.body) + ([CloseParen] + third);
    ThenTail(OpenParen, Yield(s.body), CloseParen, Yield(s.rest), tail);
    var k := ScanFollowsNesting(s.body, p.InParens(), Count(m, OpenParen, second), [CloseParen] + third);
    Enclose(m, OpenParen, Yield(s.body), CloseParen, third, Marks(s.body, p.InParens()), k);
    m' := ScanFollowsNesting(s.rest, p.After(s.body), Count(k, CloseParen, third), tail);
    Reassociate(Marks(s.body, p.InParens()), Marks(s.rest, p.After(s.body)), Reported(m', tail));
  }

  lemma {:induction false} ScanBlock(s: Script, p: Place, m: Counters, tail: seq<Token>) returns (m': Counters)
    requires s.Block? && WellFormed(s) && Agrees(m, p)
    ensures Agrees(m', p.After(s))
    ensures Reported(m, Yield(s) + tail) == Marks(s, p) + Reported(m', tail)
    decreases s, 0
  {
    var third := Yield(s.rest) + tail;
    var second := Yield(s.body) + ([EndWord] + third);
    ThenTail(BeginWord, Yield(s.body), EndWord, Yield(s.rest), tail);
    LookaheadStopsAtEnd(Yield(s.body), third);
    var k := ScanFollowsNesting(s.body, p.InBlock(), Count(m, BeginWord, second), [EndWord] + third);
    Enclose(m, BeginWord, Yield(s.body), EndWord, third, Marks(s.body, p.InBlock()), k);
    m' := ScanFollowsNesting(s.rest, p.After(s), Count(k, EndWord, third), tail);
    Reassociate(Marks(s.body, p.InBlock()), Marks(s.rest, p.After(s)), Reported(m', tail));
  }

  lemma {:induction false} ScanCases(s: Script, p: Place, m: Counters, tail: seq<Token>) returns (m': Counters)
    requires s.Cases? && WellFormed(s) && Agrees(m, p)
    ensures Agrees(m', p.After(s))
    ensures Reported(m, Yield(s) + tail) == Marks(s, p) + Reported(m', tail)
    decreases s, 0
  {
    var third := Yield(s.rest) + tail;
    var second := Yield(s.body) + ([EndWord] + third);
    ThenTail(CaseWord, Yield(s.body), EndWord, Yield(s.rest), tail);
    var k := ScanFollowsNesting(s.body, p.InCase(), Count(m, CaseWord, second), [EndWord] + third);
    Enclose(m, CaseWord, Yield(s.body), EndWord, third, Marks(s.body, p.InCase()), k);
    m' := ScanFollowsNesting(s.rest, p.After(s.body), Count(k, EndWord, third), tail);
    Reassociate(Marks(s.body, p.InCase()), Marks(s.rest, p.After(s.body)), Reported(m', tail));
  }

  // ----- What is reported -----

  /** The marks are the top-level semicolons and the exposed ones, in order. */
  lemma {:induction false} MarksCount(s: Script, p: Place)
    requires p.begun ==> p.open > 0
    ensures |Marks(s, p)| == Exposed(s, p) + if p.Nested() then 0 else |TopLevel(s)|
    ensures !p.Nested() && Exposed(s, p) == 0 ==> Marks(s, p) == TopLevel(s)
    decreases s
  {
    match s
    case Empty =>
    case Plain(rest) => MarksCount(rest, p);
    case Remark(rest) => MarksCount(rest, p);
    case Transaction(rest) => MarksCount(rest, p);
    case BeginTransaction(_, rest) => MarksCount(rest, p);
    case Semi(_, rest) => MarksCount(rest, p);
    case Parens(body, rest) =>
      MarksCount(body, p.InParens());
      MarksCount(rest, p.After(body));
      Front(Marks(body, p.InParens()), Marks(rest, p.After(body)));
    case Block(body, rest) =>
      MarksCount(body, p.InBlock());
      MarksCount(rest, p.After(s));
      Front(Marks(body, p.InBlock()), Marks(rest, p.After(s)));
    case Cases(body, rest) =>
      MarksCount(body, p.InCase());
      MarksCount(rest, p.After(body));
      Front(Marks(body, p.InCase()), Marks(rest, p.After(body)));
  }

  lemma Front(a: seq<nat>, b: seq<nat>)
    ensures |a| == 0 ==> a + b == b
  {
  }

  /** On every well-formed script the three counters report exactly the semicolons at empty nesting if
      and only if no semicolon is exposed, and otherwise that many more. */
  lemma ReportedIsTopLevel(s: Script)
    requires WellFormed(s)
    ensures Reported(Counters(0, 0, 0), Yield(s)) == TopLevel(s) <==> Exposed(s, TOP) == 0
    ensures |Reported(Counters(0, 0, 0), Yield(s))| == |TopLevel(s)| + Exposed(s, TOP)
  {
    var m := ScanFollowsNesting(s, TOP, Counters(0, 0, 0), []);
    assert Yield(s) + [] == Yield(s);
    MarksCount(s, TOP);
  }

  /** No CASE has a semicolon in it, except inside parentheses or blocks. */
  ghost predicate CasesAreClean(s: Script, underCase: bool) {
    match s
    case Empty => true
    case Plain(rest) => CasesAreClean(rest, underCase)
    case Remark(rest) => CasesAreClean(rest, underCase)
    case Transaction(rest) => CasesAreClean(rest, underCase)
    case BeginTransaction(_, rest) => CasesAreClean(rest, underCase)
    case Semi(_, rest) => !underCase && CasesAreClean(rest, underCase)
    case Parens(body, rest) => CasesAreClean(body, false) && CasesAreClean(rest, underCase)
    case Block(body, rest) => CasesAreClean(body, false) && CasesAreClean(rest, underCase)
    case Cases(body, rest) => CasesAreClean(body, true) && CasesAreClean(rest, underCase)
  }

  /** In particular the report is right for every script without a semicolon directly under CASE. */
  lemma {:induction false} CleanExposesNothing(s: Script, p: Place, underCase: bool)
    requires CasesAreClean(s, underCase) && (p.Exposes() ==> underCase)
    ensures Exposed(s, p) == 0
    decreases s
  {
    match s
    case Empty =>
    case Plain(rest) => CleanExposesNothing(rest, p, underCase);
    case Remark(rest) => CleanExposesNothing(rest, p, underCase);
    case Transaction(rest) => CleanExposesNothing(rest, p, underCase);
    case BeginTransaction(_, rest) => CleanExposesNothing(rest, p, underCase);
    case Semi(_, rest) => CleanExposesNothing(rest, p, underCase);
    case Parens(body, rest) =>
      CleanExposesNothing(body, p.InParens(), false);
      CleanExposesNothing(rest, p.After(body), underCase);
    case Block(body, rest) =>
      CleanExposesNothing(body, p.InBlock(), false);
      CleanExposesNothing(rest, p.After(s), underCase);
    case Cases(body, rest) =>
      CleanExposesNothing(body, p.InCase(), true);
      CleanExposesNothing(rest, p.After(body), underCase);
  }

  /** The condition can fail: in `CASE ; END ;` the first semicolon is reported although it is nested. */
  lemma NestedSemicolonReported()
    ensures Reported(Counters(0, 0, 0), [CaseWord, Semicolon(5), EndWord, Semicolon(11)]) == [5, 11]
    ensures Yield(Cases(Semi(5, Empty), Semi(11, Empty))) == [CaseWord, Semicolon(5), EndWord, Semicolon(11)]
    ensures TopLevel(Cases(Semi(5, Empty), Semi(11, Empty))) == [11]
  {
    var last := [Semicolon(11)];
    OneToken(Counters(0, 0, 0), Semicolon(11), []);
    assert last == [Semicolon(11)] + [];
    OneToken(Counters(0, 0, 1), EndWord, last);
    OneToken(Counters(0, 0, 1), Semicolon(5), [EndWord] + last);
    OneToken(Counters(0, 0, 0), CaseWord, [Semicolon(5)] + ([EndWord] + last));
    assert [CaseWord] + ([Semicolon(5)] + ([EndWord] + last)) == [CaseWord, Semicolon(5), EndWord, Semicolon(11)];
    assert Yield(Semi(5, Empty)) == [Semicolon(5)] && Yield(Semi(11, Empty)) == last;
  }

  // ----- Moving the declarations to the front -----

  /** The classifier of statements, which may fail. */
  type Classifier = string -> Result<bool, string>

  function Keep(list: seq<string>, d: string -> bool, wanted: bool): seq<string> {
    if list == [] then []
    else Keep(list[..|list| - 1], d, wanted) + if d(list[|list| - 1]) == wanted then [list[|list| - 1]] else []
  }

  /** The declarations in their order, then the other statements in theirs. */
  function Hoisted(list: seq<string>, d: string -> bool): seq<string> {
    Keep(list, d, true) + Keep(list, d, false)
  }

  /** Some statement that is not a declaration stands before one that is. */
  ghost predicate OutOfOrder(list: seq<string>, d: string -> bool) {
    exists i, j :: 0 <= i < j < |list| && !d(list[i]) && d(list[j])
  }

  lemma {:induction false} KeepAll(list: seq<string>, d: string -> bool, wanted: bool)
    ensures (forall x :: x in list ==> d(x) == wanted) ==> Keep(list, d, wanted) == list && Keep(list, d, !wanted) == []
  {
    if list != [] {
      KeepAll(list[..|list| - 1], d, wanted);
      assert list == list[..|list| - 1] + [list[|list| - 1]];
    }
  }

  lemma {:induction false} KeepConcat(a: seq<string>, b: seq<string>, d: string -> bool, wanted: bool)
    ensures Keep(a + b, d, wanted) == Keep(a, d, wanted) + Keep(b, d, wanted)
  {
    if b == [] {
      assert a + b == a;
    } else {
      var shorter, last := b[..|b| - 1], b[|b| - 1];
      KeepConcat(a, shorter, d, wanted);
      assert a + b == (a + shorter) + [last] && b == shorter + [last];
      KeepSnoc(a + shorter, last, d, wanted);
      KeepSnoc(shorter, last, d, wanted);
      Reassociate(Keep(a, d, wanted), Keep(shorter, d, wanted), Keep([last], d, wanted));
    }
  }

  lemma KeepSnoc(a: seq<string>, last: string, d: string -> bool, wanted: bool)
    ensures Keep(a + [last], d, wanted) == Keep(a, d, wanted) + Keep([last], d, wanted)
  {
    assert (a + [last])[..|a|] == a && [last][..0] == [];
  }

  lemma {:induction false} KeepMembers(list: seq<string>, d: string -> bool, wanted: bool)
    ensures forall x :: x in Keep(list, d, wanted) ==> x in list && d(x) == wanted
  {
    if list != [] {
      KeepMembers(list[..|list| - 1], d, wanted);
      assert list == list[..|list| - 1] + [list[|list| - 1]];
    }
  }

  /** Nothing is lost or added. */
  lemma {:induction false} HoistingPermutes(list: seq<string>, d: string -> bool)
    ensures multiset(Hoisted(list, d)) == multiset(list)
  {
    if list != [] {
      var shorter := list[..|list| - 1];
      HoistingPermutes(shorter, d);
      assert list == shorter + [list[|list| - 1]];
    }
  }

  /** The declarations come first, and both groups keep their order. */
  lemma HoistingIsStable(list: seq<string>, d: string -> bool)
    ensures !OutOfOrder(Hoisted(list, d), d)
    ensures Keep(Hoisted(list, d), d, true) == Keep(list, d, true)
    ensures Keep(Hoisted(list, d), d, false) == Keep(list, d, false)
  {
    var yes, no := Keep(list, d, true), Keep(list, d, false);
    KeepMembers(list, d, true);
    KeepMembers(list, d, false);
    KeepConcat(yes, no, d, true);
    KeepConcat(yes, no, d, false);
    KeepAll(yes, d, true);
    KeepAll(no, d, false);
    forall k | 0 <= k < |yes|
      ensures d(yes[k])
    {
      assert yes[k] in yes;
    }
    forall k | 0 <= k < |no|
      ensures !d(no[k])
    {
      assert no[k] in no;
    }
  }

  /** A list that is in order is left as it is. */
  lemma {:induction false} InOrderIsKept(list: seq<string>, d: string -> bool)
    requires !OutOfOrder(list, d)
    ensures Hoisted(list, d) == list
  {
    if list != [] {
      var n := |list| - 1;
      var shorter := list[..n];
      assert list == shorter + [list[n]];
      OutOfOrderStep(shorter, list[n], d);
      InOrderIsKept(shorter, d);
      if d(list[n]) {
        KeepAll(shorter, d, true);
      }
    }
  }

  lemma OutOfOrderStep(list: seq<string>, x: string, d: string -> bool)
    ensures OutOfOrder(list + [x], d) <==> OutOfOrder(list, d) || (d(x) && exists y :: y in list && !d(y))
  {
    var longer, n := list + [x], |list|;
    if OutOfOrder(list, d) {
      var i, j :| 0 <= i < j < n && !d(list[i]) && d(list[j]);
      assert !d(longer[i]) && d(longer[j]);
    }
    if d(x) && exists y :: y in list && !d(y) {
      var y :| y in list && !d(y);
      var i :| 0 <= i < n && list[i] == y;
      assert !d(longer[i]) && d(longer[n]);
    }
    if OutOfOrder(longer, d) {
      var i, j :| 0 <= i < j < |longer| && !d(longer[i]) && d(longer[j]);
      assert longer[i] == list[i] && list[i] in list;
    }
  }

  /** Hoisting twice is hoisting once. */
  lemma HoistingTwice(list: seq<string>, d: string -> bool)
    ensures Hoisted(Hoisted(list, d), d) == Hoisted(list, d)
  {
    HoistingIsStable(list, d);
    InOrderIsKept(Hoisted(list, d), d);
  }

  /** Any list with the declarations first that keeps both groups in order is the hoisted one. */
  lemma HoistingIsUnique(list: seq<string>, other: seq<string>, d: string -> bool)
    requires !OutOfOrder(other, d)
    requires Keep(other, d, true) == Keep(list, d, true) && Keep(other, d, false) == Keep(list, d, false)
    ensures other == Hoisted(list, d)
  {
    InOrderIsKept(other, d);
  }

  /** What the two loops know after some statements. */
  datatype Groups = Groups(declares: seq<string>, rest: seq<string>, sawNonDeclare: bool, needsReorder: bool)

  function Add(g: Groups, statement: string, isDeclare: bool): Groups {
    if isDeclare then g.(declares := g.declares + [statement], needsReorder := g.needsReorder || g.sawNonDeclare)
    else g.(rest := g.rest + [statement], sawNonDeclare := true)
  }

  function GroupsOf(list: seq<string>, d: string -> bool): Groups {
    if list == [] then Groups([], [], false, false)
    else Add(GroupsOf(list[..|list| - 1], d), list[|list| - 1], d(list[|list| - 1]))
  }

  lemma GroupsStep(list: seq<string>, x: string, isDeclare: bool, d: string -> bool)
    requires isDeclare == d(x)
    ensures GroupsOf(list + [x], d) == Add(GroupsOf(list, d), x, isDeclare)
  {
    assert (list + [x])[..|list|] == list;
  }

  lemma {:induction false} GroupsMeaning(list: seq<string>, d: string -> bool)
    ensures GroupsOf(list, d).declares == Keep(list, d, true) && GroupsOf(list, d).rest == Keep(list, d, false)
    ensures GroupsOf(list, d).sawNonDeclare <==> exists x :: x in list && !d(x)
    ensures GroupsOf(list, d).needsReorder <==> OutOfOrder(list, d)
  {
    if list != [] {
      var shorter, last := list[..|list| - 1], list[|list| - 1];
      GroupsMeaning(shorter, d);
      OutOfOrderStep(shorter, last, d);
      assert list == shorter + [last];
    }
  }

  /** Nothing to move: the hoisted list is the list itself. */
  lemma NothingToMove(list: seq<string>, d: string -> bool)
    requires GroupsOf(list, d).declares == [] || !GroupsOf(list, d).needsReorder
    ensures Hoisted(list, d) == list && !OutOfOrder(list, d)
  {
    GroupsMeaning(list, d);
    if GroupsOf(list, d).declares == [] {
      NoDeclaresInOrder(list, d);
    }
    InOrderIsKept(list, d);
  }

  function Declares(classify: Classifier): string -> bool {
    statement => classify(statement) == Ok(true)
  }

  /** The classifier, asked about the trimmed statement. */
  function Trimmed(trim: string -> string, classify: Classifier): Classifier {
    query => classify(trim(query))
  }

  method HoistDeclaresList(queries: seq<string>, knownType: bool, trim: string -> string, classify: Classifier) returns (list: seq<string>, failed: bool)
    ensures failed <==> !knownType || exists q :: q in queries && classify(trim(q)).Err?
    ensures list == if failed then queries else Hoisted(queries, Declares(Trimmed(trim, classify)))
  {
    if !knownType {
      return queries, true;
    }
    if queries == [] {
      return queries, false;
    }
    ghost var d := Declares(Trimmed(trim, classify));
    var g, bad := GroupQueries(queries, Trimmed(trim, classify));
    if bad {
      return queries, true;
    }
    if g.declares == [] || !g.needsReorder {
      NothingToMove(queries, d);
      return queries, false;
    }
    GroupsMeaning(queries, d);
    return g.declares + g.rest, false;
  }

  /** The first `i` statements leave the loop with `g`, and none of them failed. */
  ghost predicate Grouped(g: Groups, queries: seq<string>, i: nat, classify: Classifier)
    requires i <= |queries|
  {
    g == GroupsOf(queries[..i], Declares(classify)) && forall k :: 0 <= k < i ==> classify(queries[k]).Ok?
  }

  lemma GroupedStep(g: Groups, queries: seq<string>, i: nat, classify: Classifier)
    requires i < |queries| && Grouped(g, queries, i, classify) && classify(queries[i]).Ok?
    ensures Grouped(Add(g, queries[i], classify(queries[i]).value), queries, i + 1, classify)
  {
    GroupsStep(queries[..i], queries[i], classify(queries[i]).value, Declares(classify));
    assert queries[..i] + [queries[i]] == queries[..i + 1];
  }

  method GroupQueries(queries: seq<string>, classify: Classifier) returns (g: Groups, failed: bool)
    ensures failed <==> exists q :: q in queries && classify(q).Err?
    ensures !failed ==> g == GroupsOf(queries, Declares(classify))
  {
    g := Groups([], [], false, false);
    for i := 0 to |queries|
      invariant Grouped(g, queries, i, classify)
    {
      var isDeclare := classify(queries[i]);
      if isDeclare.Err? {
        return g, true;
      }
      GroupedStep(g, queries, i, classify);
      g := Add(g, queries[i], isDeclare.value);
    }
    assert queries[..|queries|] == queries;
    failed := false;
  }

  lemma {:induction false} NoDeclaresInOrder(list: seq<string>, d: string -> bool)
    requires Keep(list, d, true) == []
    ensures !OutOfOrder(list, d)
  {
    if list != [] {
      var shorter, last := list[..|list| - 1], list[|list| - 1];
      NoDeclaresInOrder(shorter, d);
      OutOfOrderStep(shorter, last, d);
      assert list == shorter + [last];
    }
  }

  // ----- The whole text -----

  /** Positions of semicolons in the text, in order. */
  ghost predicate Cuts(query: string, positions: seq<nat>) {
    && (forall i :: 0 <= i < |positions| ==> positions[i] < |query| && query[positions[i]] == ';')
    && (forall i, j :: 0 <= i < j < |positions| ==> positions[i] < positions[j])
  }

  /** The semicolon tokens lie in the text, in order. */
  ghost predicate SpansFit(tokens: seq<Token>, query: string) {
    && (forall i :: 0 <= i < |tokens| && tokens[i].Semicolon? ==> tokens[i].start < |query| && query[tokens[i].start] == ';')
    && (forall i, j :: 0 <= i < j < |tokens| && tokens[i].Semicolon? && tokens[j].Semicolon? ==> tokens[i].start < tokens[j].start)
  }

  lemma {:induction false} ReportedCuts(m: Counters, tokens: seq<Token>, query: string)
    requires SpansFit(tokens, query)
    ensures Cuts(query, Reported(m, tokens))
    ensures forall p :: p in Reported(m, tokens) ==> exists i :: 0 <= i < |tokens| && tokens[i] == Semicolon(p)
    decreases |tokens|
  {
    if tokens != [] {
      var later := Reported(Count(m, tokens[0], tokens[1..]), tokens[1..]);
      ReportedCuts(Count(m, tokens[0], tokens[1..]), tokens[1..], query);
      forall p | p in later
        ensures exists i :: 0 < i < |tokens| && tokens[i] == Semicolon(p)
      {
        var i :| 0 <= i < |tokens[1..]| && tokens[1..][i] == Semicolon(p);
        assert tokens[i + 1] == Semicolon(p);
      }
      forall k | 0 <= k < |later|
        ensures tokens[0].Semicolon? ==> tokens[0].start < later[k]
      {
        assert later[k] in later;
        var i :| 0 < i < |tokens| && tokens[i] == Semicolon(later[k]);
      }
    }
  }

  function Slices(query: string, positions: seq<nat>, previous: nat): seq<string>
    requires previous <= |query|
    requires forall i :: 0 <= i < |positions| ==> previous <= positions[i] < |query|
    requires forall i, j :: 0 <= i < j < |positions| ==> positions[i] < positions[j]
    decreases |positions|
  {
    if positions == [] then if previous < |query| then [query[previous..]] else []
    else [query[previous..positions[0]]] + Slices(query, positions[1..], positions[0] + 1)
  }

  /** Each piece followed by its semicolon. */
  function Terminated(pieces: seq<string>): string {
    if pieces == [] then "" else pieces[0] + ";" + Terminated(pieces[1..])
  }

  /** The slices are the text cut at the semicolons: with a semicolon after each, they give the text
      back, plus one semicolon if the text does not end with a cut. */
  lemma {:induction false} SlicesGiveTheTextBack(query: string, positions: seq<nat>, previous: nat)
    requires previous <= |query| && Cuts(query, positions) && forall i :: 0 <= i < |positions| ==> previous <= positions[i]
    ensures Terminated(Slices(query, positions, previous)) ==
            query[previous..] + if (if positions == [] then previous else positions[|positions| - 1] + 1) < |query| then ";" else ""
    decreases |positions|
  {
    var pieces := Slices(query, positions, previous);
    if positions == [] {
      if previous < |query| {
        assert pieces[1..] == [];
      }
    } else {
      var next := positions[0] + 1;
      SlicesGiveTheTextBack(query, positions[1..], next);
      SlicesStep(query, positions, previous);
      assert pieces[1..] == Slices(query, positions[1..], next);
      assert query[previous..] == query[previous..positions[0]] + ";" + query[next..];
    }
  }

  /** Trimmed statements that are not blank. */
  function Statements(pieces: seq<string>, trim: string -> string): seq<string> {
    if pieces == [] then []
    else Statements(pieces[..|pieces| - 1], trim) + if trim(pieces[|pieces| - 1]) == "" then [] else [trim(pieces[|pieces| - 1])]
  }

  /** The statements are the trimmed pieces that are not blank, in order. */
  lemma {:induction false} StatementsMeaning(pieces: seq<string>, trim: string -> string) returns (at: seq<nat>)
    ensures PiecesAt(pieces, trim, Statements(pieces, trim), at)
  {
    at := [];
    if pieces != [] {
      var n := |pieces| - 1;
      var before := StatementsMeaning(pieces[..n], trim);
      at := before;
      if trim(pieces[n]) != "" {
        at := before + [n];
      }
      OneMorePiece(pieces, trim, n, Statements(pieces[..n], trim), before, Statements(pieces, trim), at);
    }
  }

  /** The statements are the pieces at these places, trimmed, and all others are blank. */
  ghost predicate PiecesAt(pieces: seq<string>, trim: string -> string, statements: seq<string>, at: seq<nat>) {
    && |at| == |statements| && (forall j, k :: 0 <= j < k < |at| ==> at[j] < at[k])
    && (forall k :: 0 <= k < |at| ==> at[k] < |pieces| && statements[k] == trim(pieces[at[k]]) != "")
    && (forall i: nat :: i < |pieces| && trim(pieces[i]) != "" ==> i in at)
  }

  lemma OneMorePiece(pieces: seq<string>, trim: string -> string, n: nat, shorter: seq<string>, before: seq<nat>, statements: seq<string>, at: seq<nat>)
    requires |pieces| == n + 1 && PiecesAt(pieces[..n], trim, shorter, before)
    requires if trim(pieces[n]) == "" then at == before && statements == shorter else at == before + [n] && statements == shorter + [trim(pieces[n])]
    ensures PiecesAt(pieces, trim, statements, at)
  {
    assert forall k :: 0 <= k < |before| ==> before[k] < n && pieces[..n][before[k]] == pieces[before[k]];
    if trim(pieces[n]) != "" {
      assert at[|before|] == n && statements[|before|] == trim(pieces[n]);
    }
    forall i: nat | i < |pieces| && trim(pieces[i]) != ""
      ensures i in at
    {
      if i < n {
        assert pieces[..n][i] == pieces[i] && i in before;
      }
    }
  }

  /** A statement is a declaration exactly if the classifier says so, which is asked about the trimmed statement. */
  lemma DeclaresMeaning(trim: string -> string, classify: Classifier, statement: string)
    ensures Declares(classify)(statement) <==> classify(statement).Ok? && classify(statement).value
    ensures Trimmed(trim, classify)(statement) == classify(trim(statement))
  {
  }

  ghost function ScriptStatements(query: string, tokens: seq<Token>, trim: string -> string): seq<string>
    requires SpansFit(tokens, query)
  {
    ReportedCuts(Counters(0, 0, 0), tokens, query);
    Statements(Slices(query, Reported(Counters(0, 0, 0), tokens), 0), trim)
  }

  /** The text is rewritten exactly when some declaration follows another statement; it is then the
      hoisted statements, each ended by a semicolon. */
  method HoistDeclares(query: string, knownType: bool, trim: string -> string, tokenized: Result<seq<Token>, string>, classify: Classifier)
    returns (text: string, failed: bool)
    requires tokenized.Ok? ==> SpansFit(tokenized.value, query)
    ensures failed ==> text == query
    ensures !knownType ==> failed
    ensures knownType && trim(query) == "" ==> !failed && text == query
    ensures knownType && trim(query) != "" && tokenized.Err? ==> failed
    ensures knownType && trim(query) != "" && tokenized.Ok? ==>
              var statements := ScriptStatements(query, tokenized.value, trim);
              && (failed <==> exists x :: x in statements && classify(x).Err?)
              && (!failed ==> text == if OutOfOrder(statements, Declares(classify)) then Join(Hoisted(statements, Declares(classify)), ";\n") + ";" else query)
  {
    if !knownType {
      return query, true;
    }
    if trim(query) == "" {
      return query, false;
    }
    if tokenized.Err? {
      return query, true;
    }
    ReportedCuts(Counters(0, 0, 0), tokenized.value, query);
    var positions := TopLevelSemicolons(tokenized.value);
    var slices := SliceAt(query, positions);
    var g, bad := Group(slices, trim, classify);
    if bad {
      return query, true;
    }
    GroupsMeaning(ScriptStatements(query, tokenized.value, trim), Declares(classify));
    if g.declares == [] || !g.needsReorder {
      NothingToMove(ScriptStatements(query, tokenized.value, trim), Declares(classify));
      return query, false;
    }
    return Join(g.declares + g.rest, ";\n") + ";", false;
  }

  lemma SlicesStep(query: string, positions: seq<nat>, previous: nat)
    requires previous <= |query| && Cuts(query, positions) && positions != [] && forall i :: 0 <= i < |positions| ==> previous <= positions[i]
    ensures Slices(query, positions, previous) == [query[previous..positions[0]]] + Slices(query, positions[1..], positions[0] + 1)
  {
  }

  lemma NextSlice(query: string, positions: seq<nat>, i: nat, previous: nat)
    requires Cuts(query, positions) && i < |positions| && previous <= |query| && forall k :: i <= k < |positions| ==> previous <= positions[k]
    ensures Slices(query, positions[i..], previous) == [query[previous..positions[i]]] + Slices(query, positions[i + 1..], positions[i] + 1)
  {
    assert positions[i..][1..] == positions[i + 1..] && positions[i..][0] == positions[i];
  }

  method SliceAt(query: string, positions: seq<nat>) returns (slices: seq<string>)
    requires Cuts(query, positions)
    ensures slices == Slices(query, positions, 0)
  {
    slices := [];
    var previous := 0;
    for i := 0 to |positions|
      invariant 0 <= previous <= |query| && forall k :: i <= k < |positions| ==> previous <= positions[k]
      invariant Slices(query, positions, 0) == slices + Slices(query, positions[i..], previous)
    {
      NextSlice(query, positions, i, previous);
      Reassociate(slices, [query[previous..positions[i]]], Slices(query, positions[i + 1..], positions[i] + 1));
      slices := slices + [query[previous..positions[i]]];
      previous := positions[i] + 1;
    }
    assert positions[|positions|..] == [];
    if previous < |query| {
      slices := slices + [query[previous..]];
    }
  }

  method Group(slices: seq<string>, trim: string -> string, classify: Classifier) returns (g: Groups, failed: bool)
    ensures failed <==> exists x :: x in Statements(slices, trim) && classify(x).Err?
    ensures !failed ==> g == GroupsOf(Statements(slices, trim), Declares(classify))
  {
    g := Groups([], [], false, false);
    ghost var d := Declares(classify);
    ghost var seen: seq<string> := [];
    for i := 0 to |slices|
      invariant seen == Statements(slices[..i], trim) && g == GroupsOf(seen, d)
      invariant forall x :: x in seen ==> classify(x).Ok?
    {
      var trimmed := trim(slices[i]);
      StatementsStep(slices, trim, i);
      if trimmed == "" {
        continue;
      }
      var isDeclare := classify(trimmed);
      if isDeclare.Err? {
        StatementsPrefix(slices, trim, i + 1);
        return g, true;
      }
      GroupsStep(seen, trimmed, isDeclare.value, d);
      seen := seen + [trimmed];
      g := Add(g, trimmed, isDeclare.value);
    }
    assert slices[..|slices|] == slices;
    failed := false;
  }

  lemma StatementsStep(pieces: seq<string>, trim: string -> string, i: nat)
    requires i < |pieces|
    ensures Statements(pieces[..i + 1], trim) == Statements(pieces[..i], trim) + if trim(pieces[i]) == "" then [] else [trim(pieces[i])]
    ensures trim(pieces[i]) != "" ==> trim(pieces[i]) in Statements(pieces[..i + 1], trim)
  {
    assert pieces[..i + 1][..i] == pieces[..i];
  }

  lemma {:induction false} StatementsPrefix(pieces: seq<string>, trim: string -> string, n: nat)
    requires n <= |pieces|
    ensures forall x :: x in Statements(pieces[..n], trim) ==> x in Statements(pieces, trim)
    decreases |pieces|
  {
    if n < |pieces| {
      var shorter := pieces[..|pieces| - 1];
      StatementsPrefix(shorter, trim, n);
      assert shorter[..n] == pieces[..n];
    } else {
      assert pieces[..n] == pieces;
    }
  }
}
