/** The recursive analysis of a query: which relations it names and where, which aliases and WITH
    definitions are in scope. All offsets are offsets in the document. How a text falls into its
    parts is a parameter here. */
module ScopeAnalysis {
  import opened Wrappers
  import opened QueryTypes

  // ----- The parts of a query text -----

  datatype Analysis = Analysis(relations: seq<RelationUse>, aliases: map<string, Ref>, ctes: map<string, Ref>, locals: set<string>)

  /** How a text is prepared and falls into parts, the keys of identifiers, the catalog, and the output
      columns of an analyzed body. */
  datatype Parts = Parts(
    prepare: string -> string,
    ctes: string -> seq<Cte>,
    candidates: string -> seq<Match>,
    use: (string, Match) -> Use,
    subqueries: string -> seq<Subquery>,
    key: string -> string,
    lower: string -> string,
    relationColumns: string -> seq<Column>,
    tableFunctionColumns: string -> seq<Column>,
    outputs: (string, Analysis, nat) -> (seq<Column>, map<string, (nat, nat)>))

  ghost predicate SubqueryIn(text: string, s: Subquery) {
    Reads(text, s.bodyStart, s.body) && |s.body| < |text| && (s.alias != "" ==> s.aliasStart < s.aliasEnd <= |text|)
  }

  ghost predicate CteIn(text: string, c: Cte) {
    Reads(text, c.bodyStart, c.body) && |c.body| < |text| && c.nameStart < c.nameEnd < c.bodyStart
  }

  ghost predicate UseIn(text: string, m: Match, u: Use) {
    u.Relation? ==> u.aliasStart < u.aliasEnd <= |text|
  }

  ghost predicate CtesIn(text: string, ctes: seq<Cte>) {
    (forall k :: 0 <= k < |ctes| ==> CteIn(text, ctes[k])) && CtesInOrder(ctes, 0)
  }

  /** Preparing keeps the length; the parts of a text lie in it, and the bodies are strictly shorter. */
  ghost predicate Sound(p: Parts) {
    && (forall text :: |p.prepare(text)| == |text|)
    && (forall text :: CtesIn(text, p.ctes(text)))
    && (forall text, m :: m in p.candidates(text) ==> MatchIn(m, |text|))
    && (forall text, m :: MatchIn(m, |text|) ==> UseIn(text, m, p.use(text, m)))
    && (forall text, s :: s in p.subqueries(text) ==> SubqueryIn(text, s))
  }

  // ----- The relations of all scopes -----

  /** The relations among some candidates, at document offsets. */
  function Own(p: Parts, text: string, ms: seq<Match>, base: nat): seq<RelationUse> {
    if ms == [] then []
    else
      var m := ms[|ms| - 1];
      Own(p, text, ms[..|ms| - 1], base) + OneOwn(p.use(text, m), m, base)
  }

  ghost predicate Shorter(subqueries: seq<Subquery>, limit: nat) {
    forall s :: s in subqueries ==> |s.body| < limit
  }

  lemma SubqueriesShorter(p: Parts, sql: string)
    requires Sound(p)
    ensures Shorter(p.subqueries(p.prepare(sql)), |sql|)
  {
    forall s | s in p.subqueries(p.prepare(sql))
      ensures |s.body| < |sql|
    {
      assert SubqueryIn(p.prepare(sql), s);
    }
  }

  /** The relations of a query: its own, then those of every subquery, each analyzed as a query of its
      own at its place in the document. Every body is strictly shorter, so this ends. */
  ghost function Relations(p: Parts, sql: string, base: nat): seq<RelationUse>
    requires Sound(p)
    decreases |sql|
  {
    var text := p.prepare(sql);
    SubqueriesShorter(p, sql);
    Own(p, text, p.candidates(text), base) + Nested(p, p.subqueries(text), base, |sql|)
  }

  ghost function Nested(p: Parts, subqueries: seq<Subquery>, base: nat, limit: nat): seq<RelationUse>
    requires Sound(p) && Shorter(subqueries, limit)
    decreases limit, |subqueries|
  {
    if subqueries == [] then []
    else
      var s := subqueries[|subqueries| - 1];
      Nested(p, subqueries[..|subqueries| - 1], base, limit) + Relations(p, s.body, base + s.bodyStart)
  }

  // ----- Recorded ranges are true to the document -----

  /** The range lies in the scope that begins at `base`. */
  ghost predicate Inside(r: RelationUse, base: nat, n: nat) {
    base <= r.start < r.end <= base + n
  }

  lemma {:induction false} OwnFrom(p: Parts, text: string, ms: seq<Match>, base: nat, r: RelationUse)
    requires r in Own(p, text, ms, base)
    ensures exists m :: m in ms && p.use(text, m).Relation? && r == RelationUse(p.use(text, m).name, base + m.nameStart, base + m.nameEnd)
  {
    var last := ms[|ms| - 1];
    if p.use(text, last).Relation? && r == RelationUse(p.use(text, last).name, base + last.nameStart, base + last.nameEnd) {
      assert last in ms;
    } else {
      OwnFrom(p, text, ms[..|ms| - 1], base, r);
    }
  }

  lemma {:induction false} OwnContains(p: Parts, text: string, ms: seq<Match>, base: nat, m: Match)
    requires m in ms && p.use(text, m).Relation?
    ensures RelationUse(p.use(text, m).name, base + m.nameStart, base + m.nameEnd) in Own(p, text, ms, base)
  {
    if m != ms[|ms| - 1] {
      OwnContains(p, text, ms[..|ms| - 1], base, m);
    }
  }

  /** What a relation is called is what its text normalizes to. */
  ghost predicate NamesNormalized(p: Parts, normalize: string -> string) {
    forall text, m :: MatchIn(m, |text|) && p.use(text, m).Relation? ==> p.use(text, m).name == normalize(text[m.nameStart..m.nameEnd])
  }

  /** Preparing changes no part of the document. */
  ghost predicate Untouched(p: Parts, doc: string) {
    forall s: string, i: nat :: Reads(doc, i, s) ==> p.prepare(s) == s
  }

  ghost predicate Faithful(doc: string, r: RelationUse, normalize: string -> string) {
    0 <= r.start < r.end <= |doc| && r.name == normalize(doc[r.start..r.end])
  }

  lemma NameNormalized(p: Parts, sql: string, normalize: string -> string, m: Match)
    requires NamesNormalized(p, normalize) && MatchIn(m, |sql|) && p.use(sql, m).Relation?
    ensures p.use(sql, m).name == normalize(sql[m.nameStart..m.nameEnd])
  {
  }

  lemma NameFaithful(doc: string, sql: string, base: nat, normalize: string -> string, m: Match, name: string)
    requires Reads(doc, base, sql) && MatchIn(m, |sql|) && name == normalize(sql[m.nameStart..m.nameEnd])
    ensures Faithful(doc, RelationUse(name, base + m.nameStart, base + m.nameEnd), normalize)
  {
    ReadsWithin(doc, base, sql, m.nameStart, m.nameEnd);
  }

  /** Nothing is lost on the way up: what a subquery's own analysis records, the analysis of the query
      around it records at the same place. */
  lemma NestedIsReported(p: Parts, sql: string, base: nat, s: Subquery, r: RelationUse)
    requires Sound(p) && s in p.subqueries(p.prepare(sql)) && r in Relations(p, s.body, base + s.bodyStart)
    ensures r in Relations(p, sql, base)
  {
    SubqueriesShorter(p, sql);
    NestedContains(p, p.subqueries(p.prepare(sql)), base, |sql|, s, r);
  }

  lemma {:induction false} NestedContains(p: Parts, subqueries: seq<Subquery>, base: nat, limit: nat, s: Subquery, r: RelationUse)
    requires Sound(p) && Shorter(subqueries, limit) && s in subqueries && r in Relations(p, s.body, base + s.bodyStart)
    ensures r in Nested(p, subqueries, base, limit)
    decreases |subqueries|
  {
    if s != subqueries[|subqueries| - 1] {
      NestedContains(p, subqueries[..|subqueries| - 1], base, limit, s, r);
    }
  }

  lemma {:induction false} NestedFrom(p: Parts, subqueries: seq<Subquery>, base: nat, limit: nat, r: RelationUse) returns (s: Subquery)
    requires Sound(p) && Shorter(subqueries, limit) && r in Nested(p, subqueries, base, limit)
    ensures s in subqueries && r in Relations(p, s.body, base + s.bodyStart)
    decreases |subqueries|
  {
    s := subqueries[|subqueries| - 1];
    if r !in Relations(p, s.body, base + s.bodyStart) {
      s := NestedFrom(p, subqueries[..|subqueries| - 1], base, limit, r);
    }
  }

  /** A relation is recorded exactly when it is one of the scope's own candidates or is recorded for one of
      its subqueries, whether those stand in code or not. */
  lemma RelationsAre(p: Parts, sql: string, base: nat, r: RelationUse)
    requires Sound(p)
    ensures var text := p.prepare(sql);
            r in Relations(p, sql, base) <==>
              || (exists m :: m in p.candidates(text) && p.use(text, m).Relation? && r == RelationUse(p.use(text, m).name, base + m.nameStart, base + m.nameEnd))
              || (exists s :: s in p.subqueries(text) && r in Relations(p, s.body, base + s.bodyStart))
  {
    var text := p.prepare(sql);
    SubqueriesShorter(p, sql);
    if r in Own(p, text, p.candidates(text), base) {
      OwnFrom(p, text, p.candidates(text), base, r);
    } else if r in Relations(p, sql, base) {
      var s := NestedFrom(p, p.subqueries(text), base, |sql|, r);
    }
    if m :| m in p.candidates(text) && p.use(text, m).Relation? && r == RelationUse(p.use(text, m).name, base + m.nameStart, base + m.nameEnd) {
      OwnContains(p, text, p.candidates(text), base, m);
    }
    if s :| s in p.subqueries(text) && r in Relations(p, s.body, base + s.bodyStart) {
      NestedIsReported(p, sql, base, s, r);
    }
  }

  /** `text`, at `at` in the document, is the prepared text of this query or of one nested in it. */
  ghost predicate IsScope(p: Parts, sql: string, base: nat, text: string, at: nat)
    requires Sound(p)
    decreases |sql|
  {
    SubqueriesShorter(p, sql);
    || (text == p.prepare(sql) && at == base)
    || exists s :: s in p.subqueries(p.prepare(sql)) && IsScope(p, s.body, base + s.bodyStart, text, at)
  }

  lemma ScopeOfBody(p: Parts, sql: string, base: nat, s: Subquery, text: string, at: nat)
    requires Sound(p) && s in p.subqueries(p.prepare(sql)) && IsScope(p, s.body, base + s.bodyStart, text, at)
    ensures IsScope(p, sql, base, text, at)
  {
  }

  lemma {:induction false} ScopeInside(p: Parts, sql: string, base: nat, text: string, at: nat)
    requires Sound(p) && IsScope(p, sql, base, text, at)
    ensures base <= at && at + |text| <= base + |sql|
    decreases |sql|
  {
    if !(text == p.prepare(sql) && at == base) {
      SubqueriesShorter(p, sql);
      var s :| s in p.subqueries(p.prepare(sql)) && IsScope(p, s.body, base + s.bodyStart, text, at);
      assert SubqueryIn(p.prepare(sql), s);
      ScopeInside(p, s.body, base + s.bodyStart, text, at);
    }
  }

  /** Every relation recorded at any depth is a candidate of one scope. */
  lemma {:induction false} OwnOfSomeScope(p: Parts, sql: string, base: nat, r: RelationUse) returns (text: string, at: nat)
    requires Sound(p) && r in Relations(p, sql, base)
    ensures IsScope(p, sql, base, text, at) && r in Own(p, text, p.candidates(text), at)
    decreases |sql|
  {
    text, at := p.prepare(sql), base;
    if r !in Own(p, text, p.candidates(text), base) {
      SubqueriesShorter(p, sql);
      var s := NestedFrom(p, p.subqueries(text), base, |sql|, r);
      text, at := OwnOfSomeScope(p, s.body, base + s.bodyStart, r);
      ScopeOfBody(p, sql, base, s, text, at);
    }
  }

  lemma OwnMatch(p: Parts, text: string, base: nat, r: RelationUse) returns (m: Match)
    requires Sound(p) && r in Own(p, text, p.candidates(text), base)
    ensures MatchIn(m, |text|) && p.use(text, m).Relation?
    ensures r == RelationUse(p.use(text, m).name, base + m.nameStart, base + m.nameEnd)
  {
    OwnFrom(p, text, p.candidates(text), base, r);
    m :| m in p.candidates(text) && p.use(text, m).Relation? && r == RelationUse(p.use(text, m).name, base + m.nameStart, base + m.nameEnd);
  }

  /** For every document, whatever preparing does to it at any depth: a recorded relation is a candidate of
      some scope, recorded at its place in the prepared text of that scope. */
  lemma RecordedInSomeScope(p: Parts, sql: string, base: nat, r: RelationUse) returns (text: string, at: nat, m: Match)
    requires Sound(p) && r in Relations(p, sql, base)
    ensures IsScope(p, sql, base, text, at) && MatchIn(m, |text|) && p.use(text, m).Relation?
    ensures r == RelationUse(p.use(text, m).name, at + m.nameStart, at + m.nameEnd)
  {
    text, at := OwnOfSomeScope(p, sql, base, r);
    m := OwnMatch(p, text, at, r);
  }

  /** Where preparing changes nothing, the document reads the text of each scope at its place. */
  lemma {:induction false} ScopeReads(p: Parts, doc: string, sql: string, base: nat, text: string, at: nat)
    requires Sound(p) && Untouched(p, doc) && Reads(doc, base, sql) && IsScope(p, sql, base, text, at)
    ensures Reads(doc, at, text)
    decreases |sql|
  {
    assert p.prepare(sql) == sql;
    if !(text == sql && at == base) {
      SubqueriesShorter(p, sql);
      var s :| s in p.subqueries(sql) && IsScope(p, s.body, base + s.bodyStart, text, at);
      BodyReads(p, doc, sql, base, s);
      ScopeReads(p, doc, s.body, base + s.bodyStart, text, at);
    }
  }

  lemma BodyReads(p: Parts, doc: string, sql: string, base: nat, s: Subquery)
    requires Sound(p) && Reads(doc, base, sql) && s in p.subqueries(sql)
    ensures Reads(doc, base + s.bodyStart, s.body)
  {
    assert SubqueryIn(sql, s);
    ReadsWithin(doc, base, sql, s.bodyStart, s.bodyStart + |s.body|);
  }

  /** For a document that preparing leaves alone: every relation recorded at any depth has a range inside
      its scope and the document, and the text there normalizes to the recorded name. */
  lemma RelationsFaithful(p: Parts, doc: string, sql: string, base: nat, normalize: string -> string, r: RelationUse)
    requires Sound(p) && NamesNormalized(p, normalize) && Untouched(p, doc) && Reads(doc, base, sql) && r in Relations(p, sql, base)
    ensures Faithful(doc, r, normalize) && Inside(r, base, |sql|)
  {
    var text, at, m := RecordedInSomeScope(p, sql, base, r);
    ScopeReads(p, doc, sql, base, text, at);
    ScopeInside(p, sql, base, text, at);
    NameNormalized(p, text, normalize, m);
    NameFaithful(doc, text, at, normalize, m, r.name);
  }

  /** Whatever preparing does, the ranges are inside the document. */
  lemma RelationsInside(p: Parts, sql: string, base: nat, r: RelationUse)
    requires Sound(p) && r in Relations(p, sql, base)
    ensures Inside(r, base, |sql|)
  {
    var text, at, m := RecordedInSomeScope(p, sql, base, r);
    ScopeInside(p, sql, base, text, at);
  }

  /** Conversely, every relation among the candidates of every scope is recorded. */
  lemma {:induction false} ScopeIsRecorded(p: Parts, sql: string, base: nat, text: string, at: nat, m: Match)
    requires Sound(p) && IsScope(p, sql, base, text, at) && m in p.candidates(text) && p.use(text, m).Relation?
    ensures RelationUse(p.use(text, m).name, at + m.nameStart, at + m.nameEnd) in Relations(p, sql, base)
    decreases |sql|
  {
    SubqueriesShorter(p, sql);
    if text == p.prepare(sql) && at == base {
      OwnContains(p, text, p.candidates(text), base, m);
    } else {
      var s :| s in p.subqueries(p.prepare(sql)) && IsScope(p, s.body, base + s.bodyStart, text, at);
      ScopeIsRecorded(p, s.body, base + s.bodyStart, text, at, m);
      NestedIsReported(p, sql, base, s, RelationUse(p.use(text, m).name, at + m.nameStart, at + m.nameEnd));
    }
  }

  // ----- How often a relation is recorded -----

  function Times(rs: seq<RelationUse>, r: RelationUse): nat {
    if rs == [] then 0 else Times(rs[..|rs| - 1], r) + if rs[|rs| - 1] == r then 1 else 0
  }

  lemma {:induction false} TimesConcat(a: seq<RelationUse>, b: seq<RelationUse>, both: seq<RelationUse>, r: RelationUse)
    requires both == a + b
    ensures Times(both, r) == Times(a, r) + Times(b, r)
    decreases |b|
  {
    if b == [] {
      assert both == a;
    } else {
      assert both[..|both| - 1] == a + b[..|b| - 1];
      TimesConcat(a, b[..|b| - 1], both[..|both| - 1], r);
    }
  }

  /** Queries of which each one holds the later ones and no others, the `k`-th at `at[k]`: every enclosing query lists
      all that are nested in it, at whatever depth. */
  ghost predicate IsNest(p: Parts, texts: seq<string>, at: seq<nat>) {
    && |at| == |texts| && (forall k :: 0 <= k < |texts| ==> p.prepare(texts[k]) == texts[k])
    && (forall k :: 0 <= k < |texts| ==> |p.subqueries(texts[k])| == |texts| - 1 - k)
    && (forall k, j :: 0 <= k && 0 <= j && k + 1 + j < |texts| ==> IsNested(p, texts, at, k, j))
  }

  ghost predicate IsNested(p: Parts, texts: seq<string>, at: seq<nat>, k: nat, j: nat)
    requires k + 1 + j < |texts| == |at|
  {
    && j < |p.subqueries(texts[k])| && p.subqueries(texts[k])[j].body == texts[k + 1 + j]
    && at[k] + p.subqueries(texts[k])[j].bodyStart == at[k + 1 + j]
  }

  /** Once at the level of the query around it, twice as often for every further level. */
  ghost function Doubled(once: nat, depth: nat): nat {
    if depth <= 1 then once else 2 * Doubled(once, depth - 1)
  }

  lemma {:induction false} TimesIsMultiplicity(rs: seq<RelationUse>, r: RelationUse)
    ensures multiset(rs)[r] == Times(rs, r)
  {
    if rs != [] {
      TimesIsMultiplicity(rs[..|rs| - 1], r);
      assert rs == rs[..|rs| - 1] + [rs[|rs| - 1]];
    }
  }

  function Power(n: nat): nat {
    if n == 0 then 1 else 2 * Power(n - 1)
  }

  lemma {:induction false} DoubledIsPower(once: nat, depth: nat)
    requires depth >= 1
    ensures Doubled(once, depth) == once * Power(depth - 1)
    decreases depth
  {
    if depth > 1 {
      DoubledIsPower(once, depth - 1);
      assert once * (2 * Power(depth - 2)) == 2 * (once * Power(depth - 2));
    }
  }

  /** The relation is a candidate `once` in the innermost query and of no other. */
  ghost predicate OnlyInnermost(p: Parts, texts: seq<string>, at: seq<nat>, r: RelationUse, once: nat)
    requires |at| == |texts|
  {
    forall k :: 0 <= k < |texts| ==> Times(Own(p, texts[k], p.candidates(texts[k]), at[k]), r) == if k == |texts| - 1 then once else 0
  }

  function SumOf(counts: seq<nat>): nat {
    if counts == [] then 0 else counts[0] + SumOf(counts[1..])
  }

  lemma {:induction false} SumSnoc(counts: seq<nat>, last: nat, all: seq<nat>)
    requires all == counts + [last]
    ensures SumOf(all) == SumOf(counts) + last
  {
    if counts == [] {
      assert all[1..] == [];
    } else {
      assert all[1..] == counts[1..] + [last];
      SumSnoc(counts[1..], last, all[1..]);
    }
  }

  /** How often the `j`-th subquery has the relation recorded. */
  ghost predicate CountsBelow(p: Parts, subqueries: seq<Subquery>, base: nat, r: RelationUse, counts: seq<nat>, j: nat)
    requires Sound(p) && j < |subqueries| == |counts|
  {
    counts[j] == Times(Relations(p, subqueries[j].body, base + subqueries[j].bodyStart), r)
  }

  lemma NestedSnoc(p: Parts, subqueries: seq<Subquery>, base: nat, limit: nat, r: RelationUse, n: nat, counts: seq<nat>)
    requires Sound(p) && Shorter(subqueries, limit) && |subqueries| == n + 1 == |counts| && CountsBelow(p, subqueries, base, r, counts, n)
    ensures Times(Nested(p, subqueries, base, limit), r) == Times(Nested(p, subqueries[..n], base, limit), r) + counts[n]
  {
    TimesConcat(Nested(p, subqueries[..n], base, limit), Relations(p, subqueries[n].body, base + subqueries[n].bodyStart),
                Nested(p, subqueries, base, limit), r);
  }

  lemma {:induction false} NestedTimes(p: Parts, subqueries: seq<Subquery>, base: nat, limit: nat, r: RelationUse, counts: seq<nat>)
    requires Sound(p) && Shorter(subqueries, limit) && |counts| == |subqueries|
    requires forall j: nat :: j < |subqueries| ==> CountsBelow(p, subqueries, base, r, counts, j)
    ensures Times(Nested(p, subqueries, base, limit), r) == SumOf(counts)
    decreases |subqueries|
  {
    if subqueries != [] {
      var n := |subqueries| - 1;
      FewerCounts(p, subqueries, base, r, counts, n);
      NestedTimes(p, subqueries[..n], base, limit, r, counts[..n]);
      NestedSnoc(p, subqueries, base, limit, r, n, counts);
      SumSnoc(counts[..n], counts[n], counts);
    }
  }

  lemma FewerCounts(p: Parts, subqueries: seq<Subquery>, base: nat, r: RelationUse, counts: seq<nat>, n: nat)
    requires Sound(p) && |counts| == |subqueries| && n <= |subqueries|
    requires forall j: nat :: j < |subqueries| ==> CountsBelow(p, subqueries, base, r, counts, j)
    ensures forall j: nat :: j < n ==> CountsBelow(p, subqueries[..n], base, r, counts[..n], j)
  {
    forall j: nat | j < n
      ensures CountsBelow(p, subqueries[..n], base, r, counts[..n], j)
    {
      assert CountsBelow(p, subqueries, base, r, counts, j);
    }
  }

  lemma RelationsTimes(p: Parts, text: string, base: nat, r: RelationUse, counts: seq<nat>)
    requires Sound(p) && p.prepare(text) == text && |counts| == |p.subqueries(text)|
    requires forall j: nat :: j < |counts| ==> CountsBelow(p, p.subqueries(text), base, r, counts, j)
    ensures Times(Relations(p, text, base), r) == Times(Own(p, text, p.candidates(text), base), r) + SumOf(counts)
  {
    SubqueriesShorter(p, text);
    NestedTimes(p, p.subqueries(text), base, |text|, r, counts);
    TimesConcat(Own(p, text, p.candidates(text), base), Nested(p, p.subqueries(text), base, |text|), Relations(p, text, base), r);
  }

  /** How often the `k`-th of the queries has it recorded. */
  ghost predicate Counts(p: Parts, texts: seq<string>, at: seq<nat>, r: RelationUse, counts: seq<nat>, k: nat)
    requires Sound(p) && k < |texts| == |at| == |counts|
  {
    counts[k] == Times(Relations(p, texts[k], at[k]), r)
  }

  lemma BelowIsNested(p: Parts, texts: seq<string>, at: seq<nat>, r: RelationUse, counts: seq<nat>, k: nat, j: nat)
    requires Sound(p) && IsNest(p, texts, at) && k + 1 + j < |texts| == |counts| && Counts(p, texts, at, r, counts, k + 1 + j)
    ensures |p.subqueries(texts[k])| == |counts[k + 1..]| && CountsBelow(p, p.subqueries(texts[k]), at[k], r, counts[k + 1..], j)
  {
    assert IsNested(p, texts, at, k, j);
  }

  /** Each level adds up all later ones, the last one has its own. */
  ghost predicate AddsLater(counts: seq<nat>, once: nat, k: nat)
    requires k < |counts|
  {
    counts[k] == (if k == |counts| - 1 then once else 0) + SumOf(counts[k + 1..])
  }

  lemma OneLevel(p: Parts, texts: seq<string>, at: seq<nat>, r: RelationUse, counts: seq<nat>, k: nat, once: nat)
    requires Sound(p) && IsNest(p, texts, at) && k < |texts| == |counts|
    requires forall i: nat :: i < |texts| ==> Counts(p, texts, at, r, counts, i)
    requires Times(Own(p, texts[k], p.candidates(texts[k]), at[k]), r) == if k == |texts| - 1 then once else 0
    ensures AddsLater(counts, once, k)
  {
    var subqueries, later := p.subqueries(texts[k]), counts[k + 1..];
    assert |subqueries| == |later|;
    forall j: nat | j < |subqueries|
      ensures CountsBelow(p, subqueries, at[k], r, later, j)
    {
      assert Counts(p, texts, at, r, counts, k + 1 + j);
      BelowIsNested(p, texts, at, r, counts, k, j);
    }
    RelationsTimes(p, texts[k], at[k], r, later);
    assert Counts(p, texts, at, r, counts, k);
  }

  lemma {:induction false} LevelsDouble(counts: seq<nat>, once: nat, k: nat)
    requires k < |counts|
    requires forall i: nat :: i < |counts| ==> AddsLater(counts, once, i)
    ensures counts[k] == Doubled(once, |counts| - 1 - k)
    decreases |counts| - k
  {
    assert AddsLater(counts, once, k);
    if k + 1 < |counts| {
      LevelsDouble(counts, once, k + 1);
      assert AddsLater(counts, once, k + 1);
      assert counts[k + 1..][1..] == counts[k + 2..];
    }
  }

  /** A relation that stands in the innermost of nested queries is recorded twice as often for every query around that
      query but the first: the analysis of each query visits the bodies at every depth, and each body visits them
      again. */
  lemma RecordedOften(p: Parts, texts: seq<string>, at: seq<nat>, r: RelationUse, once: nat)
    requires Sound(p) && texts != [] && IsNest(p, texts, at) && OnlyInnermost(p, texts, at, r, once)
    ensures Times(Relations(p, texts[0], at[0]), r) == if |texts| == 1 then once else once * Power(|texts| - 2)
    ensures multiset(Relations(p, texts[0], at[0]))[r] == Times(Relations(p, texts[0], at[0]), r)
  {
    TimesIsMultiplicity(Relations(p, texts[0], at[0]), r);
    var n := |texts|;
    var counts := CountsOf(p, texts, at, r);
    forall i: nat | i < n
      ensures AddsLater(counts, once, i)
    {
      OneLevel(p, texts, at, r, counts, i, once);
    }
    LevelsDouble(counts, once, 0);
    assert Counts(p, texts, at, r, counts, 0);
    if n > 1 {
      DoubledIsPower(once, n - 1);
    }
  }

  lemma CountsOf(p: Parts, texts: seq<string>, at: seq<nat>, r: RelationUse) returns (counts: seq<nat>)
    requires Sound(p) && |at| == |texts|
    ensures |counts| == |texts| && forall i: nat :: i < |texts| ==> Counts(p, texts, at, r, counts, i)
  {
    counts := seq(|texts|, (k: int) requires 0 <= k < |texts| => Times(Relations(p, texts[k], at[k]), r));
  }

  // ----- The analysis itself -----

  ghost predicate RefsIn(refs: map<string, Ref>, n: nat) {
    forall key :: key in refs ==> refs[key].start <= refs[key].end <= n
  }

  ghost predicate InDocument(a: Analysis, n: nat) {
    RefsIn(a.aliases, n) && RefsIn(a.ctes, n)
  }

  /** The parent's names are visible; nothing else is yet. */
  function Inherited(parent: Option<Analysis>): Analysis {
    match parent
    case None => Analysis([], map[], map[], {})
    case Some(p) => Analysis([], p.aliases, p.ctes, {})
  }

  function RenamedColumn(columns: seq<Column>, k: nat, name: string): (r: Column)
    ensures r.name == name && (k < |columns| ==> r.kind == columns[k].kind)
  {
    if k < |columns| then columns[k].(name := name) else Column(name, "")
  }

  /** The columns renamed by an alias list, which also cuts or extends them to its length. */
  function Renamed(columns: seq<Column>, aliases: seq<ColumnAlias>): (r: seq<Column>)
    ensures aliases == [] ==> r == columns
    ensures aliases != [] ==> |r| == |aliases| && forall k :: 0 <= k < |r| ==> r[k] == RenamedColumn(columns, k, aliases[k].name)
  {
    if aliases == [] then columns
    else seq(|aliases|, (k: int) requires 0 <= k < |aliases| => RenamedColumn(columns, k, aliases[k].name))
  }

  /** The places of the aliases by lower-cased name, the last one of a name winning. */
  function AliasRanges(aliases: seq<ColumnAlias>, base: nat, lower: string -> string): map<string, (nat, nat)> {
    if aliases == [] then map[]
    else
      var last := aliases[|aliases| - 1];
      AliasRanges(aliases[..|aliases| - 1], base, lower)[lower(last.name) := (base + last.start, base + last.end)]
  }

  ghost predicate LastAlias(aliases: seq<ColumnAlias>, lower: string -> string, k: nat, key: string) {
    k < |aliases| && lower(aliases[k].name) == key && forall j :: k < j < |aliases| ==> lower(aliases[j].name) != key
  }

  /** A key that some alias has is placed at the last such alias. */
  lemma {:induction false} AliasIsPlaced(aliases: seq<ColumnAlias>, base: nat, lower: string -> string, k: nat, key: string)
    requires LastAlias(aliases, lower, k, key)
    ensures key in AliasRanges(aliases, base, lower) && AliasRanges(aliases, base, lower)[key] == (base + aliases[k].start, base + aliases[k].end)
    decreases |aliases|
  {
    var shorter := aliases[..|aliases| - 1];
    if k < |shorter| {
      assert LastAlias(shorter, lower, k, key);
      AliasIsPlaced(shorter, base, lower, k, key);
    }
  }

  /** And no other key is placed. */
  lemma {:induction false} PlacedHasAlias(aliases: seq<ColumnAlias>, base: nat, lower: string -> string, key: string) returns (k: nat)
    requires key in AliasRanges(aliases, base, lower)
    ensures LastAlias(aliases, lower, k, key)
  {
    var shorter, last := aliases[..|aliases| - 1], aliases[|aliases| - 1];
    if lower(last.name) == key {
      k := |aliases| - 1;
    } else {
      k := PlacedHasAlias(shorter, base, lower, key);
    }
  }

  /** Renaming columns: without aliases nothing changes; otherwise the result has exactly the aliases'
      names, keeps the types of the columns it renames, and forgets the old places. */
  method ApplyColumnAliases(columns: seq<Column>, ranges: map<string, (nat, nat)>, aliases: seq<ColumnAlias>, base: nat, lower: string -> string)
    returns (renamed: seq<Column>, renamedRanges: map<string, (nat, nat)>)
    ensures renamed == Renamed(columns, aliases)
    ensures renamedRanges == if aliases == [] then ranges else AliasRanges(aliases, base, lower)
  {
    if aliases == [] {
      return columns, ranges;
    }
    renamed, renamedRanges := [], map[];
    for index := 0 to |aliases|
      invariant |renamed| == index && forall k :: 0 <= k < index ==> renamed[k] == RenamedColumn(columns, k, aliases[k].name)
      invariant renamedRanges == AliasRanges(aliases[..index], base, lower)
    {
      var alias := aliases[index];
      var column := Column(alias.name, "");
      if index < |columns| {
        column := columns[index].(name := alias.name);
      }
      renamed := renamed + [column];
      assert aliases[..index + 1][..index] == aliases[..index];
      renamedRanges := renamedRanges[lower(alias.name) := (base + alias.start, base + alias.end)];
    }
    assert aliases[..|aliases|] == aliases;
    assert renamed == Renamed(columns, aliases);
  }

  /** A definition, and where the scope that holds it begins. */
  datatype Definition = Definition(cte: Cte, scopeStart: nat)

  /** What the keys of some definitions are bound to: the last definition of a key wins. */
  ghost function Bindings(p: Parts, ctes: seq<Cte>, scopeStart: nat): map<string, Definition> {
    if ctes == [] then map[]
    else
      var last := ctes[|ctes| - 1];
      Bindings(p, ctes[..|ctes| - 1], scopeStart)[p.key(last.identifier) := Definition(last, scopeStart)]
  }

  /** No definition from the `k`-th on has this key. */
  ghost predicate NotLater(p: Parts, ctes: seq<Cte>, k: nat, key: string) {
    forall j :: k <= j < |ctes| ==> p.key(ctes[j].identifier) != key
  }

  /** A key is bound exactly when some definition has it, and then to the last one that does. */
  lemma {:induction false} BindingsMeaning(p: Parts, ctes: seq<Cte>, scopeStart: nat, key: string)
    ensures key !in Bindings(p, ctes, scopeStart) <==> NotLater(p, ctes, 0, key)
    ensures key in Bindings(p, ctes, scopeStart) ==>
              exists k :: 0 <= k < |ctes| && p.key(ctes[k].identifier) == key && NotLater(p, ctes, k + 1, key)
                          && Bindings(p, ctes, scopeStart)[key] == Definition(ctes[k], scopeStart)
  {
    if ctes != [] {
      var shorter, last := ctes[..|ctes| - 1], ctes[|ctes| - 1];
      BindingsMeaning(p, shorter, scopeStart, key);
      if p.key(last.identifier) != key && key in Bindings(p, shorter, scopeStart) {
        var k :| 0 <= k < |shorter| && p.key(shorter[k].identifier) == key && NotLater(p, shorter, k + 1, key)
                 && Bindings(p, shorter, scopeStart)[key] == Definition(shorter[k], scopeStart);
        assert NotLater(p, ctes, k + 1, key) && ctes[k] == shorter[k];
      } else if p.key(last.identifier) == key {
        assert NotLater(p, ctes, |ctes| - 1 + 1, key);
      } else {
        assert forall j :: 0 <= j < |shorter| ==> ctes[j] == shorter[j];
      }
    }
  }

  /** An analysis of the query `body` that stands at `at` in the document. */
  ghost predicate AnalyzedAs(p: Parts, a: Analysis, body: string, at: nat)
    requires Sound(p)
  {
    a.relations == Relations(p, body, at) && a.locals == LocalNames(p, p.prepare(body)).Keys
  }

  /** The columns and their places are the output of the analyzed body, renamed by the aliases. */
  ghost predicate Shows(p: Parts, ref: Ref, body: string, a: Analysis, at: nat, aliases: seq<ColumnAlias>, base: nat) {
    && ref.columns == Renamed(p.outputs(body, a, at).0, aliases)
    && ref.columnRanges == if aliases == [] then p.outputs(body, a, at).1 else AliasRanges(aliases, base, p.lower)
  }

  ghost predicate ShowsOutput(p: Parts, ref: Ref, body: string, at: nat, aliases: seq<ColumnAlias>, base: nat) {
    Sound(p) && exists a :: AnalyzedAs(p, a, body, at) && Shows(p, ref, body, a, at, aliases, base)
  }

  /** Of the definitions around it a query sees all but those whose names it defines itself. */
  ghost predicate InheritsCtes(p: Parts, a: Analysis, body: string, scope: map<string, Ref>) {
    && (forall key :: key in scope && NotLater(p, p.ctes(p.prepare(body)), 0, key) ==> key in a.ctes && a.ctes[key] == scope[key])
    && (forall key :: key in a.ctes && NotLater(p, p.ctes(p.prepare(body)), 0, key) ==> key in scope)
  }

  /** The same output, of the body analyzed where it sees the definitions in `scope`. */
  ghost predicate OutputIn(p: Parts, ref: Ref, body: string, at: nat, aliases: seq<ColumnAlias>, base: nat, scope: map<string, Ref>) {
    Sound(p) && exists a :: AnalyzedAs(p, a, body, at) && InheritsCtes(p, a, body, scope) && Shows(p, ref, body, a, at, aliases, base)
  }

  /** A definition sees the ones before it, and one that is recursive sees itself, with the columns it declares. */
  ghost predicate ScopeFor(p: Parts, ctes: map<string, Ref>, c: Cte, base: nat, scope: map<string, Ref>) {
    scope == if !c.recursive then ctes
             else ctes[p.key(c.identifier) := Ref(c.identifier, c.identifier, Renamed([], c.columnAliases), AliasRanges(c.columnAliases, base, p.lower),
                                                  CteRef, base + c.nameStart, base + c.nameEnd)]
  }

  ghost predicate SawScope(p: Parts, ref: Ref, c: Cte, base: nat, ctes: map<string, Ref>) {
    exists scope :: ScopeFor(p, ctes, c, base, scope) && OutputIn(p, ref, c.body, base + c.bodyStart, c.columnAliases, base, scope)
  }

  type Seeing = (Ref, Cte, map<string, Ref>) -> bool

  ghost function SeeingAt(p: Parts, base: nat): Seeing {
    (ref: Ref, c: Cte, ctes: map<string, Ref>) => SawScope(p, ref, c, base, ctes)
  }

  /** The names that are bound before the `k`-th definition: those of the query around and of the definitions before it. */
  ghost predicate EarlierNames(p: Parts, outer: map<string, Ref>, after: map<string, Ref>, ctes: seq<Cte>, k: nat, seen: map<string, Ref>) {
    && (forall key :: key in seen <==> key in outer || !NotLater(p, ctes[..Min(k, |ctes|)], 0, key))
    && (forall key :: key in seen && NotLater(p, ctes, 0, key) ==> key in outer && seen[key] == outer[key])
    && (forall j: nat, key :: j < k && OwnCte(p, ctes, j, key) ==> key in seen && key in after && seen[key] == after[key])
  }

  /** The columns of a definition are those of its body where it sees the definitions before it. */
  ghost predicate SeesEarlier(p: Parts, saw: Seeing, outer: map<string, Ref>, after: map<string, Ref>, ctes: seq<Cte>, k: nat, key: string) {
    k < |ctes| && key in after && exists seen :: EarlierNames(p, outer, after, ctes, k, seen) && saw(after[key], ctes[k], seen)
  }

  ghost predicate AllSeeEarlier(p: Parts, outer: map<string, Ref>, after: map<string, Ref>, ctes: seq<Cte>, base: nat) {
    EachSeesEarlier(p, SeeingAt(p, base), outer, after, ctes)
  }

  ghost predicate EachSeesEarlier(p: Parts, saw: Seeing, outer: map<string, Ref>, after: map<string, Ref>, ctes: seq<Cte>) {
    forall k: nat, key :: OwnCte(p, ctes, k, key) ==> SeesEarlier(p, saw, outer, after, ctes, k, key)
  }

  lemma CtesInherited(p: Parts, before: map<string, Ref>, a: Analysis, sql: string, base: nat)
    requires CtesGrew(p, before, a.ctes, Bindings(p, p.ctes(p.prepare(sql)), 0), base)
    ensures InheritsCtes(p, a, sql, before)
  {
    var defs := p.ctes(p.prepare(sql));
    forall key | NotLater(p, defs, 0, key)
      ensures key !in Bindings(p, defs, 0)
    {
      BindingsMeaning(p, defs, 0, key);
    }
  }

  /** A further definition binds one name. */
  ghost predicate OneMore(p: Parts, before: map<string, Ref>, after: map<string, Ref>, ctes: seq<Cte>, longer: seq<Cte>, last: Cte) {
    && longer == ctes + [last] && p.key(last.identifier) in after
    && forall x :: x in before && x != p.key(last.identifier) ==> x in after && after[x] == before[x]
  }

  lemma OwnInShorter(p: Parts, ctes: seq<Cte>, longer: seq<Cte>, last: Cte, j: nat, key: string)
    requires longer == ctes + [last] && j < |ctes| && OwnCte(p, longer, j, key)
    ensures OwnCte(p, ctes, j, key) && key != p.key(last.identifier)
  {
    assert longer[|ctes|] == last && ctes[j] == longer[j];
    forall i | j + 1 <= i < |ctes|
      ensures p.key(ctes[i].identifier) != key
    {
      assert ctes[i] == longer[i];
    }
  }

  lemma NoneInShorter(p: Parts, ctes: seq<Cte>, longer: seq<Cte>, last: Cte, key: string)
    requires longer == ctes + [last] && NotLater(p, longer, 0, key)
    ensures NotLater(p, ctes, 0, key)
  {
    forall i | 0 <= i < |ctes|
      ensures p.key(ctes[i].identifier) != key
    {
      assert ctes[i] == longer[i];
    }
  }

  /** It leaves what the others have seen. */
  lemma SeesEarlierStill(p: Parts, saw: Seeing, outer: map<string, Ref>, before: map<string, Ref>, after: map<string, Ref>, ctes: seq<Cte>, longer: seq<Cte>, last: Cte,
                         k: nat, key: string)
    requires OneMore(p, before, after, ctes, longer, last) && k < |ctes| && OwnCte(p, longer, k, key) && SeesEarlier(p, saw, outer, before, ctes, k, key)
    ensures SeesEarlier(p, saw, outer, after, longer, k, key)
  {
    var seen :| EarlierNames(p, outer, before, ctes, k, seen) && saw(before[key], ctes[k], seen);
    assert longer[|ctes|] == last;
    SeenStill(p, outer, before, after, ctes, longer, last, k, seen);
  }

  lemma SeenStill(p: Parts, outer: map<string, Ref>, before: map<string, Ref>, after: map<string, Ref>, ctes: seq<Cte>, longer: seq<Cte>, last: Cte,
                  k: nat, seen: map<string, Ref>)
    requires OneMore(p, before, after, ctes, longer, last) && k < |ctes| && EarlierNames(p, outer, before, ctes, k, seen)
    ensures EarlierNames(p, outer, after, longer, k, seen)
  {
    assert longer[..k] == ctes[..k] && longer[|ctes|] == last;
    forall j: nat, x | j < k && OwnCte(p, longer, j, x)
      ensures OwnCte(p, ctes, j, x) && x != p.key(last.identifier)
    {
      OwnInShorter(p, ctes, longer, last, j, x);
    }
    forall x | NotLater(p, longer, 0, x)
      ensures NotLater(p, ctes, 0, x)
    {
      NoneInShorter(p, ctes, longer, last, x);
    }
  }

  /** It has itself seen what was bound before it. */
  lemma BoundIsEarlier(p: Parts, outer: map<string, Ref>, before: map<string, Ref>, after: map<string, Ref>, ctes: seq<Cte>, longer: seq<Cte>, last: Cte,
                       bound: map<string, Definition>)
    requires OneMore(p, before, after, ctes, longer, last) && bound == Bindings(p, ctes, 0) && before.Keys == outer.Keys + bound.Keys
    requires forall key :: key in outer && key !in bound ==> before[key] == outer[key]
    ensures EarlierNames(p, outer, after, longer, |ctes|, before)
  {
    assert longer[..|ctes|] == ctes && longer[|ctes|] == last;
    forall x
      ensures x in bound <==> !NotLater(p, ctes, 0, x)
    {
      BindingsMeaning(p, ctes, 0, x);
    }
    forall x | NotLater(p, longer, 0, x)
      ensures NotLater(p, ctes, 0, x)
    {
      NoneInShorter(p, ctes, longer, last, x);
    }
    forall j: nat, x | j < |ctes| && OwnCte(p, longer, j, x)
      ensures !NotLater(p, ctes, 0, x) && x != p.key(last.identifier)
    {
      OwnInShorter(p, ctes, longer, last, j, x);
    }
  }

  lemma EachSeesEarlierStill(p: Parts, saw: Seeing, outer: map<string, Ref>, before: map<string, Ref>, after: map<string, Ref>, ctes: seq<Cte>, longer: seq<Cte>, last: Cte)
    requires OneMore(p, before, after, ctes, longer, last) && EachSeesEarlier(p, saw, outer, before, ctes)
    requires EarlierNames(p, outer, after, longer, |ctes|, before) && saw(after[p.key(last.identifier)], last, before)
    ensures EachSeesEarlier(p, saw, outer, after, longer)
  {
    assert longer[|ctes|] == last;
    forall k: nat, key | OwnCte(p, longer, k, key)
      ensures SeesEarlier(p, saw, outer, after, longer, k, key)
    {
      if k < |ctes| {
        OwnInShorter(p, ctes, longer, last, k, key);
        SeesEarlierStill(p, saw, outer, before, after, ctes, longer, last, k, key);
      }
    }
  }

  /** All that a further definition changes. */
  lemma FurtherDefinition(p: Parts, outer: map<string, Ref>, before: map<string, Ref>, after: map<string, Ref>, ctes: seq<Cte>, longer: seq<Cte>, last: Cte, base: nat)
    requires OneMore(p, before, after, ctes, longer, last) && CtesGrew(p, outer, before, Bindings(p, ctes, 0), base)
    requires AllSeeEarlier(p, outer, before, ctes, base) && SeeingAt(p, base)(after[p.key(last.identifier)], last, before)
    ensures AllSeeEarlier(p, outer, after, longer, base)
  {
    BoundIsEarlier(p, outer, before, after, ctes, longer, last, Bindings(p, ctes, 0));
    EachSeesEarlierStill(p, SeeingAt(p, base), outer, before, after, ctes, longer, last);
  }

  /** A reference to a definition of a scope that begins at `start` in the document. */
  ghost predicate RefersTo(p: Parts, ref: Ref, c: Cte, start: nat) {
    && ref.kind == CteRef && ref.alias == ref.name == c.identifier
    && ref.start == start + c.nameStart && ref.end == start + c.nameEnd
    && ShowsOutput(p, ref, c.body, start + c.bodyStart, c.columnAliases, start)
  }

  type Reference = (Ref, Definition) -> bool

  ghost function ReferenceIn(p: Parts, base: nat): Reference {
    (ref: Ref, d: Definition) => RefersTo(p, ref, d.cte, base + d.scopeStart)
  }

  /** Some keys have been bound to definitions; the others still mean what they did. */
  ghost predicate CtesGrew(p: Parts, before: map<string, Ref>, after: map<string, Ref>, bound: map<string, Definition>, base: nat) {
    GrewBy(ReferenceIn(p, base), before, after, bound)
  }

  ghost predicate GrewBy(refers: Reference, before: map<string, Ref>, after: map<string, Ref>, bound: map<string, Definition>) {
    && after.Keys == before.Keys + bound.Keys
    && (forall key :: key in before && key !in bound ==> after[key] == before[key])
    && (forall key :: key in bound ==> refers(after[key], bound[key]))
  }

  lemma BoundOneMore(refers: Reference, before: map<string, Ref>, middle: map<string, Ref>, after: map<string, Ref>, bound: map<string, Definition>, key: string, d: Definition)
    requires GrewBy(refers, before, middle, bound)
    requires after.Keys == middle.Keys + {key} && forall other :: other in middle && other != key ==> after[other] == middle[other]
    requires refers(after[key], d)
    ensures GrewBy(refers, before, after, bound[key := d])
  {
  }

  lemma BoundTwice(refers: Reference, a: map<string, Ref>, b: map<string, Ref>, c: map<string, Ref>, first: map<string, Definition>, second: map<string, Definition>)
    requires GrewBy(refers, a, b, first) && GrewBy(refers, b, c, second)
    ensures GrewBy(refers, a, c, first + second)
  {
  }

  /** A definition is analyzed in the scope of the earlier ones, and of itself if it is recursive; only
      its name becomes visible. */
  method AddCTEDef(p: Parts, a: Analysis, cte: Cte, base: nat, ghost n: nat) returns (a': Analysis)
    requires Sound(p) && InDocument(a, n) && cte.nameStart < cte.nameEnd < cte.bodyStart && base + cte.End() <= n
    ensures a'.relations == a.relations && a'.aliases == a.aliases && a'.locals == a.locals
    ensures a'.ctes.Keys == a.ctes.Keys + {p.key(cte.identifier)} && InDocument(a', n)
    ensures forall key :: key in a.ctes && key != p.key(cte.identifier) ==> a'.ctes[key] == a.ctes[key]
    ensures RefersTo(p, a'.ctes[p.key(cte.identifier)], cte, base) && SeeingAt(p, base)(a'.ctes[p.key(cte.identifier)], cte, a.ctes)
    decreases |cte.body|, 6
  {
    var key := p.key(cte.identifier);
    var scope := BodyScope(p, a, cte, base, n);
    var ref := DefinitionRef(p, scope, cte, base, n);
    a' := WithCte(scope, key, ref);
    assert SawScope(p, ref, cte, base, a.ctes);
    CteAdded(a, scope, key, ref, n);
  }

  /** Where the body is analyzed: a recursive definition is bound with its declared columns first. */
  method BodyScope(p: Parts, a: Analysis, cte: Cte, base: nat, ghost n: nat) returns (scope: Analysis)
    requires Sound(p) && InDocument(a, n) && cte.nameStart < cte.nameEnd < cte.bodyStart && base + cte.End() <= n
    ensures ScopeFor(p, a.ctes, cte, base, scope.ctes) && InDocument(scope, n)
    ensures scope == a || exists known :: scope == WithCte(a, p.key(cte.identifier), known)
  {
    scope := a;
    if cte.recursive {
      var known, places := ApplyColumnAliases([], map[], cte.columnAliases, base, p.lower);
      var ref := Ref(cte.identifier, cte.identifier, known, places, CteRef, base + cte.nameStart, base + cte.nameEnd);
      scope := WithCte(a, p.key(cte.identifier), ref);
      CteAdded(a, a, p.key(cte.identifier), ref, n);
    }
  }

  /** The body is analyzed for its columns. */
  method DefinitionRef(p: Parts, scope: Analysis, cte: Cte, base: nat, ghost n: nat) returns (ref: Ref)
    requires Sound(p) && InDocument(scope, n) && base + cte.End() <= n
    ensures RefersTo(p, ref, cte, base) && OutputIn(p, ref, cte.body, base + cte.bodyStart, cte.columnAliases, base, scope.ctes)
    decreases |cte.body|, 5
  {
    var body := Analyze(p, cte.body, Some(scope), base + cte.bodyStart, n);
    var output := p.outputs(cte.body, body, base + cte.bodyStart);
    var columns, ranges := ApplyColumnAliases(output.0, output.1, cte.columnAliases, base, p.lower);
    ref := Ref(cte.identifier, cte.identifier, columns, ranges, CteRef, base + cte.nameStart, base + cte.nameEnd);
    assert AnalyzedAs(p, body, cte.body, base + cte.bodyStart) && Shows(p, ref, cte.body, body, base + cte.bodyStart, cte.columnAliases, base);
  }

  function WithCte(a: Analysis, key: string, ref: Ref): Analysis {
    a.(ctes := a.ctes[key := ref])
  }

  /** Binding a key in a scope that differs at most in that key. */
  lemma CteAdded(a: Analysis, scope: Analysis, key: string, ref: Ref, n: nat)
    requires InDocument(a, n) && ref.start <= ref.end <= n
    requires scope == a || exists known :: scope == WithCte(a, key, known)
    ensures WithCte(scope, key, ref) == WithCte(a, key, ref) && InDocument(WithCte(a, key, ref), n)
  {
  }

  /** Adds a definition of the scope that begins at `scopeStart` to the names bound so far. */
  method AddBound(p: Parts, ghost outer: map<string, Ref>, a: Analysis, cte: Cte, scopeStart: nat, base: nat, ghost bound: map<string, Definition>, ghost n: nat)
    returns (a': Analysis)
    requires Sound(p) && InDocument(a, n) && cte.nameStart < cte.nameEnd < cte.bodyStart && base + scopeStart + cte.End() <= n
    requires CtesGrew(p, outer, a.ctes, bound, base)
    ensures a'.relations == a.relations && a'.aliases == a.aliases && a'.locals == a.locals && InDocument(a', n)
    ensures CtesGrew(p, outer, a'.ctes, bound[p.key(cte.identifier) := Definition(cte, scopeStart)], base)
    ensures p.key(cte.identifier) in a'.ctes && SeeingAt(p, base + scopeStart)(a'.ctes[p.key(cte.identifier)], cte, a.ctes)
    ensures forall key :: key in a.ctes && key != p.key(cte.identifier) ==> key in a'.ctes && a'.ctes[key] == a.ctes[key]
    decreases |cte.body|, 7
  {
    a' := AddCTEDef(p, a, cte, base + scopeStart, n);
    var key := p.key(cte.identifier);
    assert ReferenceIn(p, base)(a'.ctes[key], Definition(cte, scopeStart));
    BoundOneMore(ReferenceIn(p, base), outer, a.ctes, a'.ctes, bound, key, Definition(cte, scopeStart));
  }

  /** One round of the loop over the definitions. */
  method AddNextCte(p: Parts, ghost outer: map<string, Ref>, a: Analysis, ghost ctes: seq<Cte>, cte: Cte, ghost longer: seq<Cte>, base: nat, ghost n: nat)
    returns (a': Analysis)
    requires Sound(p) && InDocument(a, n) && cte.nameStart < cte.nameEnd < cte.bodyStart && base + cte.End() <= n && longer == ctes + [cte]
    requires CtesGrew(p, outer, a.ctes, Bindings(p, ctes, 0), base) && AllSeeEarlier(p, outer, a.ctes, ctes, base)
    ensures a'.relations == a.relations && a'.aliases == a.aliases && a'.locals == a.locals && InDocument(a', n)
    ensures CtesGrew(p, outer, a'.ctes, Bindings(p, longer, 0), base) && AllSeeEarlier(p, outer, a'.ctes, longer, base)
    decreases |cte.body|, 8
  {
    a' := AddBound(p, outer, a, cte, 0, base, Bindings(p, ctes, 0), n);
    assert longer[..|ctes|] == ctes && longer[|ctes|] == cte;
    assert OneMore(p, a.ctes, a'.ctes, ctes, longer, cte);
    FurtherDefinition(p, outer, a.ctes, a'.ctes, ctes, longer, cte, base);
  }

  method AddCTEDefs(p: Parts, a: Analysis, ctes: seq<Cte>, base: nat, ghost text: string, ghost n: nat) returns (a': Analysis)
    requires Sound(p) && InDocument(a, n) && CtesIn(text, ctes) && base + |text| <= n
    ensures a'.relations == a.relations && a'.aliases == a.aliases && a'.locals == a.locals && InDocument(a', n)
    ensures CtesGrew(p, a.ctes, a'.ctes, Bindings(p, ctes, 0), base) && AllSeeEarlier(p, a.ctes, a'.ctes, ctes, base)
    decreases |text|, 1
  {
    a' := a;
    for k := 0 to |ctes|
      invariant a'.relations == a.relations && a'.aliases == a.aliases && a'.locals == a.locals && InDocument(a', n)
      invariant CtesGrew(p, a.ctes, a'.ctes, Bindings(p, ctes[..k], 0), base) && AllSeeEarlier(p, a.ctes, a'.ctes, ctes[..k], base)
    {
      assert CteIn(text, ctes[k]) && ctes[..k + 1] == ctes[..k] + [ctes[k]];
      a' := AddNextCte(p, a.ctes, a', ctes[..k], ctes[k], ctes[..k + 1], base, n);
    }
    assert ctes[..|ctes|] == ctes;
  }

  /** A relation that names a definition in scope takes over what that stands for; any other is looked
      up in the catalog. */
  function RelationRefOf(p: Parts, ctes: map<string, Ref>, text: string, m: Match, use: Use, base: nat): Ref
    requires use.Relation? && MatchIn(m, |text|)
  {
    var key := p.key(text[m.nameStart..m.nameEnd]);
    var written := use.aliasStart != m.nameStart || use.aliasEnd != m.nameEnd;
    if key in ctes then
      var ref := ctes[key].(alias := use.alias);
      if written then ref.(start := base + use.aliasStart, end := base + use.aliasEnd) else ref
    else
      Ref(use.alias, use.name, p.relationColumns(use.name), map[], RelationRef, base + use.aliasStart, base + use.aliasEnd)
  }

  function FunctionRefOf(p: Parts, m: Match, use: Use, base: nat): Ref
    requires use.TableFunction? && m.nameStart <= m.nameEnd
  {
    Ref(use.alias, use.name, p.tableFunctionColumns(use.name), map[], TableFunctionRef, base + m.nameStart, base + m.nameEnd)
  }

  /** What introduces a name of a scope. */
  datatype Origin = ByUse(m: Match) | BySubquery(s: Subquery)

  function OneName(p: Parts, u: Use, m: Match): map<string, Origin> {
    if u.Skipped? then map[] else map[p.key(u.alias) := ByUse(m)]
  }

  /** The names the candidates introduce, the last one of a name winning. */
  ghost function UseNames(p: Parts, text: string, ms: seq<Match>): map<string, Origin> {
    if ms == [] then map[] else UseNames(p, text, ms[..|ms| - 1]) + OneName(p, p.use(text, ms[|ms| - 1]), ms[|ms| - 1])
  }

  function WithAlias(a: Analysis, key: string, ref: Ref): Analysis {
    a.(aliases := a.aliases[key := ref], locals := a.locals + {key})
  }

  ghost predicate RefersToSubquery(p: Parts, ctes: map<string, Ref>, ref: Ref, s: Subquery, base: nat) {
    && ref.kind == SubqueryRef && ref.alias == ref.name == s.alias
    && ref.start == base + s.aliasStart && ref.end == base + s.aliasEnd
    && OutputIn(p, ref, s.body, base + s.bodyStart, s.columnAliases, base, ctes)
  }

  /** The alias of a relation whose written name is that of a definition: it takes over what that stands for, and stands
      at the alias if one is written apart from the name. */
  ghost predicate StandsForDefinition(ref: Ref, definition: Ref, m: Match, u: Use, base: nat)
    requires u.Relation?
  {
    && ref.alias == u.alias && ref.kind == definition.kind && ref.name == definition.name
    && ref.columns == definition.columns && ref.columnRanges == definition.columnRanges
    && if u.aliasStart == m.nameStart && u.aliasEnd == m.nameEnd then ref.start == definition.start && ref.end == definition.end
       else ref.start == base + u.aliasStart && ref.end == base + u.aliasEnd
  }

  /** The alias of a relation of the catalog, at its place. */
  ghost predicate StandsForRelation(p: Parts, ref: Ref, u: Use, base: nat)
    requires u.Relation?
  {
    && ref.alias == u.alias && ref.kind == RelationRef && ref.name == u.name
    && ref.columns == p.relationColumns(u.name) && ref.columnRanges == map[]
    && ref.start == base + u.aliasStart && ref.end == base + u.aliasEnd
  }

  /** The name of a table function, at the place of its call. */
  ghost predicate StandsForFunction(p: Parts, ref: Ref, m: Match, u: Use, base: nat)
    requires u.TableFunction?
  {
    && ref.alias == u.alias && ref.kind == TableFunctionRef && ref.name == u.name
    && ref.columns == p.tableFunctionColumns(u.name) && ref.columnRanges == map[]
    && ref.start == base + m.nameStart && ref.end == base + m.nameEnd
  }

  /** What a candidate's name stands for: a definition in scope that has the key of the written name comes before the
      catalog. */
  ghost predicate StandsFor(p: Parts, ctes: map<string, Ref>, text: string, m: Match, u: Use, base: nat, ref: Ref)
    requires MatchIn(m, |text|)
  {
    match u
    case Skipped => true
    case TableFunction(_, _) => StandsForFunction(p, ref, m, u, base)
    case Relation(_, _, _, _) =>
      var key := p.key(text[m.nameStart..m.nameEnd]);
      if key in ctes then StandsForDefinition(ref, ctes[key], m, u, base) else StandsForRelation(p, ref, u, base)
  }

  /** What a name stands for, by what introduced it. */
  ghost predicate Means(p: Parts, ctes: map<string, Ref>, text: string, base: nat, origin: Origin, ref: Ref) {
    match origin
    case ByUse(m) =>
      MatchIn(m, |text|) && StandsFor(p, ctes, text, m, p.use(text, m), base, ref)
    case BySubquery(s) => RefersToSubquery(p, ctes, ref, s, base)
  }

  ghost predicate NamesMean(p: Parts, a: Analysis, text: string, base: nat, names: map<string, Origin>) {
    forall key :: key in names ==> key in a.aliases && Means(p, a.ctes, text, base, names[key], a.aliases[key])
  }

  /** The definitions are the same; some relations and some names have been added, the other names still
      mean what they did, and every place is still in the document. */
  ghost predicate Grew(a: Analysis, a': Analysis, relations: seq<RelationUse>, names: set<string>, n: nat) {
    && a'.ctes == a.ctes && InDocument(a', n)
    && a'.relations == a.relations + relations
    && a'.aliases.Keys == a.aliases.Keys + names && a'.locals == a.locals + names
    && (forall key :: key in a.aliases && key !in names ==> a'.aliases[key] == a.aliases[key])
  }

  lemma GrewTwice(a: Analysis, b: Analysis, c: Analysis, r: seq<RelationUse>, s: seq<RelationUse>, x: set<string>, y: set<string>, n: nat)
    requires Grew(a, b, r, x, n) && Grew(b, c, s, y, n)
    ensures Grew(a, c, r + s, x + y, n)
  {
    assert (a.relations + r) + s == a.relations + (r + s);
    assert (a.aliases.Keys + x) + y == a.aliases.Keys + (x + y);
    assert (a.locals + x) + y == a.locals + (x + y);
  }

  /** Names that are not introduced again keep their meaning. */
  lemma NamesMeanTwice(p: Parts, b: Analysis, c: Analysis, text: string, base: nat, x: map<string, Origin>, y: map<string, Origin>, s: seq<RelationUse>, n: nat)
    requires NamesMean(p, b, text, base, x) && Grew(b, c, s, y.Keys, n) && NamesMean(p, c, text, base, y)
    ensures NamesMean(p, c, text, base, x + y)
  {
    forall key | key in x + y
      ensures key in c.aliases && Means(p, c.ctes, text, base, (x + y)[key], c.aliases[key])
    {
      if key !in y {
        assert Means(p, b.ctes, text, base, x[key], b.aliases[key]);
      }
    }
  }

  lemma GrewPlain(a: Analysis, relations: seq<RelationUse>, n: nat)
    requires InDocument(a, n)
    ensures Grew(a, a.(relations := a.relations + relations), relations, {}, n)
  {
  }

  lemma GrewWithAlias(a: Analysis, relations: seq<RelationUse>, key: string, ref: Ref, n: nat)
    requires InDocument(a, n) && ref.start <= ref.end <= n
    ensures Grew(a, WithAlias(a.(relations := a.relations + relations), key, ref), relations, {key}, n)
  {
  }

  function OneOwn(u: Use, m: Match, base: nat): seq<RelationUse> {
    if u.Relation? then [RelationUse(u.name, base + m.nameStart, base + m.nameEnd)] else []
  }

  /** One candidate. */
  method AddUse(p: Parts, a: Analysis, text: string, m: Match, base: nat, ghost n: nat) returns (a': Analysis)
    requires Sound(p) && MatchIn(m, |text|) && InDocument(a, n) && base + |text| <= n
    ensures Grew(a, a', OneOwn(p.use(text, m), m, base), OneName(p, p.use(text, m), m).Keys, n)
    ensures NamesMean(p, a', text, base, OneName(p, p.use(text, m), m))
  {
    var u := p.use(text, m);
    assert UseIn(text, m, u) && a.relations + [] == a.relations;
    a' := a;
    match u {
      case Skipped =>
      case TableFunction(name, alias) =>
        a' := Bound(p, a, text, base, [], p.key(alias), ByUse(m), FunctionRefOf(p, m, u, base), n);
      case Relation(name, alias, start, end) =>
        a' := Bound(p, a, text, base, [RelationUse(name, base + m.nameStart, base + m.nameEnd)], p.key(alias), ByUse(m),
                    RelationRefOf(p, a.ctes, text, m, u, base), n);
    }
  }

  /** Records some relations and one name. */
  method Bound(p: Parts, a: Analysis, ghost text: string, ghost base: nat, relations: seq<RelationUse>, key: string, ghost origin: Origin, ref: Ref, ghost n: nat)
    returns (a': Analysis)
    requires InDocument(a, n) && ref.start <= ref.end <= n && Means(p, a.ctes, text, base, origin, ref)
    ensures Grew(a, a', relations, map[key := origin].Keys, n) && NamesMean(p, a', text, base, map[key := origin])
  {
    GrewWithAlias(a, relations, key, ref, n);
    OneNameMeans(p, a.(relations := a.relations + relations), text, base, key, origin, ref);
    assert map[key := origin].Keys == {key};
    a' := WithAlias(a.(relations := a.relations + relations), key, ref);
  }

  /** The new name means what it should. */
  lemma OneNameMeans(p: Parts, a: Analysis, text: string, base: nat, key: string, origin: Origin, ref: Ref)
    requires Means(p, a.ctes, text, base, origin, ref)
    ensures NamesMean(p, WithAlias(a, key, ref), text, base, map[key := origin])
  {
  }

  lemma UsesStep(p: Parts, text: string, ms: seq<Match>, base: nat, k: nat)
    requires k < |ms|
    ensures Own(p, text, ms[..k + 1], base) == Own(p, text, ms[..k], base) + OneOwn(p.use(text, ms[k]), ms[k], base)
    ensures UseNames(p, text, ms[..k + 1]) == UseNames(p, text, ms[..k]) + OneName(p, p.use(text, ms[k]), ms[k])
  {
    assert ms[..k + 1][..k] == ms[..k];
  }

  /** One round of the loop over the candidates. */
  method AddNextUse(p: Parts, ghost a: Analysis, before: Analysis, text: string, ms: seq<Match>, k: nat, base: nat, ghost n: nat)
    returns (after: Analysis)
    requires Sound(p) && base + |text| <= n && k < |ms| && MatchIn(ms[k], |text|)
    requires Grew(a, before, Own(p, text, ms[..k], base), UseNames(p, text, ms[..k]).Keys, n)
    requires NamesMean(p, before, text, base, UseNames(p, text, ms[..k]))
    ensures Grew(a, after, Own(p, text, ms[..k + 1], base), UseNames(p, text, ms[..k + 1]).Keys, n)
    ensures NamesMean(p, after, text, base, UseNames(p, text, ms[..k + 1]))
  {
    after := AddUse(p, before, text, ms[k], base, n);
    ghost var name := OneName(p, p.use(text, ms[k]), ms[k]);
    ghost var own := OneOwn(p.use(text, ms[k]), ms[k], base);
    GrewTwice(a, before, after, Own(p, text, ms[..k], base), own, UseNames(p, text, ms[..k]).Keys, name.Keys, n);
    NamesMeanTwice(p, before, after, text, base, UseNames(p, text, ms[..k]), name, own, n);
    UsesStep(p, text, ms, base, k);
  }

  method AddUses(p: Parts, a: Analysis, text: string, ms: seq<Match>, base: nat, ghost n: nat) returns (a': Analysis)
    requires Sound(p) && InDocument(a, n) && base + |text| <= n && forall m :: m in ms ==> MatchIn(m, |text|)
    ensures Grew(a, a', Own(p, text, ms, base), UseNames(p, text, ms).Keys, n)
    ensures NamesMean(p, a', text, base, UseNames(p, text, ms))
  {
    a' := a;
    for k := 0 to |ms|
      invariant Grew(a, a', Own(p, text, ms[..k], base), UseNames(p, text, ms[..k]).Keys, n)
      invariant NamesMean(p, a', text, base, UseNames(p, text, ms[..k]))
    {
      a' := AddNextUse(p, a, a', text, ms, k, base, n);
    }
    assert ms[..|ms|] == ms;
  }

  ghost function SubqueryName(p: Parts, text: string, s: Subquery): map<string, Origin>
    requires SubqueryIn(text, s)
  {
    if s.alias == "" then map[] else map[p.key(text[s.aliasStart..s.aliasEnd]) := BySubquery(s)]
  }

  /** The names the subqueries introduce, the last one of a name winning. */
  ghost function SubqueryNames(p: Parts, text: string, subqueries: seq<Subquery>): map<string, Origin>
    requires forall s :: s in subqueries ==> SubqueryIn(text, s)
  {
    if subqueries == [] then map[]
    else
      var s := subqueries[|subqueries| - 1];
      SubqueryNames(p, text, subqueries[..|subqueries| - 1]) + SubqueryName(p, text, s)
  }

  /** One subquery: its relations are recorded, and of its scope only its alias becomes visible. */
  method AddSubquery(p: Parts, a: Analysis, text: string, s: Subquery, base: nat, ghost n: nat) returns (a': Analysis)
    requires Sound(p) && InDocument(a, n) && base + |text| <= n && SubqueryIn(text, s)
    ensures Grew(a, a', Relations(p, s.body, base + s.bodyStart), SubqueryName(p, text, s).Keys, n)
    ensures NamesMean(p, a', text, base, SubqueryName(p, text, s))
    decreases |text|, 0
  {
    var body := AnalyzeBody(p, a, s, base, n);
    if s.alias == "" {
      a' := a.(relations := a.relations + body.relations);
      Unnamed(p, a, text, s, body.relations, base, n);
    } else {
      a' := NameSubquery(p, a, text, s, body, base, n);
    }
  }

  lemma Unnamed(p: Parts, a: Analysis, text: string, s: Subquery, relations: seq<RelationUse>, base: nat, n: nat)
    requires InDocument(a, n) && SubqueryIn(text, s) && s.alias == ""
    ensures Grew(a, a.(relations := a.relations + relations), relations, SubqueryName(p, text, s).Keys, n)
    ensures NamesMean(p, a.(relations := a.relations + relations), text, base, SubqueryName(p, text, s))
  {
    GrewPlain(a, relations, n);
    assert SubqueryName(p, text, s).Keys == {};
  }

  /** The alias stands for the subquery's output. */
  method NameSubquery(p: Parts, a: Analysis, text: string, s: Subquery, body: Analysis, base: nat, ghost n: nat) returns (a': Analysis)
    requires InDocument(a, n) && base + |text| <= n && SubqueryIn(text, s) && s.alias != ""
    requires Sound(p) && AnalyzedAs(p, body, s.body, base + s.bodyStart) && InheritsCtes(p, body, s.body, a.ctes)
    ensures Grew(a, a', body.relations, SubqueryName(p, text, s).Keys, n)
    ensures NamesMean(p, a', text, base, SubqueryName(p, text, s))
  {
    var ref := ReferTo(p, s, body, base, a.ctes);
    a' := Bound(p, a, text, base, body.relations, p.key(text[s.aliasStart..s.aliasEnd]), BySubquery(s), ref, n);
  }

  /** A subquery's body is a query of its own, inside the scope around it. */
  method AnalyzeBody(p: Parts, a: Analysis, s: Subquery, base: nat, ghost n: nat) returns (body: Analysis)
    requires Sound(p) && InDocument(a, n) && base + s.bodyStart + |s.body| <= n
    ensures AnalyzedAs(p, body, s.body, base + s.bodyStart) && InheritsCtes(p, body, s.body, a.ctes)
    decreases |s.body|, 5
  {
    body := Analyze(p, s.body, Some(a), base + s.bodyStart, n);
  }

  method ReferTo(p: Parts, s: Subquery, body: Analysis, base: nat, ghost ctes: map<string, Ref>) returns (ref: Ref)
    requires Sound(p) && AnalyzedAs(p, body, s.body, base + s.bodyStart) && InheritsCtes(p, body, s.body, ctes)
    ensures RefersToSubquery(p, ctes, ref, s, base)
  {
    var output := p.outputs(s.body, body, base + s.bodyStart);
    var columns, ranges := ApplyColumnAliases(output.0, output.1, s.columnAliases, base, p.lower);
    ref := Ref(s.alias, s.alias, columns, ranges, SubqueryRef, base + s.aliasStart, base + s.aliasEnd);
    assert Shows(p, ref, s.body, body, base + s.bodyStart, s.columnAliases, base);
  }

  lemma SubqueriesStep(p: Parts, text: string, subqueries: seq<Subquery>, base: nat, k: nat)
    requires Sound(p) && k < |subqueries| && Shorter(subqueries, |text|) && (forall s :: s in subqueries ==> SubqueryIn(text, s))
    requires SubqueryIn(text, subqueries[k])
    ensures Nested(p, subqueries[..k + 1], base, |text|) ==
            Nested(p, subqueries[..k], base, |text|) + Relations(p, subqueries[k].body, base + subqueries[k].bodyStart)
    ensures SubqueryNames(p, text, subqueries[..k + 1]) == SubqueryNames(p, text, subqueries[..k]) + SubqueryName(p, text, subqueries[k])
  {
    assert subqueries[..k + 1][..k] == subqueries[..k];
  }

  ghost predicate AllIn(subqueries: seq<Subquery>, text: string) {
    forall s :: s in subqueries ==> SubqueryIn(text, s) && |s.body| < |text|
  }

  /** One round of the loop over the subqueries. */
  method AddNextSubquery(p: Parts, ghost a: Analysis, before: Analysis, text: string, subqueries: seq<Subquery>, k: nat, base: nat, ghost n: nat)
    returns (after: Analysis)
    requires Sound(p) && base + |text| <= n && AllIn(subqueries, text) && k < |subqueries|
    requires Grew(a, before, Nested(p, subqueries[..k], base, |text|), SubqueryNames(p, text, subqueries[..k]).Keys, n)
    requires NamesMean(p, before, text, base, SubqueryNames(p, text, subqueries[..k]))
    ensures Grew(a, after, Nested(p, subqueries[..k + 1], base, |text|), SubqueryNames(p, text, subqueries[..k + 1]).Keys, n)
    ensures NamesMean(p, after, text, base, SubqueryNames(p, text, subqueries[..k + 1]))
    decreases |text|, 1
  {
    var s := subqueries[k];
    assert s in subqueries;
    after := AddSubquery(p, before, text, s, base, n);
    SubqueriesStep(p, text, subqueries, base, k);
    AddedNext(p, a, before, after, text, base, Nested(p, subqueries[..k], base, |text|), Relations(p, s.body, base + s.bodyStart),
              SubqueryNames(p, text, subqueries[..k]), SubqueryName(p, text, s), n);
  }

  lemma AddedNext(p: Parts, a: Analysis, b: Analysis, c: Analysis, text: string, base: nat, r: seq<RelationUse>, s: seq<RelationUse>,
                  x: map<string, Origin>, y: map<string, Origin>, n: nat)
    requires Grew(a, b, r, x.Keys, n) && NamesMean(p, b, text, base, x)
    requires Grew(b, c, s, y.Keys, n) && NamesMean(p, c, text, base, y)
    ensures Grew(a, c, r + s, (x + y).Keys, n) && NamesMean(p, c, text, base, x + y)
  {
    GrewTwice(a, b, c, r, s, x.Keys, y.Keys, n);
    NamesMeanTwice(p, b, c, text, base, x, y, s, n);
    assert (x + y).Keys == x.Keys + y.Keys;
  }

  method AddSubqueries(p: Parts, a: Analysis, text: string, subqueries: seq<Subquery>, base: nat, ghost n: nat) returns (a': Analysis)
    requires Sound(p) && InDocument(a, n) && base + |text| <= n && AllIn(subqueries, text)
    ensures Grew(a, a', Nested(p, subqueries, base, |text|), SubqueryNames(p, text, subqueries).Keys, n)
    ensures NamesMean(p, a', text, base, SubqueryNames(p, text, subqueries))
    decreases |text|, 2
  {
    a' := a;
    for k := 0 to |subqueries|
      invariant Grew(a, a', Nested(p, subqueries[..k], base, |text|), SubqueryNames(p, text, subqueries[..k]).Keys, n)
      invariant NamesMean(p, a', text, base, SubqueryNames(p, text, subqueries[..k]))
    {
      a' := AddNextSubquery(p, a, a', text, subqueries, k, base, n);
    }
    assert subqueries[..|subqueries|] == subqueries;
  }

  /** The names a scope introduces itself, and what introduces them: its relations and table functions, or
      else its subqueries, which come later and win. */
  ghost function LocalNames(p: Parts, text: string): map<string, Origin>
    requires Sound(p)
  {
    UseNames(p, text, p.candidates(text)) + SubqueryNames(p, text, p.subqueries(text))
  }

  /** The analysis of a query at `base` inside the scope of its parent. It records exactly the relations
      above. It sees the parent's names, and adds to them its own definitions and aliases and nothing
      from inside a definition or a subquery; each of its names stands for what introduced it last. */
  method Analyze(p: Parts, sql: string, parent: Option<Analysis>, base: nat, ghost n: nat) returns (a: Analysis)
    requires Sound(p) && base + |sql| <= n && (parent.Some? ==> InDocument(parent.value, n))
    ensures a.relations == Relations(p, sql, base)
    ensures a.locals == LocalNames(p, p.prepare(sql)).Keys
    ensures NamesMean(p, a, p.prepare(sql), base, LocalNames(p, p.prepare(sql)))
    ensures a.aliases.Keys == Inherited(parent).aliases.Keys + a.locals
    ensures forall key :: key in Inherited(parent).aliases && key !in a.locals ==> a.aliases[key] == Inherited(parent).aliases[key]
    ensures CtesGrew(p, Inherited(parent).ctes, a.ctes, Bindings(p, p.ctes(p.prepare(sql)), 0), base)
    ensures forall k: nat, key :: OwnUse(p, p.prepare(sql), k, key) ==> UseStands(p, a, p.prepare(sql), base, k, key)
    ensures forall k: nat, key :: OwnSubquery(p, p.prepare(sql), k, key) ==> SubqueryStands(p, a, p.prepare(sql), base, k, key)
    ensures forall k: nat, key :: OwnCte(p, p.ctes(p.prepare(sql)), k, key) ==> CteStands(p, a, p.ctes(p.prepare(sql)), base, k, key)
    ensures InheritsCtes(p, a, sql, Inherited(parent).ctes)
    ensures AllSeeEarlier(p, Inherited(parent).ctes, a.ctes, p.ctes(p.prepare(sql)), base)
    ensures InDocument(a, n)
    decreases |sql|, 4
  {
    var text := p.prepare(sql);
    var first := AddCTEDefs(p, Inherited(parent), p.ctes(text), base, text, n);
    a := AddNames(p, first, sql, text, base, n);
    CtesInherited(p, Inherited(parent).ctes, a, sql, base);
    forall k: nat, key | OwnUse(p, text, k, key)
      ensures UseStands(p, a, text, base, k, key)
    {
      UseIsMeant(p, a, text, base, k, key);
    }
    forall k: nat, key | OwnSubquery(p, text, k, key)
      ensures SubqueryStands(p, a, text, base, k, key)
    {
      SubqueryIsMeant(p, a, text, base, k, key);
    }
    forall k: nat, key | OwnCte(p, p.ctes(text), k, key)
      ensures CteStands(p, a, p.ctes(text), base, k, key)
    {
      CteIsMeant(p, Inherited(parent).ctes, a, p.ctes(text), base, k, key);
    }
  }

  /** The candidates, then the subqueries. */
  method AddNames(p: Parts, a: Analysis, ghost sql: string, text: string, base: nat, ghost n: nat) returns (a': Analysis)
    requires Sound(p) && base + |sql| <= n && text == p.prepare(sql) && InDocument(a, n)
    ensures Grew(a, a', Relations(p, sql, base), LocalNames(p, text).Keys, n)
    ensures NamesMean(p, a', text, base, LocalNames(p, text))
    decreases |text|, 3
  {
    var middle := AddUses(p, a, text, p.candidates(text), base, n);
    SubqueriesShorter(p, sql);
    a' := AddSubqueries(p, middle, text, p.subqueries(text), base, n);
    ghost var own, nested := Own(p, text, p.candidates(text), base), Nested(p, p.subqueries(text), base, |sql|);
    ghost var uses, subqueries := UseNames(p, text, p.candidates(text)), SubqueryNames(p, text, p.subqueries(text));
    GrewTwice(a, middle, a', own, nested, uses.Keys, subqueries.Keys, n);
    NamesMeanTwice(p, middle, a', text, base, uses, subqueries, nested, n);
  }

  ghost predicate Introduces(p: Parts, text: string, origin: Origin, key: string) {
    match origin
    case ByUse(m) => !p.use(text, m).Skipped? && p.key(p.use(text, m).alias) == key
    case BySubquery(s) => s.alias != "" && s.aliasStart <= s.aliasEnd <= |text| && p.key(text[s.aliasStart..s.aliasEnd]) == key
  }

  ghost predicate NoOtherUse(p: Parts, text: string, ms: seq<Match>, k: nat, key: string) {
    forall j :: k <= j < |ms| ==> !Introduces(p, text, ByUse(ms[j]), key)
  }

  ghost predicate LastUse(p: Parts, text: string, ms: seq<Match>, k: nat, key: string) {
    k < |ms| && Introduces(p, text, ByUse(ms[k]), key) && NoOtherUse(p, text, ms, k + 1, key)
  }

  /** A candidate's name stands for the last candidate that introduces it. */
  lemma {:induction false} UseNamesMeaning(p: Parts, text: string, ms: seq<Match>, key: string)
    ensures key !in UseNames(p, text, ms) <==> NoOtherUse(p, text, ms, 0, key)
    ensures key in UseNames(p, text, ms) ==> exists k: nat :: LastUse(p, text, ms, k, key) && UseNames(p, text, ms)[key] == ByUse(ms[k])
  {
    if ms != [] {
      var shorter, n := ms[..|ms| - 1], |ms| - 1;
      UseNamesMeaning(p, text, shorter, key);
      if Introduces(p, text, ByUse(ms[n]), key) {
        assert LastUse(p, text, ms, n, key);
      } else if key in UseNames(p, text, shorter) {
        var k: nat :| LastUse(p, text, shorter, k, key) && UseNames(p, text, shorter)[key] == ByUse(shorter[k]);
        assert LastUse(p, text, ms, k, key);
      } else {
        assert NoOtherUse(p, text, ms, 0, key);
      }
    }
  }

  ghost predicate NoOtherSubquery(p: Parts, text: string, ss: seq<Subquery>, k: nat, key: string) {
    forall j :: k <= j < |ss| ==> !Introduces(p, text, BySubquery(ss[j]), key)
  }

  ghost predicate LastSubquery(p: Parts, text: string, ss: seq<Subquery>, k: nat, key: string) {
    k < |ss| && Introduces(p, text, BySubquery(ss[k]), key) && NoOtherSubquery(p, text, ss, k + 1, key)
  }

  /** A subquery's name stands for the last subquery that introduces it. */
  lemma {:induction false} SubqueryNamesMeaning(p: Parts, text: string, ss: seq<Subquery>, key: string)
    requires forall s :: s in ss ==> SubqueryIn(text, s)
    ensures key !in SubqueryNames(p, text, ss) <==> NoOtherSubquery(p, text, ss, 0, key)
    ensures key in SubqueryNames(p, text, ss) ==>
              exists k: nat :: LastSubquery(p, text, ss, k, key) && SubqueryNames(p, text, ss)[key] == BySubquery(ss[k])
  {
    if ss != [] {
      var shorter, n := ss[..|ss| - 1], |ss| - 1;
      SubqueryNamesMeaning(p, text, shorter, key);
      assert SubqueryIn(text, ss[n]) && SubqueryNames(p, text, ss) == SubqueryNames(p, text, shorter) + SubqueryName(p, text, ss[n]);
      if Introduces(p, text, BySubquery(ss[n]), key) {
        assert LastSubquery(p, text, ss, n, key);
      } else if key in SubqueryNames(p, text, shorter) {
        var k: nat :| LastSubquery(p, text, shorter, k, key) && SubqueryNames(p, text, shorter)[key] == BySubquery(shorter[k]);
        assert LastSubquery(p, text, ss, k, key);
      } else {
        assert NoOtherSubquery(p, text, ss, 0, key);
      }
    }
  }

  // ----- What the names of a scope stand for -----

  /** The candidate is the last that introduces the name, and no subquery does. */
  ghost predicate OwnUse(p: Parts, text: string, k: nat, key: string) {
    LastUse(p, text, p.candidates(text), k, key) && NoOtherSubquery(p, text, p.subqueries(text), 0, key)
  }

  ghost predicate UseStands(p: Parts, a: Analysis, text: string, base: nat, k: nat, key: string) {
    && k < |p.candidates(text)| && MatchIn(p.candidates(text)[k], |text|) && key in a.aliases && key in a.locals
    && StandsFor(p, a.ctes, text, p.candidates(text)[k], p.use(text, p.candidates(text)[k]), base, a.aliases[key])
  }

  ghost predicate OwnSubquery(p: Parts, text: string, k: nat, key: string) {
    LastSubquery(p, text, p.subqueries(text), k, key)
  }

  ghost predicate SubqueryStands(p: Parts, a: Analysis, text: string, base: nat, k: nat, key: string) {
    && k < |p.subqueries(text)| && key in a.aliases && key in a.locals
    && RefersToSubquery(p, a.ctes, a.aliases[key], p.subqueries(text)[k], base)
  }

  /** The definition is the last one with the key. */
  ghost predicate OwnCte(p: Parts, ctes: seq<Cte>, k: nat, key: string) {
    k < |ctes| && p.key(ctes[k].identifier) == key && NotLater(p, ctes, k + 1, key)
  }

  ghost predicate CteStands(p: Parts, a: Analysis, ctes: seq<Cte>, base: nat, k: nat, key: string) {
    k < |ctes| && key in a.ctes && RefersTo(p, a.ctes[key], ctes[k], base)
  }

  lemma UseIsMeant(p: Parts, a: Analysis, text: string, base: nat, k: nat, key: string)
    requires Sound(p) && NamesMean(p, a, text, base, LocalNames(p, text)) && a.locals == LocalNames(p, text).Keys && OwnUse(p, text, k, key)
    ensures UseStands(p, a, text, base, k, key)
  {
    var ms := p.candidates(text);
    UseNamesMeaning(p, text, ms, key);
    SubqueryNamesMeaning(p, text, p.subqueries(text), key);
    assert key in UseNames(p, text, ms);
    var j: nat :| LastUse(p, text, ms, j, key) && UseNames(p, text, ms)[key] == ByUse(ms[j]);
    assert j == k && LocalNames(p, text)[key] == ByUse(ms[k]);
    assert Means(p, a.ctes, text, base, ByUse(ms[k]), a.aliases[key]);
  }

  lemma SubqueryIsMeant(p: Parts, a: Analysis, text: string, base: nat, k: nat, key: string)
    requires Sound(p) && NamesMean(p, a, text, base, LocalNames(p, text)) && a.locals == LocalNames(p, text).Keys && OwnSubquery(p, text, k, key)
    ensures SubqueryStands(p, a, text, base, k, key)
  {
    var ss := p.subqueries(text);
    SubqueryNamesMeaning(p, text, ss, key);
    assert key in SubqueryNames(p, text, ss);
    var j: nat :| LastSubquery(p, text, ss, j, key) && SubqueryNames(p, text, ss)[key] == BySubquery(ss[j]);
    assert j == k && LocalNames(p, text)[key] == BySubquery(ss[k]);
    assert Means(p, a.ctes, text, base, BySubquery(ss[k]), a.aliases[key]);
  }

  lemma CteIsMeant(p: Parts, before: map<string, Ref>, a: Analysis, ctes: seq<Cte>, base: nat, k: nat, key: string)
    requires CtesGrew(p, before, a.ctes, Bindings(p, ctes, 0), base) && OwnCte(p, ctes, k, key)
    ensures CteStands(p, a, ctes, base, k, key)
  {
    BindingsMeaning(p, ctes, 0, key);
    assert key in Bindings(p, ctes, 0);
    var j :| 0 <= j < |ctes| && p.key(ctes[j].identifier) == key && NotLater(p, ctes, j + 1, key) && Bindings(p, ctes, 0)[key] == Definition(ctes[j], 0);
    assert j == k && ReferenceIn(p, base)(a.ctes[key], Definition(ctes[k], 0));
  }

  /** An alias of a relation whose written name is that of a definition: if the query itself defines the name, it stands
      for the last such definition, with the columns of its body; if not, for what the query around it means by it. */
  lemma WithNamesAreMeant(p: Parts, parent: Option<Analysis>, a: Analysis, text: string, base: nat, k: nat, key: string)
    requires Sound(p) && UseStands(p, a, text, base, k, key) && p.use(text, p.candidates(text)[k]).Relation?
    requires CtesGrew(p, Inherited(parent).ctes, a.ctes, Bindings(p, p.ctes(text), 0), base)
    ensures var m := p.candidates(text)[k];
            var u, name, ref := p.use(text, m), p.key(text[m.nameStart..m.nameEnd]), a.aliases[key];
            && (forall j: nat :: OwnCte(p, p.ctes(text), j, name) ==>
                  ref.kind == CteRef && ref.alias == u.alias && ref.name == p.ctes(text)[j].identifier
                  && ShowsOutput(p, ref, p.ctes(text)[j].body, base + p.ctes(text)[j].bodyStart, p.ctes(text)[j].columnAliases, base))
            && (NotLater(p, p.ctes(text), 0, name) && parent.Some? && name in parent.value.ctes ==>
                  StandsForDefinition(ref, parent.value.ctes[name], m, u, base))
            && (NotLater(p, p.ctes(text), 0, name) && (parent.None? || name !in parent.value.ctes) ==> StandsForRelation(p, ref, u, base))
  {
    var m := p.candidates(text)[k];
    var name := p.key(text[m.nameStart..m.nameEnd]);
    BindingsMeaning(p, p.ctes(text), 0, name);
    forall j: nat | OwnCte(p, p.ctes(text), j, name)
      ensures CteStands(p, a, p.ctes(text), base, j, name)
    {
      CteIsMeant(p, Inherited(parent).ctes, a, p.ctes(text), base, j, name);
    }
  }

  // ----- WITH definitions visible at a cursor -----

  /** A definition is visible behind its body, and inside it when it is recursive. */
  ghost predicate Visible(c: Cte, scopeStart: nat, offset: nat) {
    scopeStart + c.End() < offset || (scopeStart + c.bodyStart <= offset <= scopeStart + c.End() && c.recursive)
  }

  /** The definitions of a scope that are visible at the cursor. */
  ghost function VisibleOnes(ctes: seq<Cte>, scopeStart: nat, offset: nat): seq<Cte> {
    if ctes == [] then []
    else VisibleOnes(ctes[..|ctes| - 1], scopeStart, offset) + if Visible(ctes[|ctes| - 1], scopeStart, offset) then [ctes[|ctes| - 1]] else []
  }

  /** One scope: the loop stops at the first definition that starts behind the cursor or has it in its
      body, and so has seen every visible one. */
  method AddVisibleIn(p: Parts, visible: Analysis, ctes: seq<Cte>, scopeStart: nat, offset: nat, base: nat, ghost text: string, ghost n: nat)
    returns (visible': Analysis)
    requires Sound(p) && InDocument(visible, n) && CtesIn(text, ctes) && base + scopeStart + |text| <= n
    ensures InDocument(visible', n)
    ensures CtesGrew(p, visible.ctes, visible'.ctes, Bindings(p, VisibleOnes(ctes, scopeStart, offset), scopeStart), base)
  {
    visible' := visible;
    var k := 0;
    var going := true;
    while going && k < |ctes|
      invariant k <= |ctes| && InDocument(visible', n)
      invariant CtesGrew(p, visible.ctes, visible'.ctes, Bindings(p, VisibleOnes(ctes[..k], scopeStart, offset), scopeStart), base)
      invariant !going ==> NoneFrom(ctes, scopeStart, offset, k)
      decreases going, |ctes| - k
    {
      if offset < scopeStart + ctes[k].bodyStart {
        BehindCursor(ctes, scopeStart, offset, text, k);
        going := false;
      } else {
        visible' := AddIfVisible(p, visible.ctes, visible', ctes, k, scopeStart, offset, base, text, n);
        if offset <= scopeStart + ctes[k].End() {
          BehindBody(ctes, scopeStart, offset, text, k);
          going := false;
        }
        k := k + 1;
      }
    }
    if going {
      assert ctes[..k] == ctes;
    } else {
      NoMoreVisible(ctes, scopeStart, offset, k);
    }
  }

  /** A definition whose body starts at or before the cursor. */
  method AddIfVisible(p: Parts, ghost outer: map<string, Ref>, visible: Analysis, ctes: seq<Cte>, k: nat, scopeStart: nat, offset: nat, base: nat, ghost text: string, ghost n: nat)
    returns (visible': Analysis)
    requires Sound(p) && InDocument(visible, n) && CtesIn(text, ctes) && base + scopeStart + |text| <= n
    requires k < |ctes| && scopeStart + ctes[k].bodyStart <= offset
    requires CtesGrew(p, outer, visible.ctes, Bindings(p, VisibleOnes(ctes[..k], scopeStart, offset), scopeStart), base)
    ensures InDocument(visible', n)
    ensures CtesGrew(p, outer, visible'.ctes, Bindings(p, VisibleOnes(ctes[..k + 1], scopeStart, offset), scopeStart), base)
  {
    var cte := ctes[k];
    assert CteIn(text, cte);
    visible' := visible;
    VisibleStep(p, ctes, scopeStart, offset, k);
    var inside := offset <= scopeStart + cte.End();
    if !inside || cte.recursive {
      visible' := AddBound(p, outer, visible, cte, scopeStart, base, Bindings(p, VisibleOnes(ctes[..k], scopeStart, offset), scopeStart), n);
    }
  }

  lemma VisibleStep(p: Parts, ctes: seq<Cte>, scopeStart: nat, offset: nat, k: nat)
    requires k < |ctes|
    ensures var before := Bindings(p, VisibleOnes(ctes[..k], scopeStart, offset), scopeStart);
            Bindings(p, VisibleOnes(ctes[..k + 1], scopeStart, offset), scopeStart) ==
            if Visible(ctes[k], scopeStart, offset) then before[p.key(ctes[k].identifier) := Definition(ctes[k], scopeStart)] else before
  {
    assert ctes[..k + 1][..k] == ctes[..k];
    var ones := VisibleOnes(ctes[..k], scopeStart, offset);
    assert (ones + [ctes[k]])[..|ones|] == ones && ones + [] == ones;
  }

  ghost predicate NoneFrom(ctes: seq<Cte>, scopeStart: nat, offset: nat, k: nat) {
    k <= |ctes| && forall j :: k <= j < |ctes| ==> !Visible(ctes[j], scopeStart, offset)
  }

  lemma BehindCursor(ctes: seq<Cte>, scopeStart: nat, offset: nat, text: string, k: nat)
    requires CtesIn(text, ctes) && k < |ctes| && offset < scopeStart + ctes[k].bodyStart
    ensures NoneFrom(ctes, scopeStart, offset, k)
  {
    forall j | k <= j < |ctes|
      ensures !Visible(ctes[j], scopeStart, offset)
    {
      assert CteIn(text, ctes[j]) && CteIn(text, ctes[k]);
      assert j == k || ctes[k].End() < ctes[j].nameStart;
    }
  }

  lemma BehindBody(ctes: seq<Cte>, scopeStart: nat, offset: nat, text: string, k: nat)
    requires CtesIn(text, ctes) && k < |ctes| && offset <= scopeStart + ctes[k].End()
    ensures NoneFrom(ctes, scopeStart, offset, k + 1)
  {
    forall j | k + 1 <= j < |ctes|
      ensures !Visible(ctes[j], scopeStart, offset)
    {
      assert CteIn(text, ctes[j]);
      assert ctes[k].End() < ctes[j].nameStart;
    }
  }

  lemma {:induction false} NoMoreVisible(ctes: seq<Cte>, scopeStart: nat, offset: nat, k: nat)
    requires NoneFrom(ctes, scopeStart, offset, k)
    ensures VisibleOnes(ctes, scopeStart, offset) == VisibleOnes(ctes[..k], scopeStart, offset)
    decreases |ctes|
  {
    if k < |ctes| {
      var shorter := ctes[..|ctes| - 1];
      assert !Visible(ctes[|ctes| - 1], scopeStart, offset);
      NoMoreVisible(shorter, scopeStart, offset, k);
      assert shorter[..k] == ctes[..k];
    } else {
      assert ctes[..k] == ctes;
    }
  }

  ghost predicate ScopesIn(scopes: seq<(nat, nat)>, n: nat) {
    forall k :: 0 <= k < |scopes| ==> scopes[k].0 <= scopes[k].1 <= n
  }

  /** What the scopes around the cursor, outermost first, bind: an inner scope hides the outer ones. */
  ghost function VisibleInScopes(p: Parts, sql: string, scopes: seq<(nat, nat)>, offset: nat): map<string, Definition>
    requires ScopesIn(scopes, |sql|)
  {
    if scopes == [] then map[]
    else
      var s := scopes[|scopes| - 1];
      VisibleInScopes(p, sql, scopes[..|scopes| - 1], offset) + Bindings(p, VisibleOnes(p.ctes(sql[s.0..s.1]), s.0, offset), s.0)
  }

  /** The WITH names a query at the cursor can use: in each scope around it, the definitions whose body
      ends before the cursor, and the recursive one the cursor is in; each name stands for the definition
      that the scopes bind it to. */
  method VisibleCTEsAt(p: Parts, sql: string, offset: nat, scopes: seq<(nat, nat)>, base: nat, ghost n: nat) returns (visible: Analysis)
    requires Sound(p) && base + |sql| <= n && ScopesIn(scopes, |sql|)
    ensures CtesGrew(p, map[], visible.ctes, VisibleInScopes(p, sql, scopes, offset), base) && InDocument(visible, n)
  {
    visible := Inherited(None);
    for k := 0 to |scopes|
      invariant CtesGrew(p, map[], visible.ctes, VisibleInScopes(p, sql, scopes[..k], offset), base) && InDocument(visible, n)
    {
      var scope := scopes[k];
      var text := sql[scope.0..scope.1];
      var next := AddVisibleIn(p, visible, p.ctes(text), scope.0, offset, base, text, n);
      BoundTwice(ReferenceIn(p, base), map[], visible.ctes, next.ctes, VisibleInScopes(p, sql, scopes[..k], offset),
                 Bindings(p, VisibleOnes(p.ctes(text), scope.0, offset), scope.0));
      assert scopes[..k + 1][..k] == scopes[..k];
      visible := next;
    }
    assert scopes[..|scopes|] == scopes;
  }

  /** `c` is a definition of the scope that is visible at the cursor and has this key. */
  ghost predicate VisibleUnder(p: Parts, ctes: seq<Cte>, k: nat, scopeStart: nat, offset: nat, key: string) {
    && k < |ctes| && p.key(ctes[k].identifier) == key
    && var start, end := scopeStart + ctes[k].bodyStart, scopeStart + ctes[k].bodyStart + |ctes[k].body|;
       end < offset || (ctes[k].recursive && start <= offset <= end)
  }

  /** In one scope a key is bound exactly when a visible definition has it, and then to the last such. */
  lemma {:induction false} LastVisibleWins(p: Parts, ctes: seq<Cte>, scopeStart: nat, offset: nat, key: string)
    ensures var bound := Bindings(p, VisibleOnes(ctes, scopeStart, offset), scopeStart);
            && (key in bound <==> exists k: nat :: VisibleUnder(p, ctes, k, scopeStart, offset, key))
            && forall k: nat :: VisibleUnder(p, ctes, k, scopeStart, offset, key)
                                && (forall j: nat :: VisibleUnder(p, ctes, j, scopeStart, offset, key) ==> j <= k)
                 ==> key in bound && bound[key] == Definition(ctes[k], scopeStart)
  {
    if ctes != [] {
      var n := |ctes| - 1;
      var shorter := ctes[..n];
      LastVisibleWins(p, shorter, scopeStart, offset, key);
      assert ctes[..n + 1] == ctes;
      VisibleStep(p, ctes, scopeStart, offset, n);
      forall k: nat
        ensures VisibleUnder(p, ctes, k, scopeStart, offset, key) <==>
                VisibleUnder(p, shorter, k, scopeStart, offset, key) || (k == n && VisibleUnder(p, ctes, n, scopeStart, offset, key))
      {
        assert k < n ==> shorter[k] == ctes[k];
      }
      if VisibleUnder(p, ctes, n, scopeStart, offset, key) {
        assert forall k: nat :: VisibleUnder(p, ctes, k, scopeStart, offset, key) && n <= k ==> k == n;
      }
    }
  }

  /** Over all scopes a key means what the innermost scope that binds it says. */
  lemma {:induction false} InnermostWins(p: Parts, sql: string, scopes: seq<(nat, nat)>, offset: nat, key: string, i: nat)
    requires ScopesIn(scopes, |sql|) && i < |scopes|
    requires key in Bindings(p, VisibleOnes(p.ctes(sql[scopes[i].0..scopes[i].1]), scopes[i].0, offset), scopes[i].0)
    requires forall j :: i < j < |scopes| ==>
               key !in Bindings(p, VisibleOnes(p.ctes(sql[scopes[j].0..scopes[j].1]), scopes[j].0, offset), scopes[j].0)
    ensures key in VisibleInScopes(p, sql, scopes, offset)
    ensures VisibleInScopes(p, sql, scopes, offset)[key] ==
            Bindings(p, VisibleOnes(p.ctes(sql[scopes[i].0..scopes[i].1]), scopes[i].0, offset), scopes[i].0)[key]
  {
    if i < |scopes| - 1 {
      InnermostWins(p, sql, scopes[..|scopes| - 1], offset, key, i);
    }
  }
}
