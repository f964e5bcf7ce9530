/** The least-recently-used cache in front of query analysis. */
module AnalysisCache {
  import opened Wrappers

  /** A SHA-256 digest, read as a number. */
  type Digest = nat

  /** The compact facts about a query; what they are does not matter here. */
  datatype Analysis = Analysis(facts: string)

  // ----- Recency, as a specification -----

  ghost function Without(keys: seq<Digest>, k: Digest): seq<Digest>
  {
    if keys == [] then []
    else Without(keys[..|keys| - 1], k) + if keys[|keys| - 1] == k then [] else [keys[|keys| - 1]]
  }

  ghost function Take(keys: seq<Digest>, n: nat): seq<Digest> {
    if |keys| <= n then keys else keys[..n]
  }

  /** The distinct keys of a list of requests, the most recently requested first. */
  ghost function Recency(requests: seq<Digest>): seq<Digest>
  {
    if requests == [] then []
    else
      var k := requests[|requests| - 1];
      [k] + Without(Recency(requests[..|requests| - 1]), k)
  }

  ghost predicate Distinct(keys: seq<Digest>) {
    forall i, j :: 0 <= i < j < |keys| ==> keys[i] != keys[j]
  }

  /** What a request for `k` does to the keys of a cache with room for `capacity` of them. */
  ghost function Touch(keys: seq<Digest>, k: Digest, capacity: nat): seq<Digest> {
    Take([k] + Without(keys, k), capacity)
  }

  /** The keys of a cache after a list of requests. */
  ghost function KeysAfter(requests: seq<Digest>, capacity: nat): seq<Digest>
  {
    if requests == [] then []
    else Touch(KeysAfter(requests[..|requests| - 1], capacity), requests[|requests| - 1], capacity)
  }

  lemma {:induction false} WithoutMeaning(keys: seq<Digest>, k: Digest)
    ensures k !in Without(keys, k)
    ensures forall x :: x in Without(keys, k) <==> x in keys && x != k
    ensures Distinct(keys) ==> Distinct(Without(keys, k))
    ensures |Without(keys, k)| <= |keys|
    ensures k !in keys ==> Without(keys, k) == keys
    ensures k in keys ==> |Without(keys, k)| < |keys|
  {
    if keys != [] {
      var rest, last := keys[..|keys| - 1], keys[|keys| - 1];
      WithoutMeaning(rest, k);
      assert keys == rest + [last];
      var w := Without(rest, k);
      if Distinct(keys) && last != k {
        forall i | 0 <= i < |w|
          ensures w[i] != last
        {
          assert w[i] in w;
        }
      }
    }
  }

  /** A key that is listed once leaves a list that is one shorter. */
  lemma {:induction false} WithoutAt(keys: seq<Digest>, i: nat)
    requires Distinct(keys) && i < |keys|
    ensures Without(keys, keys[i]) == keys[..i] + keys[i + 1..]
  {
    var n := |keys| - 1;
    var rest := keys[..n];
    if i == n {
      WithoutMeaning(rest, keys[n]);
      assert keys[..n] + keys[n + 1..] == rest;
    } else {
      WithoutAt(rest, i);
      assert keys[i + 1..] == rest[i + 1..] + [keys[n]];
      assert rest[..i] == keys[..i];
    }
  }

  lemma AtMostOneRemoved(keys: seq<Digest>, k: Digest)
    requires Distinct(keys)
    ensures |keys| - 1 <= |Without(keys, k)|
  {
    WithoutMeaning(keys, k);
    if k in keys {
      var i :| 0 <= i < |keys| && keys[i] == k;
      WithoutAt(keys, i);
    }
  }

  /** Dropping the tail before a request or after it makes no difference to what is kept. */
  lemma {:induction false} TouchTaken(keys: seq<Digest>, k: Digest, capacity: nat)
    requires Distinct(keys) && capacity >= 1
    ensures Touch(Take(keys, capacity), k, capacity) == Touch(keys, k, capacity)
  {
    if |keys| > capacity {
      var rest := keys[..|keys| - 1];
      TouchTaken(rest, k, capacity);
      assert Take(keys, capacity) == Take(rest, capacity);
      AtMostOneRemoved(rest, k);
      TakeOfLonger([k] + Without(rest, k), if keys[|keys| - 1] == k then [] else [keys[|keys| - 1]], capacity);
      assert [k] + Without(keys, k) == [k] + Without(rest, k) + if keys[|keys| - 1] == k then [] else [keys[|keys| - 1]];
    }
  }

  lemma TakeOfLonger(a: seq<Digest>, b: seq<Digest>, n: nat)
    requires |a| >= n
    ensures Take(a + b, n) == Take(a, n)
  {
  }

  lemma {:induction false} RecencyDistinct(requests: seq<Digest>)
    ensures Distinct(Recency(requests))
    ensures forall k :: k in Recency(requests) <==> k in requests
  {
    if requests != [] {
      var n := |requests| - 1;
      RecencyDistinct(requests[..n]);
      WithoutMeaning(Recency(requests[..n]), requests[n]);
      assert requests == requests[..n] + [requests[n]];
    }
  }

  /** The cache holds exactly the `capacity` most recently requested distinct keys, in order. */
  lemma {:induction false} KeepsMostRecent(requests: seq<Digest>, capacity: nat)
    requires capacity >= 1
    ensures KeysAfter(requests, capacity) == Take(Recency(requests), capacity)
  {
    if requests != [] {
      var n := |requests| - 1;
      KeepsMostRecent(requests[..n], capacity);
      RecencyDistinct(requests[..n]);
      TouchTaken(Recency(requests[..n]), requests[n], capacity);
    }
  }

  /** A larger cache holds all that a smaller one holds, in the same places. */
  lemma Inclusion(requests: seq<Digest>, small: nat, large: nat)
    requires 1 <= small <= large
    ensures KeysAfter(requests, small) <= KeysAfter(requests, large)
  {
    KeepsMostRecent(requests, small);
    KeepsMostRecent(requests, large);
  }

  /** The index of the last request for `k`, or -1. */
  ghost function LastRequest(requests: seq<Digest>, k: Digest): int
  {
    if requests == [] then -1
    else if requests[|requests| - 1] == k then |requests| - 1
    else LastRequest(requests[..|requests| - 1], k)
  }

  lemma {:induction false} LastRequestBound(requests: seq<Digest>, k: Digest)
    ensures -1 <= LastRequest(requests, k) < |requests|
  {
    if requests != [] {
      LastRequestBound(requests[..|requests| - 1], k);
    }
  }

  /** Keys listed by falling index of their last request. */
  ghost predicate Falling(keys: seq<Digest>, requests: seq<Digest>) {
    forall i, j :: 0 <= i < j < |keys| ==> LastRequest(requests, keys[i]) > LastRequest(requests, keys[j])
  }

  lemma FallingSnoc(keys: seq<Digest>, k: Digest, requests: seq<Digest>)
    requires Falling(keys, requests) && forall x :: x in keys ==> LastRequest(requests, x) > LastRequest(requests, k)
    ensures Falling(keys + [k], requests)
  {
    assert forall i :: 0 <= i < |keys| ==> keys[i] in keys;
  }

  lemma SomewhereIn(keys: seq<Digest>, k: Digest, x: Digest)
    requires x in Without(keys, k)
    ensures exists i :: 0 <= i < |keys| && keys[i] == x
  {
    WithoutMeaning(keys, k);
  }

  lemma {:induction false} WithoutKeepsOrder(keys: seq<Digest>, k: Digest, requests: seq<Digest>)
    requires Falling(keys, requests)
    ensures Falling(Without(keys, k), requests)
  {
    if keys != [] {
      var rest, last := keys[..|keys| - 1], keys[|keys| - 1];
      WithoutKeepsOrder(rest, k, requests);
      WithoutMeaning(rest, k);
      var w := Without(rest, k);
      forall x | x in w
        ensures LastRequest(requests, x) > LastRequest(requests, last)
      {
        SomewhereIn(rest, k, x);
        var i :| 0 <= i < |rest| && rest[i] == x;
        assert keys[i] == x;
      }
      FallingSnoc(Without(rest, k), last, requests);
    }
  }

  /** In the recency list, a key comes before another when its last request is the later one. */
  lemma {:induction false} RecencyByLastRequest(requests: seq<Digest>)
    ensures Falling(Recency(requests), requests)
  {
    if requests != [] {
      var n := |requests| - 1;
      RecencyByLastRequest(requests[..n]);
      RequestFirst(requests, n, requests[n], Recency(requests[..n]));
    }
  }

  lemma RequestFirst(requests: seq<Digest>, n: nat, k: Digest, before: seq<Digest>)
    requires |requests| == n + 1 && k == requests[n] && Falling(before, requests[..n])
    ensures Falling([k] + Without(before, k), requests)
  {
    WithoutKeepsOrder(before, k, requests[..n]);
    var w := Without(before, k);
    WithoutMeaning(before, k);
    forall i | 0 <= i < |w|
      ensures LastRequest(requests, w[i]) == LastRequest(requests[..n], w[i]) < n
    {
      assert w[i] in w;
      LastRequestBound(requests[..n], w[i]);
    }
  }

  lemma MovedAt<T>(s: seq<T>, i: nat, m: nat)
    requires i < |s| && m < |s|
    ensures ([s[i]] + (s[..i] + s[i + 1..]))[m] == s[if m == 0 then i else if m <= i then m - 1 else m]
  {
  }

  lemma MovedToFront(s: seq<Digest>, i: nat)
    requires Distinct(s) && i < |s|
    ensures Distinct([s[i]] + (s[..i] + s[i + 1..]))
    ensures forall x :: x in [s[i]] + (s[..i] + s[i + 1..]) <==> x in s
  {
    assert s == s[..i] + [s[i]] + s[i + 1..];
  }

  lemma InAllButLast(s: seq<Digest>)
    requires s != [] && Distinct(s)
    ensures Distinct(s[..|s| - 1])
    ensures forall x :: x in s[..|s| - 1] <==> x in s && x != s[|s| - 1]
  {
    assert s == s[..|s| - 1] + [s[|s| - 1]];
  }

  // ----- The cache -----

  /** An element of the recency list; the map and the list share it. */
  class Element {
    var key: Digest
    var analysis: Analysis

    constructor (key: Digest, analysis: Analysis)
      ensures this.key == key && this.analysis == analysis
    {
      this.key := key;
      this.analysis := analysis;
    }
  }

  class QueryAnalysisCache {
    const capacity: nat
    var entries: map<Digest, Element>
    var lru: seq<Element>

    // The keys, most recently used first; what is stored under each; the elements in use.
    ghost var keys: seq<Digest>
    ghost var answers: map<Digest, Analysis>
    ghost var Repr: set<Element>

    /** Place `i` of the list, and what the map says about its key. */
    ghost predicate Placed(i: nat)
      requires i < |lru| && i < |keys|
      reads this, lru[i]
    {
      && keys[i] in entries && entries[keys[i]] == lru[i] && lru[i].key == keys[i] && lru[i] in Repr
      && (keys[i] in answers ==> answers[keys[i]] == lru[i].analysis)
    }

    /** Map and list hold the same elements, one for every key. */
    ghost predicate Consistent()
      reads this, Repr, lru
    {
      && |lru| == |keys| && Distinct(keys)
      && (forall i :: 0 <= i < |keys| ==> Placed(i))
      && (forall k :: k in entries <==> k in keys)
      && answers.Keys == entries.Keys
    }

    ghost predicate Valid()
      reads this, Repr, lru
    {
      1 <= capacity && |keys| <= capacity && Consistent()
    }

    constructor (capacity: int)
      ensures Valid() && fresh(Repr) && keys == [] && answers == map[]
      ensures this.capacity == if capacity < 1 then 1 else capacity
    {
      this.capacity := if capacity < 1 then 1 else capacity;
      entries, lru := map[], [];
      keys, answers, Repr := [], map[], {};
    }

    method IndexOf(e: Element) returns (i: nat)
      requires e in lru
      ensures i < |lru| && lru[i] == e
    {
      i := 0;
      while lru[i] != e
        invariant i < |lru| && e !in lru[..i]
        decreases |lru| - i
      {
        i := i + 1;
      }
    }

    /** The list's MoveToFront. */
    method MoveToFront(e: Element)
      requires Consistent() && e in lru
      modifies this`lru, this`keys
      ensures Consistent() && keys == [e.key] + Without(old(keys), e.key) && |keys| == |old(keys)|
    {
      var i := IndexOf(e);
      assert Placed(i);
      ghost var was := keys;
      WithoutAt(was, i);
      MovedToFront(was, i);
      lru := [lru[i]] + (lru[..i] + lru[i + 1..]);
      keys := [was[i]] + (was[..i] + was[i + 1..]);
      forall m | 0 <= m < |keys|
        ensures Placed(m)
      {
        MovedAt(was, i, m);
        MovedAt(old(lru), i, m);
        assert old(Placed(if m == 0 then i else if m <= i then m - 1 else m));
      }
    }

    method Get(key: Digest) returns (r: Option<Analysis>)
      requires Valid()
      modifies this`lru, this`keys
      ensures Valid()
      ensures r == if key in answers then Some(answers[key]) else None
      ensures keys == if key in answers then [key] + Without(old(keys), key) else old(keys)
    {
      if key !in entries {
        return None;
      }
      var element := entries[key];
      Listed(key);
      MoveToFront(element);
      return Some(element.analysis);
    }

    lemma Listed(key: Digest)
      requires Consistent() && key in entries
      ensures key in keys && entries[key] in lru && entries[key] in Repr && entries[key].key == key
      ensures key in answers && answers[key] == entries[key].analysis
    {
      var i :| 0 <= i < |keys| && keys[i] == key;
      assert Placed(i);
    }

    method Add(key: Digest, analysis: Analysis)
      requires Valid()
      modifies this`entries, this`lru, this`keys, this`answers, this`Repr, Repr
      ensures Valid() && fresh(Repr - old(Repr))
      ensures keys == Touch(old(keys), key, capacity)
      ensures key in answers && answers[key] == analysis
      ensures forall k :: k in answers && k != key ==> k in old(answers) && answers[k] == old(answers)[k]
    {
      if key in entries {
        Replace(key, analysis);
        return;
      }
      WithoutMeaning(keys, key);
      AddNew(key, analysis);
    }

    /** Add, for a key that is not stored yet. */
    method AddNew(key: Digest, analysis: Analysis)
      requires Valid() && key !in keys
      modifies this`entries, this`lru, this`keys, this`answers, this`Repr
      ensures Valid() && fresh(Repr - old(Repr))
      ensures keys == Take([key] + old(keys), capacity)
      ensures key in answers && answers[key] == analysis
      ensures forall k :: k in answers && k != key ==> k in old(answers) && answers[k] == old(answers)[k]
    {
      PushNew(key, analysis);
      assert keys[0] == key;
      if |lru| <= capacity {
        return;
      }
      assert keys[|keys| - 1] != key;
      DropOldest();
    }

    /** Add, for a key that is stored already. */
    method Replace(key: Digest, analysis: Analysis)
      requires Consistent() && key in entries
      modifies this`lru, this`keys, this`answers, Repr
      ensures Consistent()
      ensures keys == [key] + Without(old(keys), key) && |keys| == |old(keys)|
      ensures answers == old(answers)[key := analysis]
    {
      Listed(key);
      var existing := entries[key];
      existing.analysis := analysis;
      answers := answers[key := analysis];
      forall i | 0 <= i < |keys|
        ensures Placed(i)
      {
        assert old(Placed(i));
      }
      MoveToFront(existing);
    }

    /** The list's PushFront, with the entry recorded in the map. */
    method PushNew(key: Digest, analysis: Analysis)
      requires Consistent() && key !in keys
      modifies this`entries, this`lru, this`keys, this`answers, this`Repr
      ensures Consistent() && fresh(Repr - old(Repr))
      ensures keys == [key] + old(keys)
      ensures answers == old(answers)[key := analysis]
    {
      var element := new Element(key, analysis);
      lru := [element] + lru;
      entries := entries[key := element];
      keys := [key] + keys;
      answers := answers[key := analysis];
      Repr := Repr + {element};
      forall i | 0 <= i < |keys|
        ensures Placed(i)
      {
        if i > 0 {
          assert old(Placed(i - 1));
        }
      }
    }

    /** Removes the list's Back, from the map as well. */
    method DropOldest()
      requires Consistent() && |lru| > 0
      modifies this`entries, this`lru, this`keys, this`answers
      ensures Consistent()
      ensures keys == old(keys)[..|old(keys)| - 1]
      ensures answers == old(answers) - {old(keys)[|old(keys)| - 1]}
    {
      var n := |lru| - 1;
      var oldest := lru[n];
      assert Placed(n);
      InAllButLast(keys);
      entries := entries - {oldest.key};
      lru := lru[..n];
      answers := answers - {keys[n]};
      keys := keys[..n];
      forall i | 0 <= i < |keys|
        ensures Placed(i)
      {
        assert old(Placed(i));
      }
    }
  }

  // ----- Analysis through the cache -----

  const NUL := '\0'

  /** The text whose digest is the cache key. */
  function KeyText(query: string, options: string): string {
    query + [NUL] + options
  }

  /** Options are JSON, in which a NUL byte never appears unescaped; so the text determines the
      query and the options it was made from. */
  lemma KeyTextInjective(query: string, options: string, query': string, options': string)
    requires NUL !in options && NUL !in options'
    requires KeyText(query, options) == KeyText(query', options')
    ensures query == query' && options == options'
  {
    if |query| < |query'| {
      LaterSeparator(query, options, query', options');
    } else if |query'| < |query| {
      LaterSeparator(query', options', query, options);
    } else {
      assert query == KeyText(query, options)[..|query|];
      assert options == KeyText(query, options)[|query| + 1..];
    }
  }

  lemma LaterSeparator(query: string, options: string, query': string, options': string)
    requires KeyText(query, options) == KeyText(query', options') && |query| < |query'|
    ensures NUL in options
  {
    var i := |query'| - |query| - 1;
    assert KeyText(query, options)[|query'|] == options[i];
    assert KeyText(query', options')[|query'|] == NUL;
  }

  datatype Failure = Cancelled | EmptySql | BadOptions | AnalysisFailed

  /** A call of AnalyzeQuery: the query, the options text if marshalling succeeds, and whether
      the context is found cancelled at the start, before the analysis, and after it. */
  datatype Request = Request(query: string, options: Option<string>, cancelled: bool, cancelledBefore: bool, cancelledAfter: bool)

  /** The libraries that AnalyzeQuery rests on: trimming, SHA-256, and the query analyzer. */
  datatype Libraries = Libraries(
    trim: string -> string, sha256: string -> Digest, analyze: (string, string) -> Option<Analysis>)
  {
    /** Distinct texts have distinct digests. */
    ghost predicate CollisionFree() {
      forall s, t :: sha256(s) == sha256(t) ==> s == t
    }

    function Key(query: string, options: string): Digest {
      sha256(KeyText(query, options))
    }
  }

  /** Every stored answer is what the analyzer says about its query and options. */
  ghost predicate Truthful(lib: Libraries, answers: map<Digest, Analysis>) {
    forall query, options :: NUL !in options && lib.Key(query, options) in answers ==>
      lib.analyze(query, options) == Some(answers[lib.Key(query, options)])
  }

  lemma StaysTruthful(lib: Libraries, before: map<Digest, Analysis>, after: map<Digest, Analysis>, query: string, options: string)
    requires lib.CollisionFree() && Truthful(lib, before) && NUL !in options
    requires var key := lib.Key(query, options);
             && key in after && lib.analyze(query, options) == Some(after[key])
             && forall k :: k in after && k != key ==> k in before && after[k] == before[k]
    ensures Truthful(lib, after)
  {
    forall query', options' | NUL !in options' && lib.Key(query', options') in after
      ensures lib.analyze(query', options') == Some(after[lib.Key(query', options')])
    {
      if lib.Key(query', options') == lib.Key(query, options) {
        KeyTextInjective(query, options, query', options');
      }
    }
  }

  /** What a request comes to when there is no cache. */
  function Uncached(lib: Libraries, r: Request): Result<Analysis, Failure> {
    if r.cancelled then Err(Cancelled)
    else if lib.trim(r.query) == "" then Err(EmptySql)
    else if r.options.None? then Err(BadOptions)
    else if r.cancelledBefore then Err(Cancelled)
    else
      match lib.analyze(r.query, r.options.value)
      case None => Err(AnalysisFailed)
      case Some(a) => if r.cancelledAfter then Err(Cancelled) else Ok(a)
  }

  /** The same with the context's later cancellations ignored. */
  function Undisturbed(lib: Libraries, r: Request): Result<Analysis, Failure> {
    Uncached(lib, r.(cancelledBefore := false, cancelledAfter := false))
  }

  /** Answers from the cache are indistinguishable from fresh ones, except that a cached answer
      is given even when the context is cancelled after the start; only successful requests
      leave a trace, and they make their key the most recent one. */
  method AnalyzeQuery(lib: Libraries, cache: QueryAnalysisCache, r: Request) returns (answer: Result<Analysis, Failure>)
    requires cache.Valid() && lib.CollisionFree() && Truthful(lib, cache.answers)
    requires r.options.Some? ==> NUL !in r.options.value
    modifies cache, cache.Repr
    ensures cache.Valid() && fresh(cache.Repr - old(cache.Repr)) && Truthful(lib, cache.answers)
    ensures answer == Uncached(lib, r) || (answer.Ok? && answer == Undisturbed(lib, r))
    ensures r.cancelled ==> answer == Err(Cancelled)
    ensures !r.cancelled && lib.trim(r.query) == "" ==> answer == Err(EmptySql)
    ensures !r.cancelled && lib.trim(r.query) != "" && r.options.None? ==> answer == Err(BadOptions)
    ensures !r.cancelled && lib.trim(r.query) != "" && r.options.Some? ==>
              if lib.Key(r.query, r.options.value) in old(cache.answers) then answer == Ok(old(cache.answers)[lib.Key(r.query, r.options.value)])
              else if r.cancelledBefore then answer == Err(Cancelled)
              else if lib.analyze(r.query, r.options.value).None? then answer == Err(AnalysisFailed)
              else if r.cancelledAfter then answer == Err(Cancelled)
              else answer == Ok(lib.analyze(r.query, r.options.value).value)
    ensures answer.Ok? ==> r.options.Some? && cache.keys == Touch(old(cache.keys), lib.Key(r.query, r.options.value), cache.capacity)
    ensures answer.Err? ==> cache.keys == old(cache.keys) && cache.answers == old(cache.answers)
  {
    if r.cancelled {
      return Err(Cancelled);
    }
    if lib.trim(r.query) == "" {
      return Err(EmptySql);
    }
    if r.options.None? {
      return Err(BadOptions);
    }
    var options := r.options.value;
    var key := lib.Key(r.query, options);
    WithoutMeaning(cache.keys, key);
    var cached := cache.Get(key);
    if cached.Some? {
      return Ok(cached.value);
    }
    if r.cancelledBefore {
      return Err(Cancelled);
    }
    var analysis := lib.analyze(r.query, options);
    if analysis.None? {
      return Err(AnalysisFailed);
    }
    if r.cancelledAfter {
      return Err(Cancelled);
    }
    ghost var before := cache.answers;
    cache.Add(key, analysis.value);
    StaysTruthful(lib, before, cache.answers, r.query, options);
    return Ok(analysis.value);
  }

  datatype Exchange = Exchange(request: Request, answer: Result<Analysis, Failure>)

  function AnsweredKey(lib: Libraries, e: Exchange): seq<Digest> {
    if e.answer.Ok? && e.request.options.Some? then [lib.Key(e.request.query, e.request.options.value)] else []
  }

  /** The keys of the requests that were answered, in order. */
  ghost function AnsweredKeys(lib: Libraries, log: seq<Exchange>): seq<Digest>
  {
    if log == [] then [] else AnsweredKeys(lib, log[..|log| - 1]) + AnsweredKey(lib, log[|log| - 1])
  }

  /** What has been answered so far accounts for every answer and for the keys in the cache. */
  ghost predicate Accounted(lib: Libraries, log: seq<Exchange>, keys: seq<Digest>, capacity: nat) {
    && (forall e :: e in log && e.answer.Ok? ==> e.answer == Undisturbed(lib, e.request))
    && keys == KeysAfter(AnsweredKeys(lib, log), capacity)
  }

  method Serve(lib: Libraries, cache: QueryAnalysisCache, r: Request, ghost log: seq<Exchange>) returns (e: Exchange)
    requires cache.Valid() && lib.CollisionFree() && Truthful(lib, cache.answers)
    requires r.options.Some? ==> NUL !in r.options.value
    requires Accounted(lib, log, cache.keys, cache.capacity)
    modifies cache, cache.Repr
    ensures cache.Valid() && fresh(cache.Repr - old(cache.Repr)) && Truthful(lib, cache.answers)
    ensures e.request == r && Accounted(lib, log + [e], cache.keys, cache.capacity)
  {
    var answer := AnalyzeQuery(lib, cache, r);
    e := Exchange(r, answer);
    AccountedSnoc(lib, log, e, old(cache.keys), cache.keys, cache.capacity);
  }

  lemma AccountedSnoc(lib: Libraries, log: seq<Exchange>, e: Exchange, keys: seq<Digest>, keys': seq<Digest>, capacity: nat)
    requires Accounted(lib, log, keys, capacity)
    requires e.answer.Ok? ==> e.request.options.Some? && e.answer == Undisturbed(lib, e.request)
    requires keys' == if e.answer.Ok? then Touch(keys, lib.Key(e.request.query, e.request.options.value), capacity) else keys
    ensures Accounted(lib, log + [e], keys', capacity)
  {
    AnsweredSnoc(lib, log, e, capacity);
  }

  /** Any sequence of requests to a new cache: every answer given is the analyzer's own, and the
      cache ends up with the most recently answered keys, as many as fit. */
  method AnalyzeAll(lib: Libraries, capacity: int, requests: seq<Request>) returns (log: seq<Exchange>, cache: QueryAnalysisCache)
    requires lib.CollisionFree()
    requires forall r :: r in requests && r.options.Some? ==> NUL !in r.options.value
    ensures |log| == |requests| && forall i :: 0 <= i < |log| ==> log[i].request == requests[i]
    ensures forall e :: e in log && e.answer.Ok? ==> e.answer == Undisturbed(lib, e.request)
    ensures cache.Valid() && cache.keys == Take(Recency(AnsweredKeys(lib, log)), cache.capacity)
  {
    cache := new QueryAnalysisCache(capacity);
    log := [];
    for i := 0 to |requests|
      invariant cache.Valid() && fresh(cache) && fresh(cache.Repr) && Truthful(lib, cache.answers)
      invariant |log| == i && forall j :: 0 <= j < i ==> log[j].request == requests[j]
      invariant Accounted(lib, log, cache.keys, cache.capacity)
    {
      var e := Serve(lib, cache, requests[i], log);
      log := log + [e];
    }
    KeepsMostRecent(AnsweredKeys(lib, log), cache.capacity);
  }

  lemma AnsweredSnoc(lib: Libraries, log: seq<Exchange>, e: Exchange, capacity: nat)
    ensures KeysAfter(AnsweredKeys(lib, log + [e]), capacity) ==
              if AnsweredKey(lib, e) == [] then KeysAfter(AnsweredKeys(lib, log), capacity)
              else Touch(KeysAfter(AnsweredKeys(lib, log), capacity), AnsweredKey(lib, e)[0], capacity)
  {
    assert (log + [e])[..|log|] == log;
    var before := AnsweredKeys(lib, log);
    assert before + [] == before;
    if AnsweredKey(lib, e) != [] {
      assert (before + AnsweredKey(lib, e))[..|before|] == before;
    }
  }

  // ----- Concurrent callers -----

  /** What a caller asks about. */
  datatype Wanted = Wanted(query: string, options: string)

  /** The cache, and the callers that have missed and not stored an answer yet. */
  datatype Shared = Shared(keys: seq<Digest>, answers: map<Digest, Analysis>, waiting: map<nat, Wanted>)

  /** The lock is held for one lookup or one store; in between, other callers come and go. */
  datatype Event =
    | Hit(caller: nat, wanted: Wanted, answer: Analysis)
    | Missed(caller: nat, wanted: Wanted)
    | Stored(caller: nat, wanted: Wanted, answer: Analysis)
    | GaveUp(caller: nat)

  ghost predicate Next(lib: Libraries, capacity: nat, s: Shared, e: Event, s': Shared) {
    match e
    case Hit(caller, w, answer) =>
      var key := lib.Key(w.query, w.options);
      && caller !in s.waiting && NUL !in w.options && key in s.answers && answer == s.answers[key]
      && s' == s.(keys := [key] + Without(s.keys, key))
    case Missed(caller, w) =>
      && caller !in s.waiting && NUL !in w.options && lib.Key(w.query, w.options) !in s.answers
      && s' == s.(waiting := s.waiting[caller := w])
    case Stored(caller, w, answer) =>
      var key := lib.Key(w.query, w.options);
      && caller in s.waiting && s.waiting[caller] == w && lib.analyze(w.query, w.options) == Some(answer)
      && s'.keys == Touch(s.keys, key, capacity) && s'.waiting == s.waiting - {caller}
      && s'.answers == map k | k in s.answers.Keys + {key} && k in s'.keys :: if k == key then answer else s.answers[k]
    case GaveUp(caller) =>
      caller in s.waiting && s' == s.(waiting := s.waiting - {caller})
  }

  ghost predicate Sound(lib: Libraries, capacity: nat, s: Shared) {
    && Distinct(s.keys) && |s.keys| <= capacity
    && (forall k :: k in s.answers <==> k in s.keys)
    && Truthful(lib, s.answers)
    && (forall caller :: caller in s.waiting ==> NUL !in s.waiting[caller].options)
  }

  lemma TouchDistinct(keys: seq<Digest>, k: Digest, capacity: nat)
    requires Distinct(keys) && capacity >= 1
    ensures Distinct([k] + Without(keys, k)) && Distinct(Touch(keys, k, capacity)) && |Touch(keys, k, capacity)| <= capacity
    ensures forall x :: x in [k] + Without(keys, k) <==> x in keys || x == k
    ensures forall x :: x in Touch(keys, k, capacity) ==> x in keys || x == k
    ensures k in Touch(keys, k, capacity)
    ensures k in keys && |keys| <= capacity ==> Touch(keys, k, capacity) == [k] + Without(keys, k)
  {
    WithoutMeaning(keys, k);
    var all := [k] + Without(keys, k);
    forall i | 1 <= i < |all|
      ensures all[i] != k
    {
      assert all[i] in Without(keys, k);
    }
    assert all[0] == k && Touch(keys, k, capacity)[0] == k;
  }

  /** Every step of every caller keeps the stored answers true, whoever stored them. */
  lemma NextKeepsSound(lib: Libraries, capacity: nat, s: Shared, e: Event, s': Shared)
    requires lib.CollisionFree() && capacity >= 1 && Sound(lib, capacity, s) && Next(lib, capacity, s, e, s')
    ensures Sound(lib, capacity, s')
  {
    match e
    case Hit(caller, w, answer) =>
      TouchDistinct(s.keys, lib.Key(w.query, w.options), capacity);
    case Missed(caller, w) =>
    case Stored(caller, w, answer) =>
      TouchDistinct(s.keys, lib.Key(w.query, w.options), capacity);
      StaysTruthful(lib, s.answers, s'.answers, w.query, w.options);
    case GaveUp(caller) =>
  }

  ghost predicate Runs(lib: Libraries, capacity: nat, states: seq<Shared>, events: seq<Event>) {
    && |states| == |events| + 1 && states[0] == Shared([], map[], map[])
    && forall i :: 0 <= i < |events| ==> Next(lib, capacity, states[i], events[i], states[i + 1])
  }

  function Used(lib: Libraries, e: Event): seq<Digest> {
    if e.Hit? || e.Stored? then [lib.Key(e.wanted.query, e.wanted.options)] else []
  }

  /** The keys in the order in which they were looked up with success or stored. */
  ghost function Uses(lib: Libraries, events: seq<Event>): seq<Digest> {
    if events == [] then [] else Uses(lib, events[..|events| - 1]) + Used(lib, events[|events| - 1])
  }

  lemma KeysStep(lib: Libraries, capacity: nat, s: Shared, e: Event, s': Shared)
    requires capacity >= 1 && Sound(lib, capacity, s) && Next(lib, capacity, s, e, s')
    ensures s'.keys == if Used(lib, e) == [] then s.keys else Touch(s.keys, Used(lib, e)[0], capacity)
  {
    if e.Hit? {
      TouchDistinct(s.keys, lib.Key(e.wanted.query, e.wanted.options), capacity);
    }
  }

  lemma UsesSnoc(lib: Libraries, events: seq<Event>, i: nat, capacity: nat)
    requires i < |events|
    ensures KeysAfter(Uses(lib, events[..i + 1]), capacity) ==
            if Used(lib, events[i]) == [] then KeysAfter(Uses(lib, events[..i]), capacity)
            else Touch(KeysAfter(Uses(lib, events[..i]), capacity), Used(lib, events[i])[0], capacity)
  {
    assert events[..i + 1][..i] == events[..i];
    var before := Uses(lib, events[..i]);
    assert before + [] == before;
    if Used(lib, events[i]) != [] {
      assert (before + Used(lib, events[i]))[..|before|] == before;
    }
  }

  lemma {:induction false} RunKeys(lib: Libraries, capacity: nat, states: seq<Shared>, events: seq<Event>, i: nat)
    requires lib.CollisionFree() && capacity >= 1 && Runs(lib, capacity, states, events) && i < |states|
    ensures Sound(lib, capacity, states[i]) && states[i].keys == KeysAfter(Uses(lib, events[..i]), capacity)
  {
    if i > 0 {
      RunKeys(lib, capacity, states, events, i - 1);
      NextKeepsSound(lib, capacity, states[i - 1], events[i - 1], states[i]);
      KeysStep(lib, capacity, states[i - 1], events[i - 1], states[i]);
      UsesSnoc(lib, events, i - 1, capacity);
    }
  }

  /** However callers interleave, two of them analyzing one query at the same time included: the cache always holds
      the most recently used keys, as many as fit, and every answer given is the analyzer's own. */
  lemma ConcurrentAnswersAreTrue(lib: Libraries, capacity: nat, states: seq<Shared>, events: seq<Event>, i: nat)
    requires lib.CollisionFree() && capacity >= 1 && Runs(lib, capacity, states, events) && i < |events|
    ensures states[i].keys == Take(Recency(Uses(lib, events[..i])), capacity)
    ensures events[i].Hit? || events[i].Stored? ==> lib.analyze(events[i].wanted.query, events[i].wanted.options) == Some(events[i].answer)
  {
    RunKeys(lib, capacity, states, events, i);
    KeepsMostRecent(Uses(lib, events[..i]), capacity);
    assert Next(lib, capacity, states[i], events[i], states[i + 1]);
  }
}
