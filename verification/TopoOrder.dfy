/** The order in which schemas are inferred: Kahn's algorithm with a queue kept sorted by input
    index, followed by whatever a cycle holds up. */
module TopoOrder {
  import opened Wrappers

  /** The names an asset goes by, its query, and the names of its upstreams. */
  datatype Asset = Asset(id: string, name: string, uri: string, sql: string, upstreams: seq<string>)

  /** The string library's TrimSpace and ToLower; nothing is assumed about them. */
  datatype Strings = Strings(trim: string -> string, lower: string -> string) {
    function Key(s: string): string {
      lower(trim(s))
    }
  }

  // ----- Resolving names -----

  predicate GoesBy(s: Strings, a: Asset, key: string) {
    || (s.trim(a.id) != "" && s.Key(a.id) == key)
    || (s.trim(a.name) != "" && s.Key(a.name) == key)
    || (s.trim(a.uri) != "" && s.Key(a.uri) == key)
  }

  /** The last of the first `n` assets that goes by `key`. */
  ghost function Resolve(s: Strings, targets: seq<Asset>, n: nat, key: string): Option<nat>
    requires n <= |targets|
  {
    if n == 0 then None
    else if GoesBy(s, targets[n - 1], key) then Some(n - 1)
    else Resolve(s, targets, n - 1, key)
  }

  /** The indices that the first `m` upstream names of asset `i` resolve to, itself left out. */
  ghost function Deps(s: Strings, targets: seq<Asset>, i: nat, m: nat): (d: seq<nat>)
    requires i < |targets| && m <= |targets[i].upstreams|
    ensures forall j :: j in d ==> j < |targets| && j != i
  {
    if m == 0 then [] else
      var d := Deps(s, targets, i, m - 1);
      ResolveBound(s, targets, |targets|, s.Key(targets[i].upstreams[m - 1]));
      match Resolve(s, targets, |targets|, s.Key(targets[i].upstreams[m - 1]))
      case Some(j) => if j == i then d else d + [j]
      case None => d
  }

  lemma {:induction false} ResolveBound(s: Strings, targets: seq<Asset>, n: nat, key: string)
    requires n <= |targets|
    ensures match Resolve(s, targets, n, key) case Some(j) => j < n && GoesBy(s, targets[j], key) case None => true
  {
    if n > 0 {
      ResolveBound(s, targets, n - 1, key);
    }
  }

  /** For every asset, the indices of its upstreams among the targets. */
  type Graph = seq<seq<nat>>

  ghost predicate IsGraph(g: Graph) {
    forall i :: 0 <= i < |g| ==> forall j :: j in g[i] ==> j < |g| && j != i
  }

  ghost function GraphOf(s: Strings, targets: seq<Asset>): (g: Graph)
    ensures |g| == |targets| && IsGraph(g)
  {
    seq(|targets|, i requires 0 <= i < |targets| => Deps(s, targets, i, |targets[i].upstreams|))
  }

  /** One of the asset's names is the upstream's name, up to case and white space around them. */
  ghost predicate Called(s: Strings, a: Asset, upstream: string) {
    exists name :: name in [a.id, a.name, a.uri] && s.trim(name) != "" && s.lower(s.trim(name)) == s.lower(s.trim(upstream))
  }

  /** The last asset that is called so. */
  ghost predicate LastCalled(s: Strings, targets: seq<Asset>, upstream: string, j: nat) {
    j < |targets| && Called(s, targets[j], upstream) && forall k :: j < k < |targets| ==> !Called(s, targets[k], upstream)
  }

  lemma CalledIff(s: Strings, a: Asset, upstream: string)
    ensures GoesBy(s, a, s.Key(upstream)) <==> Called(s, a, upstream)
  {
    if GoesBy(s, a, s.Key(upstream)) {
      assert a.id in [a.id, a.name, a.uri] && a.name in [a.id, a.name, a.uri] && a.uri in [a.id, a.name, a.uri];
    }
  }

  lemma {:induction false} ResolvedIsLast(s: Strings, targets: seq<Asset>, n: nat, upstream: string)
    requires n <= |targets|
    ensures match Resolve(s, targets, n, s.Key(upstream))
            case Some(j) => j < n && Called(s, targets[j], upstream) && forall k :: j < k < n ==> !Called(s, targets[k], upstream)
            case None => forall k :: 0 <= k < n ==> !Called(s, targets[k], upstream)
  {
    if n > 0 {
      ResolvedIsLast(s, targets, n - 1, upstream);
      CalledIff(s, targets[n - 1], upstream);
    }
  }

  lemma {:induction false} DepsAre(s: Strings, targets: seq<Asset>, i: nat, m: nat, j: nat)
    requires i < |targets| && m <= |targets[i].upstreams|
    ensures j in Deps(s, targets, i, m) <==> j != i && exists k :: 0 <= k < m && LastCalled(s, targets, targets[i].upstreams[k], j)
  {
    if m > 0 {
      DepsAre(s, targets, i, m - 1, j);
      ResolvedIsLast(s, targets, |targets|, targets[i].upstreams[m - 1]);
    }
  }

  /** The graph has an edge exactly where an asset names another as an upstream: the last one called so by its
      identifier, name or location, itself excepted. */
  lemma EdgesAre(s: Strings, targets: seq<Asset>, i: nat, j: nat)
    requires i < |targets|
    ensures j in GraphOf(s, targets)[i] <==>
              j != i && exists k :: 0 <= k < |targets[i].upstreams| && LastCalled(s, targets, targets[i].upstreams[k], j)
  {
    DepsAre(s, targets, i, |targets[i].upstreams|, j);
  }

  // ----- The order, as a specification -----

  ghost predicate Ready(g: Graph, done: seq<nat>, i: nat) {
    i < |g| && i !in done && forall j :: j in g[i] ==> j in done
  }

  /** The least asset from `i` on that is ready. */
  ghost function FirstReady(g: Graph, done: seq<nat>, i: nat): Option<nat>
    decreases |g| - i
  {
    if i >= |g| then None
    else if Ready(g, done, i) then Some(i)
    else FirstReady(g, done, i + 1)
  }

  lemma {:induction false} FirstReadyIsLeast(g: Graph, done: seq<nat>, i: nat)
    ensures match FirstReady(g, done, i)
            case Some(r) => i <= r < |g| && Ready(g, done, r) && forall k :: i <= k < r ==> !Ready(g, done, k)
            case None => forall k :: i <= k ==> !Ready(g, done, k)
    decreases |g| - i
  {
    if i < |g| && !Ready(g, done, i) {
      FirstReadyIsLeast(g, done, i + 1);
    }
  }

  ghost predicate Distinct(order: seq<nat>) {
    forall i, j :: 0 <= i < j < |order| ==> order[i] != order[j]
  }

  /** Different indices below `n`: there are at most `n` of them. */
  ghost predicate Indices(order: seq<nat>, n: nat) {
    Distinct(order) && forall i :: i in order ==> i < n
  }

  lemma {:induction false} AtMostAll(order: seq<nat>, n: nat)
    requires Indices(order, n)
    ensures |order| <= n
    decreases n
  {
    if order != [] {
      assert order[0] in order;
      if n - 1 in order {
        var k :| 0 <= k < |order| && order[k] == n - 1;
        var rest := order[..k] + order[k + 1..];
        forall i | i in rest
          ensures i < n - 1
        {
          assert i in order;
        }
        AtMostAll(rest, n - 1);
      } else {
        AtMostAll(order, n - 1);
      }
    }
  }

  /** Always taking the least asset that is ready, after `done`. */
  ghost function GreedyFrom(g: Graph, done: seq<nat>): seq<nat>
    requires Indices(done, |g|)
    decreases |g| - |done|
  {
    AtMostAll(done, |g|);
    FirstReadyIsLeast(g, done, 0);
    match FirstReady(g, done, 0)
    case None => []
    case Some(i) =>
      AtMostAll(done + [i], |g|);
      [i] + GreedyFrom(g, done + [i])
  }

  ghost function Greedy(g: Graph): seq<nat> {
    GreedyFrom(g, [])
  }

  /** The indices from `i` on that are not in `order`, in input order. */
  ghost function Held(n: nat, order: seq<nat>, i: nat): seq<nat>
    decreases n - i
  {
    if i >= n then [] else (if i in order then [] else [i]) + Held(n, order, i + 1)
  }

  ghost function Pick(targets: seq<Asset>, order: seq<nat>): seq<Asset>
    requires forall i :: i in order ==> i < |targets|
  {
    seq(|order|, k requires 0 <= k < |order| => assert order[k] in order; targets[order[k]])
  }

  // ----- What the order means -----

  /** Every asset comes after all its upstreams, and none comes twice. */
  ghost predicate Topological(g: Graph, order: seq<nat>) {
    && Indices(order, |g|)
    && forall k :: 0 <= k < |order| ==> Ready(g, order[..k], order[k])
  }

  lemma TopologicalSnoc(g: Graph, done: seq<nat>, i: nat)
    requires Topological(g, done) && Ready(g, done, i)
    ensures Topological(g, done + [i]) && |done| < |g|
  {
    var more := done + [i];
    assert forall k :: 0 <= k < |done| ==> done[k] in done;
    AtMostAll(more, |g|);
    forall k | 0 <= k < |more|
      ensures Ready(g, more[..k], more[k])
    {
      assert more[..k] == if k < |done| then done[..k] else done;
    }
  }

  lemma GreedyUnfold(g: Graph, done: seq<nat>, i: nat)
    requires Indices(done, |g|) && Indices(done + [i], |g|) && FirstReady(g, done, 0) == Some(i)
    ensures GreedyFrom(g, done) == [i] + GreedyFrom(g, done + [i])
  {
  }

  /** One step of the greedy order. */
  lemma GreedyTake(g: Graph, done: seq<nat>, i: nat)
    requires Topological(g, done) && FirstReady(g, done, 0) == Some(i)
    ensures Topological(g, done + [i]) && |done| < |g|
    ensures done + [i] + GreedyFrom(g, done + [i]) == done + GreedyFrom(g, done)
  {
    assert Ready(g, done, i) by { FirstReadyIsLeast(g, done, 0); }
    TopologicalSnoc(g, done, i);
    GreedyUnfold(g, done, i);
    Reassociate(done, [i], GreedyFrom(g, done + [i]));
  }

  lemma {:induction false} GreedyExtends(g: Graph, done: seq<nat>)
    requires Topological(g, done)
    ensures Topological(g, done + GreedyFrom(g, done))
    ensures FirstReady(g, done + GreedyFrom(g, done), 0) == None
    decreases |g| - |done|
  {
    match FirstReady(g, done, 0)
    case None =>
      assert done + [] == done;
    case Some(i) =>
      GreedyTake(g, done, i);
      GreedyExtends(g, done + [i]);
  }

  lemma GreedyIsTopological(g: Graph)
    ensures Topological(g, Greedy(g)) && FirstReady(g, Greedy(g), 0) == None
  {
    GreedyExtends(g, []);
    assert [] + Greedy(g) == Greedy(g);
  }

  /** No topological order reaches an asset that the greedy order does not reach. */
  lemma {:induction false} GreedyReachesAll(g: Graph, other: seq<nat>, k: nat)
    requires Topological(g, other) && k < |other|
    ensures other[k] in Greedy(g)
  {
    forall j | 0 <= j < k
      ensures other[j] in Greedy(g)
    {
      GreedyReachesAll(g, other, j);
    }
    GreedyIsTopological(g);
    FirstReadyIsLeast(g, Greedy(g), 0);
    assert !Ready(g, Greedy(g), other[k]);
    assert Ready(g, other[..k], other[k]);
  }

  /** At the first place where two orders differ, `a` has the smaller index, or `a` goes on
      where `b` has ended. */
  ghost predicate NotAfter(a: seq<nat>, b: seq<nat>) {
    b <= a || exists k :: 0 <= k < |a| && k < |b| && a[..k] == b[..k] && a[k] < b[k]
  }

  /** The greedy order is the lexicographically least topological order, and the longest. */
  lemma GreedyIsLeast(g: Graph, other: seq<nat>)
    requires Topological(g, other)
    ensures NotAfter(Greedy(g), other)
    ensures forall i :: i in other ==> i in Greedy(g)
    ensures |other| == |Greedy(g)| ==> other == Greedy(g) || exists k :: 0 <= k < |other| && Greedy(g)[..k] == other[..k] && Greedy(g)[k] < other[k]
  {
    LeastFrom(g, [], other);
    assert [] + Greedy(g) == Greedy(g);
    forall i | i in other
      ensures i in Greedy(g)
    {
      var k :| 0 <= k < |other| && other[k] == i;
      GreedyReachesAll(g, other, k);
    }
  }

  lemma {:induction false} LeastFrom(g: Graph, done: seq<nat>, other: seq<nat>)
    requires Topological(g, done) && Topological(g, other) && done <= other
    ensures NotAfter(done + GreedyFrom(g, done), other)
    decreases |g| - |done|
  {
    var k, all := |done|, done + GreedyFrom(g, done);
    if k < |other| {
      FirstReadyIsLeast(g, done, 0);
      assert other[..k] == done && Ready(g, done, other[k]);
      var i := FirstReady(g, done, 0).value;
      GreedyTake(g, done, i);
      if i == other[k] {
        assert other[..k + 1] == done + [i];
        LeastFrom(g, done + [i], other);
      } else {
        FirstDifference(done, i, GreedyFrom(g, done + [i]), other);
      }
    }
  }

  lemma FirstDifference(done: seq<nat>, i: nat, tail: seq<nat>, other: seq<nat>)
    requires done < other && i < other[|done|]
    ensures NotAfter(done + [i] + tail, other)
  {
    var k, all := |done|, done + [i] + tail;
    assert all[..k] == other[..k] && all[k] == i;
  }

  // ----- What is held up -----

  /** A walk from `i` along upstreams. */
  ghost predicate Walk(g: Graph, walk: seq<nat>, i: nat) {
    && walk != [] && walk[0] == i
    && (forall k :: 0 <= k < |walk| ==> walk[k] < |g|)
    && (forall k :: 0 <= k < |walk| - 1 ==> walk[k + 1] in g[walk[k]])
  }

  /** Following upstreams from `i` leads into a cycle: `i` is on it or downstream of it. */
  ghost predicate ReachesCycle(g: Graph, i: nat) {
    exists walk :: Walk(g, walk, i) && !Distinct(walk)
  }

  /** The place of an asset in a topological order is behind the places of its upstreams. */
  lemma UpstreamEarlier(g: Graph, order: seq<nat>, k: nat, j: nat)
    requires Topological(g, order) && k < |order| && order[k] < |g| && j in g[order[k]]
    ensures exists m :: 0 <= m < k && order[m] == j
  {
    assert Ready(g, order[..k], order[k]);
  }

  /** A walk from an ordered asset visits ever earlier places, so it never repeats. */
  lemma {:induction false} OrderedWalksEnd(g: Graph, order: seq<nat>, walk: seq<nat>, k: nat)
    requires Topological(g, order) && k < |order| && Walk(g, walk, order[k])
    ensures Distinct(walk)
    ensures forall m :: 0 <= m < |walk| ==> exists p :: 0 <= p <= k && order[p] == walk[m]
    decreases |walk|
  {
    if |walk| > 1 {
      UpstreamEarlier(g, order, k, walk[1]);
      var m :| 0 <= m < k && order[m] == walk[1];
      var rest := walk[1..];
      OrderedWalksEnd(g, order, rest, m);
      forall n | 0 < n < |walk|
        ensures walk[n] != walk[0] && exists p :: 0 <= p <= k && order[p] == walk[n]
      {
        assert walk[n] == rest[n - 1];
        var p :| 0 <= p <= m && order[p] == rest[n - 1];
      }
      forall a, b | 0 <= a < b < |walk|
        ensures walk[a] != walk[b]
      {
        if a > 0 {
          assert rest[a - 1] != rest[b - 1];
        }
      }
    }
  }

  /** From an asset that is never ready, upstreams that are never ready can be followed for as
      long as one likes. */
  lemma {:induction false} HeldWalk(g: Graph, order: seq<nat>, i: nat, length: nat) returns (walk: seq<nat>)
    requires IsGraph(g) && FirstReady(g, order, 0) == None && i < |g| && i !in order && length >= 1
    ensures Walk(g, walk, i) && |walk| == length
    decreases length
  {
    if length == 1 {
      walk := [i];
    } else {
      FirstReadyIsLeast(g, order, 0);
      assert !Ready(g, order, i);
      var j :| j in g[i] && j !in order;
      var rest := HeldWalk(g, order, j, length - 1);
      walk := [i] + rest;
    }
  }

  /** Exactly the assets on or downstream of a cycle are left out of the greedy order. */
  lemma HeldIffCycle(g: Graph, i: nat)
    requires IsGraph(g) && i < |g|
    ensures i !in Greedy(g) <==> ReachesCycle(g, i)
  {
    var order := Greedy(g);
    GreedyIsTopological(g);
    if i in order {
      var k :| 0 <= k < |order| && order[k] == i;
      forall walk | Walk(g, walk, i)
        ensures Distinct(walk)
      {
        OrderedWalksEnd(g, order, walk, k);
      }
    } else {
      var walk := HeldWalk(g, order, i, |g| + 1);
      if Distinct(walk) {
        AtMostAll(walk, |g|);
        assert false;
      }
    }
  }

  /** The whole inference order: the greedy order, then the assets held up, in input order. */
  ghost function InferenceOrder(g: Graph): (order: seq<nat>)
    ensures forall i :: i in order ==> i < |g|
  {
    GreedyInRange(g);
    HeldInRange(|g|, Greedy(g), 0);
    Greedy(g) + Held(|g|, Greedy(g), 0)
  }

  lemma GreedyInRange(g: Graph)
    ensures forall i :: i in Greedy(g) ==> i < |g|
  {
    GreedyIsTopological(g);
  }

  lemma {:induction false} HeldInRange(n: nat, order: seq<nat>, i: nat)
    ensures forall x :: x in Held(n, order, i) <==> i <= x < n && x !in order
    ensures Increasing(Held(n, order, i))
    decreases n - i
  {
    if i < n {
      var held := Held(n, order, i + 1);
      HeldInRange(n, order, i + 1);
      if i !in order {
        IncreasingCons(i, held);
      }
    }
  }

  lemma IncreasingCons(i: nat, q: seq<nat>)
    requires Increasing(q) && forall x :: x in q ==> i < x
    ensures Increasing([i] + q)
  {
    assert forall k :: 0 <= k < |q| ==> q[k] in q;
  }

  /** Every asset comes exactly once: the order is a permutation. */
  lemma OrderIsPermutation(g: Graph)
    ensures Distinct(InferenceOrder(g))
    ensures forall i: nat :: i in InferenceOrder(g) <==> i < |g|
  {
    var greedy := Greedy(g);
    GreedyIsTopological(g);
    HeldInRange(|g|, greedy, 0);
    var held := Held(|g|, greedy, 0);
    assert forall k :: 0 <= k < |greedy| ==> greedy[k] in greedy;
    assert forall k :: 0 <= k < |held| ==> held[k] in held;
  }

  // ----- The algorithm -----

  predicate Increasing(q: seq<nat>) {
    forall i, j :: 0 <= i < j < |q| ==> q[i] < q[j]
  }

  /** The library's sort.Ints, on a sorted queue with the new element `x` at its end. */
  function AppendSorted(queue: seq<nat>, x: nat): (sorted: seq<nat>)
    requires Increasing(queue) && x !in queue
    ensures Increasing(sorted)
    ensures forall i :: i in sorted <==> i in queue || i == x
  {
    if queue == [] then [x] else
      var rest, last := queue[..|queue| - 1], queue[|queue| - 1];
      assert queue == rest + [last];
      assert forall i :: i in rest ==> i < last;
      if last > x then
        IncreasingSnoc(AppendSorted(rest, x), last);
        AppendSorted(rest, x) + [last]
      else queue + [x]
  }

  lemma IncreasingTail(i: nat, rest: seq<nat>)
    requires Increasing([i] + rest)
    ensures Increasing(rest) && i !in rest
    ensures forall x :: x in rest <==> x in [i] + rest && x != i
  {
    var q := [i] + rest;
    assert forall k :: 0 <= k < |rest| ==> rest[k] == q[k + 1] && q[0] < q[k + 1];
  }

  lemma IncreasingSnoc(q: seq<nat>, x: nat)
    requires Increasing(q) && forall i :: i in q ==> i < x
    ensures Increasing(q + [x])
  {
    assert forall k :: 0 <= k < |q| ==> q[k] in q;
  }

  /** How many entries of `d` are not in `done`, counted with repetition. */
  ghost function Missing(d: seq<nat>, done: seq<nat>): nat
  {
    if d == [] then 0
    else Missing(d[..|d| - 1], done) + if d[|d| - 1] in done then 0 else 1
  }

  ghost function Occurrences(d: seq<nat>, i: nat): nat
  {
    if d == [] then 0
    else Occurrences(d[..|d| - 1], i) + if d[|d| - 1] == i then 1 else 0
  }

  lemma {:induction false} MissingStep(d: seq<nat>, done: seq<nat>, i: nat)
    requires i !in done
    ensures Missing(d, done + [i]) == Missing(d, done) - Occurrences(d, i)
  {
    if d != [] {
      MissingStep(d[..|d| - 1], done, i);
    }
  }

  lemma {:induction false} MissingNone(d: seq<nat>, done: seq<nat>)
    ensures Missing(d, done) == 0 <==> forall j :: j in d ==> j in done
  {
    if d != [] {
      MissingNone(d[..|d| - 1], done);
      assert d == d[..|d| - 1] + [d[|d| - 1]];
    }
  }

  lemma {:induction false} OccursIffIn(d: seq<nat>, i: nat)
    ensures Occurrences(d, i) > 0 <==> i in d
  {
    if d != [] {
      OccursIffIn(d[..|d| - 1], i);
      assert d == d[..|d| - 1] + [d[|d| - 1]];
    }
  }

  lemma OccurrencesSnoc(d: seq<nat>, j: nat, i: nat)
    ensures Occurrences(d + [j], i) == Occurrences(d, i) + if j == i then 1 else 0
    ensures Missing(d + [j], []) == Missing(d, []) + 1
  {
    assert (d + [j])[..|d|] == d;
  }

  /** Asset `i` is listed downstream of `j` as often as `j` is among its upstreams. */
  ghost predicate Mirrors(down: seq<seq<nat>>, g: Graph) {
    && |down| == |g|
    && (forall j :: 0 <= j < |g| ==> forall i :: i in down[j] ==> i < |g|)
    && (forall i, j :: 0 <= i < |g| && 0 <= j < |g| ==> Occurrences(down[j], i) == Occurrences(g[i], j))
  }

  /** The queue holds, in increasing order, what is ready once `done` has been taken. */
  ghost predicate QueueFor(queue: seq<nat>, g: Graph, done: seq<nat>) {
    Increasing(queue) && forall i :: i in queue <==> Ready(g, done, i)
  }

  ghost predicate Counts(indegree: seq<int>, g: Graph, done: seq<nat>) {
    |indegree| == |g| && forall i :: 0 <= i < |g| ==> indegree[i] == Missing(g[i], done)
  }

  lemma QueueHead(queue: seq<nat>, g: Graph, done: seq<nat>)
    requires QueueFor(queue, g, done)
    ensures FirstReady(g, done, 0) == if queue == [] then None else Some(queue[0])
  {
    FirstReadyIsLeast(g, done, 0);
    match FirstReady(g, done, 0)
    case Some(r) =>
      assert r in queue;
      assert queue[0] in queue;
    case None =>
      if queue != [] {
        HasMember(queue);
      }
  }

  lemma HasMember(queue: seq<nat>)
    requires queue != []
    ensures exists i :: i in queue
  {
    assert queue[0] in queue;
  }

  /** The name index: a later asset takes over the names it shares with an earlier one. */
  method IndexByName(s: Strings, targets: seq<Asset>) returns (index: map<string, nat>)
    ensures forall key :: (if key in index then Some(index[key]) else None) == Resolve(s, targets, |targets|, key)
  {
    index := map[];
    for i := 0 to |targets|
      invariant forall key :: (if key in index then Some(index[key]) else None) == Resolve(s, targets, i, key)
    {
      var names := [targets[i].id, targets[i].name, targets[i].uri];
      for k := 0 to 3
        invariant forall key :: (if key in index then Some(index[key]) else None)
                             == if exists m :: 0 <= m < k && s.trim(names[m]) != "" && s.Key(names[m]) == key then Some(i)
                                else Resolve(s, targets, i, key)
      {
        if s.trim(names[k]) != "" {
          index := index[s.Key(names[k]) := i];
        }
      }
      forall key
        ensures GoesBy(s, targets[i], key) <==> exists m :: 0 <= m < 3 && s.trim(names[m]) != "" && s.Key(names[m]) == key
      {
        assert names[0] == targets[i].id && names[1] == targets[i].name && names[2] == targets[i].uri;
      }
    }
  }

  /** The upstreams seen so far: all of them for the first `i` assets, `m` for asset `i`. */
  ghost function Partial(s: Strings, targets: seq<Asset>, i: nat, m: nat): Graph
    requires i <= |targets| && (i < |targets| ==> m <= |targets[i].upstreams|)
  {
    seq(|targets|, k requires 0 <= k < |targets| =>
      if k < i then Deps(s, targets, k, |targets[k].upstreams|) else if k == i then Deps(s, targets, k, m) else [])
  }

  /** Listing one more upstream on both sides keeps the two sides mirrored. */
  lemma MirrorStep(down: seq<seq<nat>>, g: Graph, i: nat, j: nat)
    requires Mirrors(down, g) && i < |g| && j < |g|
    ensures Mirrors(down[j := down[j] + [i]], g[i := g[i] + [j]])
  {
    var down', g' := down[j := down[j] + [i]], g[i := g[i] + [j]];
    forall a, b | 0 <= a < |g| && 0 <= b < |g|
      ensures Occurrences(down'[b], a) == Occurrences(g'[a], b)
    {
      OccurrencesSnoc(down[j], i, a);
      OccurrencesSnoc(g[i], j, b);
    }
  }

  lemma CountStep(indegree: seq<int>, g: Graph, i: nat, j: nat)
    requires Counts(indegree, g, []) && i < |g|
    ensures Counts(indegree[i := indegree[i] + 1], g[i := g[i] + [j]], [])
  {
    OccurrencesSnoc(g[i], j, j);
  }

  /** One round of the loop over upstream names. */
  method AddUpstream(s: Strings, targets: seq<Asset>, i: nat, m: nat, indexByName: map<string, nat>,
                     downstream: array<seq<nat>>, indegree: array<int>)
    requires i < |targets| && m < |targets[i].upstreams|
    requires forall key :: (if key in indexByName then Some(indexByName[key]) else None) == Resolve(s, targets, |targets|, key)
    requires Mirrors(downstream[..], Partial(s, targets, i, m))
    requires Counts(indegree[..], Partial(s, targets, i, m), [])
    modifies downstream, indegree
    ensures Mirrors(downstream[..], Partial(s, targets, i, m + 1))
    ensures Counts(indegree[..], Partial(s, targets, i, m + 1), [])
  {
    var key := s.Key(targets[i].upstreams[m]);
    ghost var g := Partial(s, targets, i, m);
    ResolveBound(s, targets, |targets|, key);
    if key !in indexByName || indexByName[key] == i {
      assert Partial(s, targets, i, m + 1) == g;
      return;
    }
    var j := indexByName[key];
    assert Partial(s, targets, i, m + 1) == g[i := g[i] + [j]];
    MirrorStep(downstream[..], g, i, j);
    CountStep(indegree[..], g, i, j);
    ghost var down, counts := downstream[..], indegree[..];
    downstream[j] := downstream[j] + [i];
    indegree[i] := indegree[i] + 1;
    assert downstream[..] == down[j := down[j] + [i]];
    assert indegree[..] == counts[i := counts[i] + 1];
  }

  /** The first half: fills `downstream` and `indegree` from the assets' upstream names. */
  method BuildGraph(s: Strings, targets: seq<Asset>) returns (downstream: array<seq<nat>>, indegree: array<int>)
    ensures fresh(downstream) && fresh(indegree)
    ensures Mirrors(downstream[..], GraphOf(s, targets))
    ensures Counts(indegree[..], GraphOf(s, targets), [])
  {
    var indexByName := IndexByName(s, targets);
    downstream := new seq<nat>[|targets|](i => []);
    indegree := new int[|targets|](i => 0);
    for i := 0 to |targets|
      invariant Mirrors(downstream[..], Partial(s, targets, i, 0))
      invariant Counts(indegree[..], Partial(s, targets, i, 0), [])
    {
      for m := 0 to |targets[i].upstreams|
        invariant Mirrors(downstream[..], Partial(s, targets, i, m))
        invariant Counts(indegree[..], Partial(s, targets, i, m), [])
      {
        AddUpstream(s, targets, i, m, indexByName, downstream, indegree);
      }
      assert Partial(s, targets, i, |targets[i].upstreams|) == Partial(s, targets, i + 1, 0);
    }
    assert Partial(s, targets, |targets|, 0) == GraphOf(s, targets);
  }

  /** Counts after the first `m` of `i`'s downstream entries have been released. */
  ghost predicate Released(indegree: seq<int>, g: Graph, done: seq<nat>, down: seq<nat>, m: nat)
    requires m <= |down|
  {
    |indegree| == |g| && forall x :: 0 <= x < |g| ==> indegree[x] == Missing(g[x], done) - Occurrences(down[..m], x)
  }

  /** What is waiting: nothing of it done, nothing of it short of an upstream. */
  ghost predicate Waiting(queue: seq<nat>, indegree: seq<int>, done: seq<nat>) {
    Increasing(queue) && forall x: nat :: x in queue <==> x < |indegree| && x !in done && indegree[x] == 0
  }

  lemma WaitingIsQueue(queue: seq<nat>, indegree: seq<int>, g: Graph, done: seq<nat>)
    requires Counts(indegree, g, done)
    ensures Waiting(queue, indegree, done) <==> QueueFor(queue, g, done)
  {
    forall x: nat | x < |g|
      ensures Ready(g, done, x) <==> x !in done && indegree[x] == 0
    {
      MissingNone(g[x], done);
    }
  }

  /** Taking asset `i` off the queue: releases its downstream assets and queues those that have
      nothing left to wait for. */
  method Release(ghost g: Graph, ghost done: seq<nat>, i: nat, down: seq<nat>, indegree: array<int>, rest: seq<nat>)
      returns (queue: seq<nat>)
    requires IsGraph(g) && Topological(g, done) && Ready(g, done, i)
    requires Counts(indegree[..], g, done)
    requires forall x :: x in down ==> x < |g|
    requires forall x :: 0 <= x < |g| ==> Occurrences(down, x) == Occurrences(g[x], i)
    requires Waiting([i] + rest, indegree[..], done)
    modifies indegree
    ensures Counts(indegree[..], g, done + [i])
    ensures QueueFor(queue, g, done + [i])
  {
    queue := rest;
    IncreasingTail(i, rest);
    for m := 0 to |down|
      invariant Released(indegree[..], g, done, down, m)
      invariant Waiting(queue, indegree[..], done + [i])
    {
      var j := down[m];
      ReleaseOne(indegree[..], g, done, i, down, m);
      assert j !in queue;
      indegree[j] := indegree[j] - 1;
      if indegree[j] == 0 {
        queue := AppendSorted(queue, j);
      }
    }
    assert down[..|down|] == down;
    forall x | 0 <= x < |g|
      ensures indegree[x] == Missing(g[x], done + [i])
    {
      MissingStep(g[x], done, i);
    }
    WaitingIsQueue(queue, indegree[..], g, done + [i]);
  }

  lemma DoneDepsDone(g: Graph, done: seq<nat>, j: nat)
    requires Topological(g, done)
    ensures j in done ==> j < |g| && forall i :: i in g[j] ==> i in done
  {
    if j in done {
      var k :| 0 <= k < |done| && done[k] == j;
      assert Ready(g, done[..k], done[k]);
    }
  }

  lemma ReleaseOne(indegree: seq<int>, g: Graph, done: seq<nat>, i: nat, down: seq<nat>, m: nat)
    requires IsGraph(g) && Topological(g, done) && Ready(g, done, i) && m < |down|
    requires Released(indegree, g, done, down, m)
    requires forall x :: x in down ==> x < |g|
    requires forall x :: 0 <= x < |g| ==> Occurrences(down, x) == Occurrences(g[x], i)
    ensures var j := down[m];
            j < |g| && j !in done + [i] && indegree[j] > 0 && Released(indegree[j := indegree[j] - 1], g, done, down, m + 1)
  {
    var j := down[m];
    assert j in down;
    assert down[..m + 1] == down[..m] + [j];
    forall x | 0 <= x < |g|
      ensures Occurrences(down[..m + 1], x) == Occurrences(down[..m], x) + if j == x then 1 else 0
    {
      OccurrencesSnoc(down[..m], j, x);
    }
    OccursIffIn(g[j], i);
    OccursIffIn(down, j);
    OccurrencesPrefix(down, m + 1, j);
    MissingStep(g[j], done, i);
    DoneDepsDone(g, done, j);
  }

  lemma {:induction false} OccurrencesPrefix(d: seq<nat>, m: nat, i: nat)
    requires m <= |d|
    ensures Occurrences(d[..m], i) <= Occurrences(d, i)
  {
    if m == |d| {
      assert d[..m] == d;
    } else {
      OccurrencesPrefix(d[..|d| - 1], m, i);
      assert d[..|d| - 1][..m] == d[..m];
    }
  }

  /** The assets that wait for nothing from the start. */
  method InitialQueue(indegree: array<int>) returns (queue: seq<nat>)
    ensures Waiting(queue, indegree[..], [])
  {
    queue := [];
    for i := 0 to indegree.Length
      invariant Increasing(queue) && forall x: nat :: x in queue <==> x < i && indegree[x] == 0
    {
      if indegree[i] == 0 {
        IncreasingSnoc(queue, i);
        queue := queue + [i];
      }
    }
  }

  /** The last loop: appends whatever has not been visited, in input order. */
  method AppendHeld(targets: seq<Asset>, visited: array<bool>, ghost done: seq<nat>, ordered: seq<Asset>) returns (all: seq<Asset>)
    requires visited.Length == |targets| && forall x :: 0 <= x < |targets| ==> (visited[x] <==> x in done)
    requires (forall x :: x in done ==> x < |targets|) && ordered == Pick(targets, done)
    ensures forall x :: x in done + Held(|targets|, done, 0) ==> x < |targets|
    ensures all == Pick(targets, done + Held(|targets|, done, 0))
  {
    HeldInRange(|targets|, done, 0);
    all := ordered;
    ghost var order: seq<nat> := done;
    for i: nat := 0 to |targets|
      invariant forall x :: x in order ==> x < |targets|
      invariant order + Held(|targets|, done, i) == done + Held(|targets|, done, 0)
      invariant all == Pick(targets, order)
    {
      ghost var rest := Held(|targets|, done, i + 1);
      if !visited[i] {
        Reassociate(order, [i], rest);
        all := all + [targets[i]];
        order := order + [i];
      } else {
        assert [] + rest == rest;
      }
    }
    assert order + [] == order;
  }

  /** What holds whenever the queue is looked at, `done` being the assets taken so far. */
  ghost predicate Progress(g: Graph, done: seq<nat>, queue: seq<nat>, downstream: seq<seq<nat>>, indegree: seq<int>, visited: seq<bool>)
  {
    && IsGraph(g) && Topological(g, done) && done + GreedyFrom(g, done) == Greedy(g)
    && Mirrors(downstream, g) && Counts(indegree, g, done) && QueueFor(queue, g, done)
    && |visited| == |g| && forall x :: 0 <= x < |g| ==> (visited[x] <==> x in done)
  }

  /** One round of the main loop, apart from the output: takes the head of the queue. */
  method TakeHead(ghost g: Graph, ghost done: seq<nat>, queue: seq<nat>, downstream: array<seq<nat>>, indegree: array<int>, visited: array<bool>)
      returns (i: nat, queue': seq<nat>)
    requires queue != [] && Progress(g, done, queue, downstream[..], indegree[..], visited[..])
    modifies indegree, visited
    ensures i == queue[0] && i < |g| && |done| < |g|
    ensures Progress(g, done + [i], queue', downstream[..], indegree[..], visited[..])
  {
    i := queue[0];
    QueueHead(queue, g, done);
    WaitingIsQueue(queue, indegree[..], g, done);
    assert queue == [i] + queue[1..] && i in queue;
    GreedyTake(g, done, i);
    visited[i] := true;
    queue' := Release(g, done, i, downstream[i], indegree, queue[1..]);
  }

  /** The assets in inference order: the greedy order, then the assets held up by a cycle. */
  method TopoOrderInferenceAssets(s: Strings, targets: seq<Asset>) returns (ordered: seq<Asset>)
    ensures ordered == Pick(targets, InferenceOrder(GraphOf(s, targets)))
  {
    var downstream, indegree := BuildGraph(s, targets);
    ghost var g := GraphOf(s, targets);
    var queue := InitialQueue(indegree);
    WaitingIsQueue(queue, indegree[..], g, []);
    ordered := [];
    var visited := new bool[|targets|](i => false);
    ghost var done: seq<nat> := [];
    assert [] + Greedy(g) == Greedy(g);
    while |queue| > 0
      invariant Progress(g, done, queue, downstream[..], indegree[..], visited[..])
      invariant ordered == Pick(targets, done)
      decreases |targets| - |done|
    {
      var i;
      i, queue := TakeHead(g, done, queue, downstream, indegree, visited);
      ordered := ordered + [targets[i]];
      done := done + [i];
    }
    QueueHead(queue, g, done);
    assert done + [] == done;
    GreedyInRange(g);
    ordered := AppendHeld(targets, visited, done, ordered);
  }
}
