/** Inference over a whole graph: which assets are inferred, which layers stay, and what the rounds end with. */
module SchemaSnapshot {
  import opened Wrappers
  import opened TopoOrder
  import opened SchemaInference

  type Graph = SchemaInference.Graph

  // ----- From the graph to the rounds -----

  /** The last relation that belongs to an asset. */
  function RelationsByAsset(relations: seq<Relation>): map<string, Relation>
  {
    if relations == [] then map[]
    else
      var last, rest := relations[|relations| - 1], RelationsByAsset(relations[..|relations| - 1]);
      if last.assetId == "" then rest else rest[last.assetId := last]
  }

  predicate Complete(l: Layer) {
    l.completeness == "complete" && |l.columns| > 0
  }

  predicate KnownRelation(layers: seq<Layer>, id: string) {
    exists l :: l in layers && l.relationId == id && Complete(l)
  }

  /** The asset has a relation, the relation is not known yet, and there is SQL to infer from. */
  predicate NeedsInference(s: Strings, graph: Graph, a: Asset) {
    var byAsset := RelationsByAsset(graph.relations);
    a.id in byAsset && !KnownRelation(graph.layers, byAsset[a.id].id) && s.trim(a.sql) != ""
  }

  function Targets(s: Strings, graph: Graph, assets: seq<Asset>): seq<Asset>
  {
    if assets == [] then []
    else
      var last := assets[|assets| - 1];
      Targets(s, graph, assets[..|assets| - 1]) + if NeedsInference(s, graph, last) then [last] else []
  }

  const INFERRED := "inferred-"

  /** A layer is replaced when it was inferred for a relation about to be inferred anew. */
  predicate Kept(l: Layer, targetRelations: set<string>) {
    l.relationId !in targetRelations || !(INFERRED <= l.sourceKind)
  }

  function KeptLayers(layers: seq<Layer>, targetRelations: set<string>): seq<Layer>
  {
    if layers == [] then []
    else
      var last := layers[|layers| - 1];
      KeptLayers(layers[..|layers| - 1], targetRelations) + if Kept(last, targetRelations) then [last] else []
  }

  ghost function TargetRelations(graph: Graph, targets: seq<Asset>): set<string> {
    var byAsset := RelationsByAsset(graph.relations);
    set a | a in targets && a.id in byAsset :: byAsset[a.id].id
  }

  /** The targets in inference order. */
  ghost function OrderedTargets(s: Strings, graph: Graph, assets: seq<Asset>): seq<Asset> {
    var targets := Targets(s, graph, assets);
    Pick(targets, InferenceOrder(GraphOf(s, targets)))
  }

  ghost function SettingOf(s: Strings, infer: Inference, graph: Graph, assets: seq<Asset>): Setting {
    var targets := OrderedTargets(s, graph, assets);
    Setting(s, infer, targets, RelationsByAsset(graph.relations), graph.relations,
            KeptLayers(graph.layers, TargetRelations(graph, targets)))
  }

  lemma {:induction false} TargetsMeaning(s: Strings, graph: Graph, assets: seq<Asset>)
    ensures forall a :: a in Targets(s, graph, assets) <==> a in assets && NeedsInference(s, graph, a)
    ensures (forall i, j :: 0 <= i < j < |assets| ==> assets[i].id != assets[j].id) ==>
        forall i, j :: 0 <= i < j < |Targets(s, graph, assets)| ==> Targets(s, graph, assets)[i].id != Targets(s, graph, assets)[j].id
  {
    if assets != [] {
      var n := |assets| - 1;
      TargetsMeaning(s, graph, assets[..n]);
      assert assets == assets[..n] + [assets[n]];
      var rest := Targets(s, graph, assets[..n]);
      if forall i, j :: 0 <= i < j < |assets| ==> assets[i].id != assets[j].id {
        forall i | 0 <= i < |rest|
          ensures rest[i].id != assets[n].id
        {
          assert rest[i] in rest;
          var k :| 0 <= k < n && assets[k] == rest[i];
        }
      }
    }
  }

  lemma PickedAssets(targets: seq<Asset>, g: TopoOrder.Graph)
    requires |g| == |targets|
    ensures forall a :: a in Pick(targets, InferenceOrder(g)) <==> a in targets
  {
    OrderIsPermutation(g);
    var order := InferenceOrder(g);
    forall a | a in targets
      ensures a in Pick(targets, order)
    {
      var i :| 0 <= i < |targets| && targets[i] == a;
      assert i in order;
      var k :| 0 <= k < |order| && order[k] == i;
      assert Pick(targets, order)[k] == a;
    }
    forall k | 0 <= k < |order|
      ensures Pick(targets, order)[k] in targets
    {
      assert order[k] in order;
    }
  }

  lemma SettingValid(s: Strings, infer: Inference, graph: Graph, assets: seq<Asset>)
    ensures SettingOf(s, infer, graph, assets).Valid()
  {
    var targets := Targets(s, graph, assets);
    TargetsMeaning(s, graph, assets);
    PickedAssets(targets, GraphOf(s, targets));
  }

  // ----- What is said of the graph and the assets themselves -----

  ghost predicate HasCompleteLayer(layers: seq<Layer>, id: string) {
    exists k :: 0 <= k < |layers| && layers[k].relationId == id && layers[k].completeness == "complete" && layers[k].columns != []
  }

  /** The relation of an asset is the last one that names it. */
  ghost predicate LastOfAsset(relations: seq<Relation>, assetId: string, k: nat) {
    k < |relations| && assetId != "" && relations[k].assetId == assetId && forall j :: k < j < |relations| ==> relations[j].assetId != assetId
  }

  /** The asset has that relation, which has no complete layer with columns, and SQL that is not blank. */
  ghost predicate Qualifies(s: Strings, graph: Graph, a: Asset, r: Relation) {
    && (exists k: nat :: LastOfAsset(graph.relations, a.id, k) && graph.relations[k] == r)
    && !HasCompleteLayer(graph.layers, r.id) && s.trim(a.sql) != ""
  }

  ghost predicate SomeQualifies(s: Strings, graph: Graph, a: Asset) {
    exists r :: Qualifies(s, graph, a, r)
  }

  /** The relation belongs to a qualifying asset. */
  ghost predicate ToBeInferred(s: Strings, graph: Graph, assets: seq<Asset>, id: string) {
    exists a, r :: a in assets && Qualifies(s, graph, a, r) && r.id == id
  }

  /** The layers of one relation, in order. */
  function LayersOf(layers: seq<Layer>, id: string): seq<Layer> {
    if layers == [] then []
    else LayersOf(layers[..|layers| - 1], id) + if layers[|layers| - 1].relationId == id then [layers[|layers| - 1]] else []
  }

  lemma {:induction false} AssetRelation(relations: seq<Relation>, id: string) returns (k: nat)
    ensures if id in RelationsByAsset(relations) then LastOfAsset(relations, id, k) && RelationsByAsset(relations)[id] == relations[k]
            else forall j :: 0 <= j < |relations| && id != "" ==> relations[j].assetId != id
    ensures "" !in RelationsByAsset(relations)
  {
    k := 0;
    if relations != [] {
      var n := |relations| - 1;
      k := AssetRelation(relations[..n], id);
      if id != "" && relations[n].assetId == id {
        k := n;
      }
    }
  }

  lemma OnlyOneIsLast(relations: seq<Relation>, id: string, j: nat, k: nat)
    requires LastOfAsset(relations, id, j) && LastOfAsset(relations, id, k)
    ensures j == k
  {
  }

  /** An asset is inferred exactly when it qualifies. */
  lemma NeedsInferenceIff(s: Strings, graph: Graph, a: Asset)
    ensures NeedsInference(s, graph, a) <==> SomeQualifies(s, graph, a)
    ensures NeedsInference(s, graph, a) ==> Qualifies(s, graph, a, RelationsByAsset(graph.relations)[a.id])
    ensures forall r :: Qualifies(s, graph, a, r) ==> a.id in RelationsByAsset(graph.relations) && RelationsByAsset(graph.relations)[a.id] == r
  {
    var k := AssetRelation(graph.relations, a.id);
    forall r | Qualifies(s, graph, a, r)
      ensures a.id in RelationsByAsset(graph.relations) && RelationsByAsset(graph.relations)[a.id] == r
    {
      var j: nat :| LastOfAsset(graph.relations, a.id, j) && graph.relations[j] == r;
      assert a.id in RelationsByAsset(graph.relations);
      OnlyOneIsLast(graph.relations, a.id, j, k);
    }
    if a.id in RelationsByAsset(graph.relations) {
      var r := RelationsByAsset(graph.relations)[a.id];
      KnownIff(graph.layers, r.id);
      assert LastOfAsset(graph.relations, a.id, k) && graph.relations[k] == r;
      assert NeedsInference(s, graph, a) ==> Qualifies(s, graph, a, r);
    }
  }

  lemma KnownIff(layers: seq<Layer>, id: string)
    ensures KnownRelation(layers, id) <==> HasCompleteLayer(layers, id)
  {
    if KnownRelation(layers, id) {
      var l :| l in layers && l.relationId == id && Complete(l);
      var k :| 0 <= k < |layers| && layers[k] == l;
    }
  }

  /** The relations whose layers are replaced are those of qualifying assets. */
  lemma TargetRelationsAre(s: Strings, graph: Graph, assets: seq<Asset>, targets: seq<Asset>, id: string)
    requires forall a :: a in targets <==> a in Targets(s, graph, assets)
    ensures id in TargetRelations(graph, targets) <==> ToBeInferred(s, graph, assets, id)
  {
    TargetsMeaning(s, graph, assets);
    forall a | a in assets
      ensures NeedsInference(s, graph, a) <==> a in targets
      ensures NeedsInference(s, graph, a) ==> Qualifies(s, graph, a, RelationsByAsset(graph.relations)[a.id])
      ensures forall r :: Qualifies(s, graph, a, r) ==> a in targets && a.id in RelationsByAsset(graph.relations) && RelationsByAsset(graph.relations)[a.id] == r
    {
      NeedsInferenceIff(s, graph, a);
    }
  }

  lemma {:induction false} LayersOfConcat(a: seq<Layer>, b: seq<Layer>, id: string)
    ensures LayersOf(a + b, id) == LayersOf(a, id) + LayersOf(b, id)
  {
    if b == [] {
      assert a + b == a;
    } else {
      var shorter, last := b[..|b| - 1], b[|b| - 1];
      assert (a + b)[..|a + b| - 1] == a + shorter;
      LayersOfConcat(a, shorter, id);
    }
  }

  lemma {:induction false} KeptOfOther(layers: seq<Layer>, targetRelations: set<string>, id: string)
    requires id !in targetRelations
    ensures LayersOf(KeptLayers(layers, targetRelations), id) == LayersOf(layers, id)
  {
    if layers != [] {
      var shorter, last := layers[..|layers| - 1], layers[|layers| - 1];
      KeptOfOther(shorter, targetRelations, id);
      var kept := if Kept(last, targetRelations) then [last] else [];
      LayersOfConcat(KeptLayers(shorter, targetRelations), kept, id);
      assert kept == [last] ==> LayersOf(kept, id) == LayersOf([], id) + (if last.relationId == id then [last] else []);
    }
  }

  lemma {:induction false} DeclaredAreKept(layers: seq<Layer>, targetRelations: set<string>, l: Layer)
    requires l in layers && !(INFERRED <= l.sourceKind)
    ensures l in KeptLayers(layers, targetRelations)
  {
    var shorter, last := layers[..|layers| - 1], layers[|layers| - 1];
    if l != last {
      DeclaredAreKept(shorter, targetRelations, l);
    }
  }

  lemma {:induction false} NoInferredOf(p: Setting, k: nat, inferred: map<string, Output>, id: string)
    requires p.Valid() && k <= |p.targets| && forall i :: 0 <= i < k ==> Rel(p, i).id != id
    ensures LayersOf(InferredLayers(p, k, inferred), id) == []
  {
    if k > 0 {
      NoInferredOf(p, k - 1, inferred, id);
      var l := InferredLayer(p, p.targets[k - 1], inferred);
      LayersOfConcat(InferredLayers(p, k - 1, inferred), l, id);
      assert l != [] ==> l[..0] == [] && l[0].relationId == Rel(p, k - 1).id;
    }
  }

  /** Whatever the rounds record, the layers of other relations stay, and so do those that were not inferred. */
  lemma RebuiltKeeps(s: Strings, infer: Inference, graph: Graph, assets: seq<Asset>, inferred: map<string, Output>)
    ensures var p := SettingOf(s, infer, graph, assets);
            && p.Valid()
            && (forall id :: !ToBeInferred(s, graph, assets, id) ==> LayersOf(Rebuilt(p, inferred), id) == LayersOf(graph.layers, id))
            && (forall l :: l in graph.layers && !(INFERRED <= l.sourceKind) ==> l in Rebuilt(p, inferred))
  {
    var p, targets := SettingOf(s, infer, graph, assets), Targets(s, graph, assets);
    SettingValid(s, infer, graph, assets);
    PickedAssets(targets, GraphOf(s, targets));
    var ids := TargetRelations(graph, p.targets);
    forall id | !ToBeInferred(s, graph, assets, id)
      ensures LayersOf(Rebuilt(p, inferred), id) == LayersOf(graph.layers, id)
    {
      TargetRelationsAre(s, graph, assets, p.targets, id);
      KeptOfOther(graph.layers, ids, id);
      forall i | 0 <= i < |p.targets|
        ensures Rel(p, i).id != id
      {
        assert p.targets[i] in p.targets;
      }
      NoInferredOf(p, |p.targets|, inferred, id);
      LayersOfConcat(p.base, InferredLayers(p, |p.targets|, inferred), id);
    }
    forall l | l in graph.layers && !(INFERRED <= l.sourceKind)
      ensures l in Rebuilt(p, inferred)
    {
      DeclaredAreKept(graph.layers, ids, l);
    }
  }

  type LayersTest = seq<Layer> -> bool

  /** The rounds end where they began or with what some round has made, and at least one is begun unless cancelled. */
  lemma {:induction false} RoundsEnd(next: Snapshot -> Option<Snapshot>, cancelled: nat -> bool, round: nat, x: Snapshot, good: LayersTest)
    requires round <= MAX_ROUNDS && good(x.layers) && forall y :: next(y).Some? ==> good(next(y).value.layers)
    ensures good(Iterate(next, cancelled, round, x).0.layers)
    ensures Iterate(next, cancelled, round, x).1 >= round
    ensures Iterate(next, cancelled, round, x).1 == round <==> round == MAX_ROUNDS || cancelled(round)
    decreases MAX_ROUNDS - round
  {
    if round < MAX_ROUNDS && !cancelled(round) && next(x).Some? {
      RoundsEnd(next, cancelled, round + 1, next(x).value, good);
    }
  }

  ghost predicate KeepsTheRest(s: Strings, graph: Graph, assets: seq<Asset>, layers: seq<Layer>) {
    && (forall id :: !ToBeInferred(s, graph, assets, id) ==> LayersOf(layers, id) == LayersOf(graph.layers, id))
    && (forall l :: l in graph.layers && !("inferred-" <= l.sourceKind) ==> l in layers)
  }

  ghost function KeepsIn(s: Strings, graph: Graph, assets: seq<Asset>): LayersTest {
    layers => KeepsTheRest(s, graph, assets, layers)
  }

  lemma RoundKeeps(s: Strings, infer: Inference, graph: Graph, assets: seq<Asset>, y: Snapshot)
    ensures SettingOf(s, infer, graph, assets).Valid()
    ensures var z := Rounds(SettingOf(s, infer, graph, assets))(y); z.Some? ==> KeepsIn(s, graph, assets)(z.value.layers)
  {
    SettingValid(s, infer, graph, assets);
    var z := Rounds(SettingOf(s, infer, graph, assets))(y);
    if z.Some? {
      RebuiltKeeps(s, infer, graph, assets, z.value.inferred);
    }
  }

  lemma EndKeepsTheRest(s: Strings, infer: Inference, graph: Graph, assets: seq<Asset>, cancelled: nat -> bool)
    ensures SettingOf(s, infer, graph, assets).Valid()
    ensures var end := Iterate(Rounds(SettingOf(s, infer, graph, assets)), cancelled, 0, Snapshot(graph.layers, map[]));
            KeepsTheRest(s, graph, assets, end.0.layers) && (end.1 == 0 <==> cancelled(0))
  {
    var p := SettingOf(s, infer, graph, assets);
    SettingValid(s, infer, graph, assets);
    var next := Rounds(p);
    forall y
      ensures next(y).Some? ==> KeepsIn(s, graph, assets)(next(y).value.layers)
    {
      RoundKeeps(s, infer, graph, assets, y);
    }
    RoundsEnd(next, cancelled, 0, Snapshot(graph.layers, map[]), KeepsIn(s, graph, assets));
  }

  method IndexRelations(relations: seq<Relation>) returns (byAsset: map<string, Relation>)
    ensures byAsset == RelationsByAsset(relations)
  {
    byAsset := map[];
    for i := 0 to |relations|
      invariant byAsset == RelationsByAsset(relations[..i])
    {
      assert relations[..i + 1][..i] == relations[..i];
      if relations[i].assetId != "" {
        byAsset := byAsset[relations[i].assetId := relations[i]];
      }
    }
    assert relations[..|relations|] == relations;
  }

  method SelectTargets(s: Strings, graph: Graph, assets: seq<Asset>, byAsset: map<string, Relation>) returns (targets: seq<Asset>)
    requires byAsset == RelationsByAsset(graph.relations)
    ensures targets == Targets(s, graph, assets)
  {
    var known: set<string> := {};
    for i := 0 to |graph.layers|
      invariant forall id :: id in known <==> KnownRelation(graph.layers[..i], id)
    {
      assert graph.layers[..i + 1] == graph.layers[..i] + [graph.layers[i]];
      if graph.layers[i].completeness == "complete" && |graph.layers[i].columns| > 0 {
        known := known + {graph.layers[i].relationId};
      }
    }
    assert graph.layers[..|graph.layers|] == graph.layers;
    targets := [];
    for i := 0 to |assets|
      invariant targets == Targets(s, graph, assets[..i])
    {
      var asset := assets[i];
      assert assets[..i + 1][..i] == assets[..i];
      if asset.id !in byAsset || byAsset[asset.id].id in known || s.trim(asset.sql) == "" {
        continue;
      }
      targets := targets + [asset];
    }
    assert assets[..|assets|] == assets;
  }

  method KeepLayers(layers: seq<Layer>, targets: seq<Asset>, byAsset: map<string, Relation>, ghost graph: Graph) returns (base: seq<Layer>)
    requires byAsset == RelationsByAsset(graph.relations) && forall a :: a in targets ==> a.id in byAsset
    ensures base == KeptLayers(layers, TargetRelations(graph, targets))
  {
    var targetRelations: set<string> := {};
    for i := 0 to |targets|
      invariant targetRelations == TargetRelations(graph, targets[..i])
    {
      assert targets[..i + 1] == targets[..i] + [targets[i]];
      assert targets[i] in targets;
      targetRelations := targetRelations + {byAsset[targets[i].id].id};
    }
    assert targets[..|targets|] == targets;
    base := [];
    for i := 0 to |layers|
      invariant base == KeptLayers(layers[..i], targetRelations)
    {
      assert layers[..i + 1][..i] == layers[..i];
      if layers[i].relationId !in targetRelations || !(INFERRED <= layers[i].sourceKind) {
        base := base + [layers[i]];
      }
    }
    assert layers[..|layers|] == layers;
  }

  /** Relations and assets can be told apart by id, and relations by trimmed, non-blank names. */
  ghost predicate Distinguishable(s: Strings, graph: Graph, assets: seq<Asset>) {
    && (forall i, j :: 0 <= i < j < |graph.relations| ==>
          graph.relations[i].id != graph.relations[j].id && graph.relations[i].name != graph.relations[j].name)
    && (forall r :: r in graph.relations ==> r.name != "" && s.trim(r.name) == r.name)
    && (forall i, j :: 0 <= i < j < |assets| ==> assets[i].id != assets[j].id)
  }

  /** Whatever target relation the `i`-th target reads belongs to one of its upstreams. */
  ghost predicate ReadsUpstreams(s: Strings, graph: Graph, targets: seq<Asset>, readsOf: Asset -> set<Relation>) {
    var byAsset, g := RelationsByAsset(graph.relations), GraphOf(s, targets);
    forall i, j | 0 <= i < |targets| && 0 <= j < |targets| && targets[j].id in byAsset ::
      byAsset[targets[j].id] in readsOf(targets[i]) ==> j in g[i]
  }

  /** A layer that stays although its relation is about to be inferred has no columns. */
  ghost predicate KeptLayersEmpty(graph: Graph, targets: seq<Asset>) {
    forall l :: l in graph.layers && l.relationId in TargetRelations(graph, targets) && !(INFERRED <= l.sourceKind) ==> l.columns == []
  }

  lemma {:induction false} RelationsByAssetMeaning(relations: seq<Relation>)
    ensures forall id :: id in RelationsByAsset(relations) ==>
        RelationsByAsset(relations)[id] in relations && RelationsByAsset(relations)[id].assetId == id
  {
    if relations != [] {
      RelationsByAssetMeaning(relations[..|relations| - 1]);
    }
  }

  lemma {:induction false} KeptLayersMeaning(layers: seq<Layer>, targetRelations: set<string>)
    ensures forall l :: l in KeptLayers(layers, targetRelations) ==> l in layers && Kept(l, targetRelations)
    ensures forall id :: id !in targetRelations ==> LastLayer(KeptLayers(layers, targetRelations), id) == LastLayer(layers, id)
  {
    if layers != [] {
      var n := |layers| - 1;
      var rest := KeptLayers(layers[..n], targetRelations);
      KeptLayersMeaning(layers[..n], targetRelations);
      forall id | id !in targetRelations
        ensures LastLayer(KeptLayers(layers, targetRelations), id) == LastLayer(layers, id)
      {
        assert [layers[n]][..0] == [];
        assert rest + [] == rest;
        LastLayerAppend(rest, [layers[n]], id);
      }
    }
  }

  /** Without cycles every target is in the greedy part of the order, so the order of any two
      targets respects upstreams. */
  lemma AcyclicOrder(g: TopoOrder.Graph)
    requires IsGraph(g) && forall i: nat :: i < |g| ==> !ReachesCycle(g, i)
    ensures InferenceOrder(g) == Greedy(g) && Topological(g, InferenceOrder(g))
  {
    GreedyIsTopological(g);
    var held := Held(|g|, Greedy(g), 0);
    HeldInRange(|g|, Greedy(g), 0);
    forall i: nat | i < |g|
      ensures i in Greedy(g)
    {
      HeldIffCycle(g, i);
    }
    NoMembers(held);
    assert Greedy(g) + [] == Greedy(g);
  }

  lemma NoMembers(q: seq<nat>)
    requires forall i: nat :: i !in q
    ensures q == []
  {
    if q != [] {
      HasMember(q);
    }
  }

  lemma OrderedDistinct(targets: seq<Asset>, order: seq<nat>)
    requires Indices(order, |targets|)
    requires forall i, j :: 0 <= i < j < |targets| ==> targets[i].id != targets[j].id
    ensures forall i, j :: 0 <= i < j < |order| ==> Pick(targets, order)[i].id != Pick(targets, order)[j].id
  {
    forall i, j | 0 <= i < j < |order|
      ensures Pick(targets, order)[i].id != Pick(targets, order)[j].id
    {
      assert order[i] in order && order[j] in order;
      assert order[i] < order[j] || order[j] < order[i];
    }
  }

  lemma SettingWellNamed(s: Strings, infer: Inference, graph: Graph, assets: seq<Asset>)
    requires Distinguishable(s, graph, assets)
    ensures WellNamed(SettingOf(s, infer, graph, assets))
  {
    var p, targets := SettingOf(s, infer, graph, assets), Targets(s, graph, assets);
    SettingValid(s, infer, graph, assets);
    TargetsMeaning(s, graph, assets);
    OrderIsPermutation(GraphOf(s, targets));
    OrderedDistinct(targets, InferenceOrder(GraphOf(s, targets)));
    RelationsByAssetMeaning(graph.relations);
  }

  lemma SettingReadsEarlier(s: Strings, infer: Inference, graph: Graph, assets: seq<Asset>, readsOf: Asset -> set<Relation>)
    requires ReadsUpstreams(s, graph, Targets(s, graph, assets), readsOf)
    requires forall i: nat :: i < |Targets(s, graph, assets)| ==> !ReachesCycle(GraphOf(s, Targets(s, graph, assets)), i)
    ensures SettingOf(s, infer, graph, assets).Valid()
    ensures ReadsEarlier(SettingOf(s, infer, graph, assets), readsOf)
  {
    var p, targets := SettingOf(s, infer, graph, assets), Targets(s, graph, assets);
    SettingValid(s, infer, graph, assets);
    var g := GraphOf(s, targets);
    var order := InferenceOrder(g);
    AcyclicOrder(g);
    forall i, j | 0 <= i < |p.targets| && 0 <= j < |p.targets| && Rel(p, j) in readsOf(p.targets[i])
      ensures j < i
    {
      assert order[i] in order && order[j] in order;
      assert p.targets[j] == targets[order[j]] && p.targets[i] == targets[order[i]];
      assert order[j] in g[order[i]];
      UpstreamEarlier(g, order, i, order[j]);
    }
  }

  lemma SettingBaseFits(s: Strings, infer: Inference, graph: Graph, assets: seq<Asset>)
    requires Distinguishable(s, graph, assets) && KeptLayersEmpty(graph, Targets(s, graph, assets))
    ensures SettingOf(s, infer, graph, assets).Valid()
    ensures BaseFits(SettingOf(s, infer, graph, assets), graph.layers)
  {
    var p, targets := SettingOf(s, infer, graph, assets), Targets(s, graph, assets);
    SettingWellNamed(s, infer, graph, assets);
    PickedAssets(targets, GraphOf(s, targets));
    var ids := TargetRelations(graph, p.targets);
    assert ids == TargetRelations(graph, targets);
    KeptLayersMeaning(graph.layers, ids);
    forall i | 0 <= i < |p.targets|
      ensures Rel(p, i).id in ids
    {
      assert p.targets[i] in p.targets;
    }
    forall r | r in p.relations && !IsTarget(p, r)
      ensures r.id !in ids
    {
      if r.id in ids {
        var a :| a in p.targets && a.id in p.relationOf && p.relationOf[a.id].id == r.id;
        var i :| 0 <= i < |p.targets| && p.targets[i] == a;
        SameId(p, Rel(p, i), r);
        assert IsTarget(p, r);
      }
    }
  }

  /** On a graph whose targets have acyclic upstreams, whose inference reads upstreams only, and
      whose kept layers tell nothing about targets, inference needs two rounds of its five and
      ends with the unique solution of all targets' inference equations; the layers of all
      other relations stay as they were. */
  lemma InferenceSettles(s: Strings, infer: Inference, graph: Graph, assets: seq<Asset>, cancelled: nat -> bool, readsOf: Asset -> set<Relation>)
      returns (inferred: map<string, Output>)
    requires Distinguishable(s, graph, assets)
    requires Oracle(SettingOf(s, infer, graph, assets), readsOf)
    requires Targets(s, graph, assets) != []
    requires forall i: nat :: i < |Targets(s, graph, assets)| ==> !ReachesCycle(GraphOf(s, Targets(s, graph, assets)), i)
    requires ReadsUpstreams(s, graph, Targets(s, graph, assets), readsOf)
    requires KeptLayersEmpty(graph, Targets(s, graph, assets))
    requires !cancelled(0) && !cancelled(1)
    ensures SettingOf(s, infer, graph, assets).Valid()
    ensures var p := SettingOf(s, infer, graph, assets);
            && Iterate(Rounds(p), cancelled, 0, Snapshot(graph.layers, map[])) == (Snapshot(Rebuilt(p, inferred), inferred), 2)
            && IsSolution(p, inferred)
            && (forall other :: IsSolution(p, other) ==> Rebuilt(p, other) == Rebuilt(p, inferred))
            && (forall r :: r in graph.relations && !IsTarget(p, r) ==> LastLayer(Rebuilt(p, inferred), r.id) == LastLayer(graph.layers, r.id))
  {
    var p, targets := SettingOf(s, infer, graph, assets), Targets(s, graph, assets);
    SettingWellNamed(s, infer, graph, assets);
    SettingReadsEarlier(s, infer, graph, assets, readsOf);
    SettingBaseFits(s, infer, graph, assets);
    OrderIsPermutation(GraphOf(s, targets));
    assert 0 in InferenceOrder(GraphOf(s, targets));
    inferred := SecondRoundIsQuiet(p, readsOf, cancelled, graph.layers);
    forall r | r in graph.relations && !IsTarget(p, r)
      ensures LastLayer(Rebuilt(p, inferred), r.id) == LastLayer(graph.layers, r.id)
    {
      InferredLayerOf(p, |p.targets|, inferred, r);
      LastLayerAppend(p.base, InferredLayers(p, |p.targets|, inferred), r.id);
    }
  }

  // ----- The answer for any graph -----

  /** The qualifying assets, in the order they were given. */
  ghost predicate QualifyingAt(s: Strings, graph: Graph, assets: seq<Asset>, targets: seq<Asset>, at: seq<nat>) {
    && |at| == |targets| && (forall j, k :: 0 <= j < k < |at| ==> at[j] < at[k])
    && (forall k :: 0 <= k < |at| ==> at[k] < |assets| && targets[k] == assets[at[k]])
    && (forall i: nat :: i < |assets| ==> (SomeQualifies(s, graph, assets[i]) <==> i in at))
  }

  ghost predicate Qualifying(s: Strings, graph: Graph, assets: seq<Asset>, targets: seq<Asset>) {
    exists at :: QualifyingAt(s, graph, assets, targets, at)
  }

  lemma {:induction false} TargetsQualify(s: Strings, graph: Graph, assets: seq<Asset>) returns (at: seq<nat>)
    ensures QualifyingAt(s, graph, assets, Targets(s, graph, assets), at)
  {
    at := [];
    if assets != [] {
      var n := |assets| - 1;
      var before := TargetsQualify(s, graph, assets[..n]);
      var last, shorter := assets[n], Targets(s, graph, assets[..n]);
      NeedsInferenceIff(s, graph, last);
      at := before;
      if SomeQualifies(s, graph, last) {
        at := before + [n];
      }
      QualifyOneMore(s, graph, assets, n, shorter, before, Targets(s, graph, assets), at);
    }
  }

  lemma QualifyOneMore(s: Strings, graph: Graph, assets: seq<Asset>, n: nat, shorter: seq<Asset>, before: seq<nat>, targets: seq<Asset>, at: seq<nat>)
    requires |assets| == n + 1 && QualifyingAt(s, graph, assets[..n], shorter, before)
    requires if SomeQualifies(s, graph, assets[n]) then at == before + [n] && targets == shorter + [assets[n]] else at == before && targets == shorter
    ensures QualifyingAt(s, graph, assets, targets, at)
  {
    assert forall k :: 0 <= k < |before| ==> before[k] < n && shorter[k] == assets[..n][before[k]] == assets[before[k]];
    forall i: nat | i < |assets|
      ensures SomeQualifies(s, graph, assets[i]) <==> i in at
    {
      if i < n {
        assert SomeQualifies(s, graph, assets[..n][i]) <==> i in before;
      } else {
        assert n !in before;
      }
    }
  }

  /** The targets are the qualifying assets. */
  lemma TargetsAre(s: Strings, graph: Graph, assets: seq<Asset>, targets: seq<Asset>)
    requires Qualifying(s, graph, assets, targets)
    ensures targets == Targets(s, graph, assets)
  {
    var at :| QualifyingAt(s, graph, assets, targets, at);
    var own := TargetsQualify(s, graph, assets);
    forall i: nat
      ensures i in at <==> i in own
    {
    }
    SameOrder(at, own);
  }

  /** What inference reads of the targets' relations belongs to upstreams. */
  ghost predicate ReadsOnlyUpstreams(s: Strings, graph: Graph, targets: seq<Asset>, readsOf: Asset -> set<Relation>) {
    forall i, j, r | 0 <= i < |targets| && 0 <= j < |targets| && Qualifies(s, graph, targets[j], r) ::
      r in readsOf(targets[i]) ==> j in GraphOf(s, targets)[i]
  }

  /** No layer that is not an inferred one tells anything about a qualifying asset. */
  ghost predicate NothingDeclared(s: Strings, graph: Graph, targets: seq<Asset>) {
    forall l, a, r :: l in graph.layers && a in targets && Qualifies(s, graph, a, r) && l.relationId == r.id && !("inferred-" <= l.sourceKind) ==> l.columns == []
  }

  /** Inference depends on what it sees of the relations it reads, and names its source and columns properly. */
  ghost predicate Reads(s: Strings, infer: Inference, relations: seq<Relation>, targets: seq<Asset>, readsOf: Asset -> set<Relation>) {
    forall a :: a in targets ==>
      && (forall e: Env :: CleanOutput(s, infer(a, e)))
      && (forall e: Env, f: Env :: Agree(e, f, readsOf(a)) ==> infer(a, e) == infer(a, f))
      && (forall r :: r in readsOf(a) ==> r in relations)
  }

  /** Inputs on which inference settles: acyclic upstreams, and inference that reads upstreams only. */
  ghost predicate Settles(s: Strings, infer: Inference, graph: Graph, assets: seq<Asset>, targets: seq<Asset>, readsOf: Asset -> set<Relation>) {
    && Qualifying(s, graph, assets, targets) && Distinguishable(s, graph, assets)
    && Reads(s, infer, graph.relations, targets, readsOf) && ReadsOnlyUpstreams(s, graph, targets, readsOf) && NothingDeclared(s, graph, targets)
    && forall i: nat :: i < |targets| ==> !ReachesCycle(GraphOf(s, targets), i)
  }

  /** The schema of every qualifying asset's relation is what inference yields from the schemas of the result. */
  ghost predicate InferredAnew(s: Strings, infer: Inference, graph: Graph, assets: seq<Asset>, result: Graph) {
    forall a, r :: a in assets && Qualifies(s, graph, a, r) ==> InferredFor(infer(a, EnvOf(s, result)), r, result.layers)
  }

  ghost predicate InferredFor(out: Output, r: Relation, layers: seq<Layer>) {
    out.columns != [] ==> LastLayer(layers, r.id) == Some(Layer(r.id, out.sourceKind, out.completeness, out.columns))
  }

  lemma HypothesesMeet(s: Strings, infer: Inference, graph: Graph, assets: seq<Asset>, targets: seq<Asset>, readsOf: Asset -> set<Relation>)
    requires Settles(s, infer, graph, assets, targets, readsOf)
    ensures targets == Targets(s, graph, assets)
    ensures ReadsUpstreams(s, graph, targets, readsOf) && KeptLayersEmpty(graph, targets)
  {
    TargetsAre(s, graph, assets, targets);
    TargetsMeaning(s, graph, assets);
    forall a | a in targets
      ensures a.id in RelationsByAsset(graph.relations) && Qualifies(s, graph, a, RelationsByAsset(graph.relations)[a.id])
    {
      NeedsInferenceIff(s, graph, a);
    }
  }

  lemma OracleMeets(s: Strings, infer: Inference, graph: Graph, assets: seq<Asset>, targets: seq<Asset>, readsOf: Asset -> set<Relation>)
    requires Settles(s, infer, graph, assets, targets, readsOf)
    ensures Oracle(SettingOf(s, infer, graph, assets), readsOf)
  {
    TargetsAre(s, graph, assets, targets);
    PickedAssets(targets, GraphOf(s, targets));
  }

  lemma LayerOfAsset(s: Strings, infer: Inference, graph: Graph, assets: seq<Asset>, inferred: map<string, Output>, a: Asset, r: Relation)
    requires Distinguishable(s, graph, assets) && a in assets && Qualifies(s, graph, a, r)
    requires SettingOf(s, infer, graph, assets).Valid() && IsSolution(SettingOf(s, infer, graph, assets), inferred)
    ensures var layers := Rebuilt(SettingOf(s, infer, graph, assets), inferred);
            InferredFor(infer(a, EnvOf(s, Graph(graph.relations, layers))), r, layers)
  {
    var p, targets := SettingOf(s, infer, graph, assets), Targets(s, graph, assets);
    SettingWellNamed(s, infer, graph, assets);
    TargetsMeaning(s, graph, assets);
    NeedsInferenceIff(s, graph, a);
    PickedAssets(targets, GraphOf(s, targets));
    var i :| 0 <= i < |p.targets| && p.targets[i] == a;
    RelIn(p, i);
    assert Solves(p, inferred, i) && Rel(p, i) == r;
    InferredLayerOf(p, |p.targets|, inferred, r);
    LastLayerAppend(p.base, InferredLayers(p, |p.targets|, inferred), r.id);
  }

  ghost predicate SettledAnswer(s: Strings, infer: Inference, graph: Graph, assets: seq<Asset>, cancelled: nat -> bool) {
    && SettingOf(s, infer, graph, assets).Valid()
    && var end := Iterate(Rounds(SettingOf(s, infer, graph, assets)), cancelled, 0, Snapshot(graph.layers, map[]));
       end.1 == 2 && InferredAnew(s, infer, graph, assets, Graph(graph.relations, end.0.layers))
  }

  /** On such inputs two rounds are begun and every qualifying asset's relation is inferred. */
  lemma SettledResult(s: Strings, infer: Inference, graph: Graph, assets: seq<Asset>, cancelled: nat -> bool, targets: seq<Asset>, readsOf: Asset -> set<Relation>)
    requires Settles(s, infer, graph, assets, targets, readsOf) && targets != [] && !cancelled(0) && !cancelled(1)
    ensures SettledAnswer(s, infer, graph, assets, cancelled)
  {
    HypothesesMeet(s, infer, graph, assets, targets, readsOf);
    OracleMeets(s, infer, graph, assets, targets, readsOf);
    var inferred := InferenceSettles(s, infer, graph, assets, cancelled, readsOf);
    var result := Graph(graph.relations, Rebuilt(SettingOf(s, infer, graph, assets), inferred));
    forall a, r | a in assets && Qualifies(s, graph, a, r)
      ensures InferredFor(infer(a, EnvOf(s, result)), r, result.layers)
    {
      LayerOfAsset(s, infer, graph, assets, inferred, a, r);
    }
  }

  lemma NoTargetsIff(s: Strings, graph: Graph, assets: seq<Asset>)
    ensures Targets(s, graph, assets) == [] <==> forall a :: a in assets ==> !SomeQualifies(s, graph, a)
  {
    TargetsMeaning(s, graph, assets);
    forall a | a in assets
      ensures a in Targets(s, graph, assets) <==> SomeQualifies(s, graph, a)
    {
      NeedsInferenceIff(s, graph, a);
    }
  }

  const ONE_ASSET := Asset("a", "a", "", "select 1 as x", [])
  const ONE_RELATION := Relation("1", "r", "a")

  function Same(text: string): string {
    text
  }

  function OneColumn(a: Asset, env: Env): Output {
    Output([Column("x", "int")], "inferred-ast", "complete")
  }

  function NoReads(a: Asset): set<Relation> {
    {}
  }

  /** Such inputs exist: one asset without upstreams, whose relation has no layer yet. */
  lemma OneAssetSettles()
    ensures Settles(Strings(Same, Same), OneColumn, Graph([ONE_RELATION], []), [ONE_ASSET], [ONE_ASSET], NoReads)
  {
    var s, graph := Strings(Same, Same), Graph([ONE_RELATION], []);
    assert LastOfAsset(graph.relations, "a", 0) && graph.relations[0] == ONE_RELATION;
    assert Qualifies(s, graph, ONE_ASSET, ONE_RELATION);
    assert QualifyingAt(s, graph, [ONE_ASSET], [ONE_ASSET], [0]);
    var g := GraphOf(s, [ONE_ASSET]);
    assert g[0] == [];
    GreedyIsTopological(g);
    assert !Ready(g, Greedy(g), 0);
    HeldIffCycle(g, 0);
  }

  /** And then the relation gets the inferred layer. */
  lemma OneAssetIsInferred(cancelled: nat -> bool)
    requires !cancelled(0) && !cancelled(1)
    ensures var p := SettingOf(Strings(Same, Same), OneColumn, Graph([ONE_RELATION], []), [ONE_ASSET]);
            p.Valid() && var end := Iterate(Rounds(p), cancelled, 0, Snapshot([], map[]));
            end.1 == 2 && LastLayer(end.0.layers, "1") == Some(Layer("1", "inferred-ast", "complete", [Column("x", "int")]))
  {
    var s, graph := Strings(Same, Same), Graph([ONE_RELATION], []);
    OneAssetSettles();
    SettledResult(s, OneColumn, graph, [ONE_ASSET], cancelled, [ONE_ASSET], NoReads);
    assert LastOfAsset(graph.relations, "a", 0) && graph.relations[0] == ONE_RELATION;
    assert Qualifies(s, graph, ONE_ASSET, ONE_RELATION);
  }

  /** Fills in the schemas of the relations that need inference; relations themselves stay. */
  method InferSchemaSnapshot(s: Strings, infer: Inference, graph: Graph, assets: seq<Asset>, cancelled: nat -> bool)
      returns (result: Graph, rounds: nat)
    ensures result.relations == graph.relations && KeepsTheRest(s, graph, assets, result.layers)
    ensures rounds == 0 <==> cancelled(0) || forall a :: a in assets ==> !SomeQualifies(s, graph, a)
    ensures (forall a :: a in assets ==> !SomeQualifies(s, graph, a)) ==> result == graph
    ensures forall targets, readsOf :: Settles(s, infer, graph, assets, targets, readsOf) && targets != [] && !cancelled(0) && !cancelled(1) ==>
              rounds == 2 && InferredAnew(s, infer, graph, assets, result)
    ensures SettingOf(s, infer, graph, assets).Valid()
    ensures Targets(s, graph, assets) == [] ==> result == graph && rounds == 0
    ensures Targets(s, graph, assets) != [] ==>
              var end := Iterate(Rounds(SettingOf(s, infer, graph, assets)), cancelled, 0, Snapshot(graph.layers, map[]));
              result.layers == end.0.layers && rounds == end.1
  {
    SettingValid(s, infer, graph, assets);
    NoTargetsIff(s, graph, assets);
    EndKeepsTheRest(s, infer, graph, assets, cancelled);
    forall targets, readsOf | Settles(s, infer, graph, assets, targets, readsOf) && targets != [] && !cancelled(0) && !cancelled(1)
      ensures SettledAnswer(s, infer, graph, assets, cancelled) && targets == Targets(s, graph, assets)
    {
      TargetsAre(s, graph, assets, targets);
      SettledResult(s, infer, graph, assets, cancelled, targets, readsOf);
    }
    var relationByAssetID := IndexRelations(graph.relations);
    var targets := SelectTargets(s, graph, assets, relationByAssetID);
    if |targets| == 0 {
      return graph, 0;
    }
    targets := TopoOrderInferenceAssets(s, targets);
    var base := KeepLayers(graph.layers, targets, relationByAssetID, graph);
    var end;
    end, rounds := RunRounds(Setting(s, infer, targets, relationByAssetID, graph.relations, base), cancelled, Snapshot(graph.layers, map[]));
    result := Graph(graph.relations, end.layers);
  }
}
