/** Filling in unknown relation schemas: rounds of inference over an environment that is updated
    in place, until a round changes nothing or the bound on rounds is reached. */
module SchemaInference {
  import opened Wrappers
  import opened TopoOrder

  datatype Column = Column(name: string, ty: string)

  datatype Relation = Relation(id: string, name: string, assetId: string)

  datatype Layer = Layer(relationId: string, sourceKind: string, completeness: string, columns: seq<Column>)

  /** The parts of the canonical graph that inference reads and writes. */
  datatype Graph = Graph(relations: seq<Relation>, layers: seq<Layer>)

  datatype Output = Output(columns: seq<Column>, sourceKind: string, completeness: string)

  const MAX_ROUNDS := 5

  // ----- The environment of inference -----

  /** The engine's index of columns, the validation schema, and which relations are known. */
  datatype Env = Env(columns: map<string, seq<Column>>, schema: map<string, map<string, string>>, known: map<string, bool>)

  /** What inference can learn about one relation. */
  datatype View = View(columns: seq<Column>, schema: Option<map<string, string>>, known: bool)

  function See(env: Env, r: Relation): View {
    View(if r.id in env.columns then env.columns[r.id] else [],
         if r.name in env.schema then Some(env.schema[r.name]) else None,
         r.name in env.known && env.known[r.name])
  }

  /** The last of the layers that describe a relation. */
  function LastLayer(layers: seq<Layer>, id: string): Option<Layer>
  {
    if layers == [] then None
    else if layers[|layers| - 1].relationId == id then Some(layers[|layers| - 1])
    else LastLayer(layers[..|layers| - 1], id)
  }

  /** Column types by name; a later column replaces an earlier one of the same name. */
  function ColumnTypes(columns: seq<Column>): map<string, string>
  {
    if columns == [] then map[]
    else var last := columns[|columns| - 1]; ColumnTypes(columns[..|columns| - 1])[last.name := last.ty]
  }

  /** The same with names trimmed and blank ones left out. */
  function TrimmedTypes(s: Strings, columns: seq<Column>): map<string, string>
  {
    if columns == [] then map[]
    else
      var last := columns[|columns| - 1];
      var types := TrimmedTypes(s, columns[..|columns| - 1]);
      if s.trim(last.name) == "" then types else types[s.trim(last.name) := last.ty]
  }

  function LayerTypes(s: Strings, layer: Option<Layer>): map<string, string> {
    match layer case Some(l) => TrimmedTypes(s, l.columns) case None => map[]
  }

  function LayerKnown(s: Strings, layer: Option<Layer>): bool {
    layer.Some? && layer.value.completeness == "complete" && |LayerTypes(s, layer)| > 0
  }

  function SchemaOf(s: Strings, graph: Graph, n: nat): map<string, map<string, string>>
    requires n <= |graph.relations|
  {
    if n == 0 then map[] else
      var r, rest := graph.relations[n - 1], SchemaOf(s, graph, n - 1);
      if s.trim(r.name) == "" then rest else rest[s.trim(r.name) := LayerTypes(s, LastLayer(graph.layers, r.id))]
  }

  function KnownOf(s: Strings, graph: Graph, n: nat): map<string, bool>
    requires n <= |graph.relations|
  {
    if n == 0 then map[] else
      var r, rest := graph.relations[n - 1], KnownOf(s, graph, n - 1);
      if s.trim(r.name) == "" then rest else rest[s.trim(r.name) := LayerKnown(s, LastLayer(graph.layers, r.id))]
  }

  function ColumnIndex(layers: seq<Layer>): map<string, seq<Column>>
  {
    if layers == [] then map[]
    else var last := layers[|layers| - 1]; ColumnIndex(layers[..|layers| - 1])[last.relationId := last.columns]
  }

  /** The environment that a round starts from. */
  function EnvOf(s: Strings, graph: Graph): Env {
    Env(ColumnIndex(graph.layers), SchemaOf(s, graph, |graph.relations|), KnownOf(s, graph, |graph.relations|))
  }

  // ----- The rounds, as a specification -----

  type Inference = (Asset, Env) -> Output

  /** What stays fixed during the rounds: string functions, the inference oracle, the targets in
      inference order, each target's relation, the relations, and the layers that are kept. */
  datatype Setting = Setting(
    s: Strings, infer: Inference, targets: seq<Asset>, relationOf: map<string, Relation>,
    relations: seq<Relation>, base: seq<Layer>)
  {
    ghost predicate Valid() {
      forall a :: a in targets ==> a.id in relationOf
    }
  }

  /** The state inside a round. */
  datatype State = State(env: Env, inferred: map<string, Output>, changed: bool)

  function Update(env: Env, r: Relation, out: Output): Env {
    var types := ColumnTypes(out.columns);
    Env(env.columns[r.id := out.columns],
        env.schema[r.name := types],
        env.known[r.name := out.completeness == "complete" && |types| > 0])
  }

  /** The zero value that a map lookup yields for an asset not inferred yet. */
  function Previous(inferred: map<string, Output>, id: string): Output {
    if id in inferred then inferred[id] else Output([], "", "")
  }

  function Step(p: Setting, a: Asset, st: State): State
    requires a.id in p.relationOf
  {
    var out := p.infer(a, st.env);
    var previous := Previous(st.inferred, a.id);
    if previous.columns == out.columns && previous.sourceKind == out.sourceKind then st
    else State(Update(st.env, p.relationOf[a.id], out), st.inferred[a.id := out], true)
  }

  /** The state after the first `k` targets. */
  function Sweep(p: Setting, k: nat, st: State): State
    requires p.Valid() && k <= |p.targets|
  {
    if k == 0 then st else Step(p, p.targets[k - 1], Sweep(p, k - 1, st))
  }

  function InferredLayer(p: Setting, a: Asset, inferred: map<string, Output>): seq<Layer>
    requires a.id in p.relationOf
  {
    if a.id !in inferred || inferred[a.id].columns == [] then []
    else [Layer(p.relationOf[a.id].id, inferred[a.id].sourceKind, inferred[a.id].completeness, inferred[a.id].columns)]
  }

  function InferredLayers(p: Setting, k: nat, inferred: map<string, Output>): seq<Layer>
    requires p.Valid() && k <= |p.targets|
  {
    if k == 0 then [] else InferredLayers(p, k - 1, inferred) + InferredLayer(p, p.targets[k - 1], inferred)
  }

  /** The layers that the end of a round puts in place. */
  function Rebuilt(p: Setting, inferred: map<string, Output>): seq<Layer>
    requires p.Valid()
  {
    p.base + InferredLayers(p, |p.targets|, inferred)
  }

  /** What a round starts from: the layers in place and the outputs recorded. */
  datatype Snapshot = Snapshot(layers: seq<Layer>, inferred: map<string, Output>)

  /** What one round makes of a snapshot, if it changes anything. */
  function AfterRound(p: Setting, x: Snapshot): Option<Snapshot>
    requires p.Valid()
  {
    var st := Sweep(p, |p.targets|, State(EnvOf(p.s, Graph(p.relations, x.layers)), x.inferred, false));
    if st.changed then Some(Snapshot(Rebuilt(p, st.inferred), st.inferred)) else None
  }

  function Rounds(p: Setting): Snapshot -> Option<Snapshot>
    requires p.Valid()
  {
    x => AfterRound(p, x)
  }

  /** Repeats `next` until it changes nothing, the bound is reached, or the context is found
      cancelled at the start of a round; also counts the rounds begun. */
  function Iterate(next: Snapshot -> Option<Snapshot>, cancelled: nat -> bool, round: nat, x: Snapshot): (Snapshot, nat)
    requires round <= MAX_ROUNDS
    decreases MAX_ROUNDS - round
  {
    if round == MAX_ROUNDS || cancelled(round) then (x, round)
    else
      match next(x)
      case None => (x, round + 1)
      case Some(y) => Iterate(next, cancelled, round + 1, y)
  }

  /** Rounds that go on changing things are stopped after the fifth. */
  lemma FiveRounds(next: Snapshot -> Option<Snapshot>, cancelled: nat -> bool, x: Snapshot)
    requires (forall y :: next(y).Some?) && forall k: nat :: !cancelled(k)
    ensures Iterate(next, cancelled, 0, x).1 == 5
  {
    var one := next(x).value;
    var two := next(one).value;
    var three := next(two).value;
    var four := next(three).value;
    assert Iterate(next, cancelled, 3, three) == Iterate(next, cancelled, 5, next(four).value);
  }

  // ----- What the schema shows, said of the layers themselves -----

  /** The last column of this name, names compared without white space around them. */
  ghost predicate LastColumn(s: Strings, columns: seq<Column>, name: string, k: nat) {
    k < |columns| && s.trim(columns[k].name) == name && forall j :: k < j < |columns| ==> s.trim(columns[j].name) != name
  }

  /** The types are those of the last columns of each name that is not blank. */
  lemma {:induction false} TrimmedTypesMeaning(s: Strings, columns: seq<Column>, name: string) returns (k: nat)
    ensures if name in TrimmedTypes(s, columns) then name != "" && LastColumn(s, columns, name, k) && TrimmedTypes(s, columns)[name] == columns[k].ty
            else name == "" || forall j :: 0 <= j < |columns| ==> s.trim(columns[j].name) != name
  {
    k := 0;
    if columns != [] {
      var n := |columns| - 1;
      k := TrimmedTypesMeaning(s, columns[..n], name);
      if name != "" && s.trim(columns[n].name) == name {
        k := n;
      }
    }
  }

  /** The layer that counts for a relation is the last one that names it. */
  lemma {:induction false} LastLayerMeaning(layers: seq<Layer>, id: string) returns (k: nat)
    ensures match LastLayer(layers, id)
            case Some(l) => k < |layers| && layers[k] == l && l.relationId == id && forall j :: k < j < |layers| ==> layers[j].relationId != id
            case None => forall j :: 0 <= j < |layers| ==> layers[j].relationId != id
  {
    k := 0;
    if layers != [] {
      var n := |layers| - 1;
      k := LastLayerMeaning(layers[..n], id);
      if layers[n].relationId == id {
        k := n;
      }
    }
  }

  /** A relation is known exactly if its layer is complete and has a column whose name is not blank. */
  lemma KnownMeaning(s: Strings, layer: Option<Layer>)
    ensures LayerKnown(s, layer) <==>
              match layer
              case None => false
              case Some(l) => l.completeness == "complete" && exists j :: 0 <= j < |l.columns| && s.trim(l.columns[j].name) != ""
  {
    if layer.Some? {
      var types := TrimmedTypes(s, layer.value.columns);
      if types == map[] {
        forall j | 0 <= j < |layer.value.columns|
          ensures s.trim(layer.value.columns[j].name) == ""
        {
          var k := TrimmedTypesMeaning(s, layer.value.columns, s.trim(layer.value.columns[j].name));
        }
      } else {
        var name :| name in types;
        var k := TrimmedTypesMeaning(s, layer.value.columns, name);
        assert types.Keys != {} && |types| == |types.Keys|;
      }
    }
  }

  /** The schema has an entry for every relation whose name is not blank, made from the layer of the last relation of
      that name. */
  lemma {:induction false} EntryMeaning(s: Strings, graph: Graph, n: nat, k: nat)
    requires k < n <= |graph.relations| && s.trim(graph.relations[k].name) != ""
    requires forall j :: k < j < n ==> s.trim(graph.relations[j].name) != s.trim(graph.relations[k].name)
    ensures var name, layer := s.trim(graph.relations[k].name), LastLayer(graph.layers, graph.relations[k].id);
            && name in SchemaOf(s, graph, n) && name in KnownOf(s, graph, n)
            && SchemaOf(s, graph, n)[name] == (match layer case Some(l) => TrimmedTypes(s, l.columns) case None => map[])
            && KnownOf(s, graph, n)[name] == LayerKnown(s, layer)
    decreases n
  {
    if k < n - 1 {
      EntryMeaning(s, graph, n - 1, k);
    }
  }

  /** And it has no other. */
  lemma {:induction false} OnlyEntries(s: Strings, graph: Graph, n: nat, name: string)
    requires n <= |graph.relations| && (name in SchemaOf(s, graph, n) || name in KnownOf(s, graph, n))
    ensures name != "" && exists k :: 0 <= k < n && s.trim(graph.relations[k].name) == name
  {
    if s.trim(graph.relations[n - 1].name) != name || name == "" {
      OnlyEntries(s, graph, n - 1, name);
    }
  }

  // ----- The round, in place -----

  /** The engine, as far as its column index goes. */
  class Engine {
    var columnsByRelationID: map<string, seq<Column>>

    constructor (layers: seq<Layer>)
      ensures columnsByRelationID == ColumnIndex(layers)
    {
      columnsByRelationID := map[];
      new;
      for i := 0 to |layers|
        invariant columnsByRelationID == ColumnIndex(layers[..i])
      {
        assert layers[..i + 1][..i] == layers[..i];
        columnsByRelationID := columnsByRelationID[layers[i].relationId := layers[i].columns];
      }
      assert layers[..|layers|] == layers;
    }

    method SetRelationColumns(id: string, columns: seq<Column>)
      modifies this
      ensures columnsByRelationID == old(columnsByRelationID)[id := columns]
    {
      columnsByRelationID := columnsByRelationID[id := columns];
    }
  }

  method LayersByRelation(layers: seq<Layer>) returns (byRelation: map<string, Layer>)
    ensures forall id :: (if id in byRelation then Some(byRelation[id]) else None) == LastLayer(layers, id)
  {
    byRelation := map[];
    for i := 0 to |layers|
      invariant forall id :: (if id in byRelation then Some(byRelation[id]) else None) == LastLayer(layers[..i], id)
    {
      assert layers[..i + 1][..i] == layers[..i];
      byRelation := byRelation[layers[i].relationId := layers[i]];
    }
    assert layers[..|layers|] == layers;
  }

  method ValidationSchema(s: Strings, graph: Graph) returns (schema: map<string, map<string, string>>, known: map<string, bool>)
    ensures schema == SchemaOf(s, graph, |graph.relations|)
    ensures known == KnownOf(s, graph, |graph.relations|)
  {
    var layersByRelation := LayersByRelation(graph.layers);
    schema, known := map[], map[];
    for i := 0 to |graph.relations|
      invariant schema == SchemaOf(s, graph, i) && known == KnownOf(s, graph, i)
    {
      var r := graph.relations[i];
      var name := s.trim(r.name);
      if name == "" {
        continue;
      }
      var layer := if r.id in layersByRelation then Some(layersByRelation[r.id]) else None;
      var columns := map[];
      if layer.Some? {
        columns := TrimmedTypesOf(s, layer.value.columns);
      }
      schema := schema[name := columns];
      known := known[name := layer.Some? && layer.value.completeness == "complete" && |columns| > 0];
    }
  }

  /** The loop over the columns of a layer. */
  method TrimmedTypesOf(s: Strings, columns: seq<Column>) returns (types: map<string, string>)
    ensures types == TrimmedTypes(s, columns)
  {
    types := map[];
    for k := 0 to |columns|
      invariant types == TrimmedTypes(s, columns[..k])
    {
      var column := columns[k];
      assert columns[..k + 1][..k] == columns[..k];
      if s.trim(column.name) != "" {
        types := types[s.trim(column.name) := column.ty];
      }
    }
    assert columns[..|columns|] == columns;
  }

  method TypesOf(columns: seq<Column>) returns (types: map<string, string>)
    ensures types == ColumnTypes(columns)
  {
    types := map[];
    for k := 0 to |columns|
      invariant types == ColumnTypes(columns[..k])
    {
      assert columns[..k + 1][..k] == columns[..k];
      types := types[columns[k].name := columns[k].ty];
    }
    assert columns[..|columns|] == columns;
  }

  /** One target of a round: records the inferred schema and makes it visible at once. */
  method InferOne(p: Setting, a: Asset, engine: Engine, schema: map<string, map<string, string>>, known: map<string, bool>,
                  inferred: map<string, Output>, changed: bool)
      returns (schema': map<string, map<string, string>>, known': map<string, bool>, inferred': map<string, Output>, changed': bool)
    requires a.id in p.relationOf
    modifies engine
    ensures State(Env(engine.columnsByRelationID, schema', known'), inferred', changed')
         == Step(p, a, State(Env(old(engine.columnsByRelationID), schema, known), inferred, changed))
  {
    schema', known', inferred', changed' := schema, known, inferred, changed;
    var layer := p.infer(a, Env(engine.columnsByRelationID, schema, known));
    var next := layer.columns;
    var previous := Previous(inferred, a.id);
    if previous.columns == layer.columns && previous.sourceKind == layer.sourceKind {
      return;
    }
    inferred' := inferred[a.id := layer];
    var relation := p.relationOf[a.id];
    engine.SetRelationColumns(relation.id, next);
    var columns := TypesOf(next);
    schema' := schema[relation.name := columns];
    known' := known[relation.name := false];
    if layer.completeness == "complete" && |columns| > 0 {
      known' := known[relation.name := true];
    }
    changed' := true;
  }

  /** The loop over targets: every target sees what the targets before it have just produced. */
  method SweepTargets(p: Setting, engine: Engine, schema0: map<string, map<string, string>>, known0: map<string, bool>, inferred0: map<string, Output>)
      returns (inferred: map<string, Output>, changed: bool)
    requires p.Valid()
    modifies engine
    ensures var st := Sweep(p, |p.targets|, State(Env(old(engine.columnsByRelationID), schema0, known0), inferred0, false));
            inferred == st.inferred && changed == st.changed
  {
    var schema, known := schema0, known0;
    inferred, changed := inferred0, false;
    ghost var st0 := State(Env(engine.columnsByRelationID, schema, known), inferred, changed);
    for k := 0 to |p.targets|
      invariant State(Env(engine.columnsByRelationID, schema, known), inferred, changed) == Sweep(p, k, st0)
    {
      SweepNext(p, k, st0);
      schema, known, inferred, changed := InferOne(p, p.targets[k], engine, schema, known, inferred, changed);
    }
  }

  /** One round, from a fresh environment. */
  method Round(p: Setting, layers: seq<Layer>, inferred0: map<string, Output>)
      returns (inferred: map<string, Output>, changed: bool)
    requires p.Valid()
    ensures var st := Sweep(p, |p.targets|, State(EnvOf(p.s, Graph(p.relations, layers)), inferred0, false));
            inferred == st.inferred && changed == st.changed
  {
    var engine := new Engine(layers);
    var schema, known := ValidationSchema(p.s, Graph(p.relations, layers));
    inferred, changed := SweepTargets(p, engine, schema, known, inferred0);
  }

  lemma SweepNext(p: Setting, k: nat, st0: State)
    requires p.Valid() && k < |p.targets|
    ensures p.targets[k].id in p.relationOf
    ensures Sweep(p, k + 1, st0) == Step(p, p.targets[k], Sweep(p, k, st0))
  {
  }

  /** The end of a round: the kept layers, then one for every target with inferred columns. */
  method RebuildLayers(p: Setting, inferred: map<string, Output>) returns (layers: seq<Layer>)
    requires p.Valid()
    ensures layers == Rebuilt(p, inferred)
  {
    layers := p.base;
    for k := 0 to |p.targets|
      invariant layers == p.base + InferredLayers(p, k, inferred)
    {
      var a := p.targets[k];
      if a.id in inferred && |inferred[a.id].columns| > 0 {
        var layer, relation := inferred[a.id], p.relationOf[a.id];
        layers := layers + [Layer(relation.id, layer.sourceKind, layer.completeness, layer.columns)];
      }
    }
  }

  /** The body of the loop of InferSchemaSnapshot. */
  method NextRound(p: Setting, x: Snapshot) returns (y: Option<Snapshot>)
    requires p.Valid()
    ensures y == Rounds(p)(x)
  {
    var inferred, changed := Round(p, x.layers, x.inferred);
    if !changed {
      return None;
    }
    var layers := RebuildLayers(p, inferred);
    return Some(Snapshot(layers, inferred));
  }

  /** The loop of InferSchemaSnapshot. */
  method RunRounds(p: Setting, cancelled: nat -> bool, x0: Snapshot) returns (x: Snapshot, rounds: nat)
    requires p.Valid()
    ensures (x, rounds) == Iterate(Rounds(p), cancelled, 0, x0)
  {
    x, rounds := x0, 0;
    ghost var next := Rounds(p);
    ghost var goal := Iterate(next, cancelled, 0, x0);
    while rounds < MAX_ROUNDS
      invariant rounds <= MAX_ROUNDS
      invariant Iterate(next, cancelled, rounds, x) == goal
    {
      if cancelled(rounds) {
        return;
      }
      var y := NextRound(p, x);
      rounds := rounds + 1;
      if y.None? {
        return;
      }
      x := y.value;
    }
  }

  // ----- When the rounds settle -----

  /** Relations have ids and trimmed, non-blank names of their own; every target has a relation
      of its own. */
  ghost predicate WellNamed(p: Setting) {
    && p.Valid()
    && (forall i, j :: 0 <= i < j < |p.relations| ==> p.relations[i].id != p.relations[j].id && p.relations[i].name != p.relations[j].name)
    && (forall r :: r in p.relations ==> r.name != "" && p.s.trim(r.name) == r.name)
    && (forall a :: a in p.targets ==> p.relationOf[a.id] in p.relations)
    && (forall i, j :: 0 <= i < j < |p.targets| ==> p.targets[i].id != p.targets[j].id && Rel(p, i) != Rel(p, j))
  }

  /** The relation of the `i`-th target. */
  ghost function Rel(p: Setting, i: nat): Relation
    requires p.Valid() && i < |p.targets|
  {
    p.relationOf[p.targets[i].id]
  }

  /** The inference oracle names its source and its columns properly. */
  ghost predicate CleanOutput(s: Strings, out: Output) {
    out.sourceKind != "" && forall c :: c in out.columns ==> c.name != "" && s.trim(c.name) == c.name
  }

  ghost predicate Agree(e: Env, f: Env, relations: set<Relation>) {
    forall r :: r in relations ==> See(e, r) == See(f, r)
  }

  /** Inference is a function of what it sees of the relations it reads. */
  ghost predicate Oracle(p: Setting, readsOf: Asset -> set<Relation>) {
    forall a :: a in p.targets ==>
      && (forall e: Env :: CleanOutput(p.s, p.infer(a, e)))
      && (forall e: Env, f: Env :: Agree(e, f, readsOf(a)) ==> p.infer(a, e) == p.infer(a, f))
      && (forall r :: r in readsOf(a) ==> r in p.relations)
  }

  /** A target reads relations of earlier targets only, or of no target at all. */
  ghost predicate ReadsEarlier(p: Setting, readsOf: Asset -> set<Relation>)
    requires p.Valid()
  {
    forall i, j :: 0 <= i < |p.targets| && 0 <= j < |p.targets| && Rel(p, j) in readsOf(p.targets[i]) ==> j < i
  }

  /** The kept layers tell nothing about targets, and all there is to tell about the rest. */
  ghost predicate BaseFits(p: Setting, layers: seq<Layer>)
    requires p.Valid()
  {
    && (forall l, i :: l in p.base && 0 <= i < |p.targets| && l.relationId == Rel(p, i).id ==> l.columns == [])
    && (forall r :: r in p.relations && !IsTarget(p, r) ==> LastLayer(layers, r.id) == LastLayer(p.base, r.id))
  }

  ghost predicate IsTarget(p: Setting, r: Relation)
    requires p.Valid()
  {
    exists i :: 0 <= i < |p.targets| && Rel(p, i) == r
  }

  function OutputView(out: Output): View {
    var types := ColumnTypes(out.columns);
    View(out.columns, Some(types), out.completeness == "complete" && |types| > 0)
  }

  function LayerView(s: Strings, layer: Option<Layer>): View {
    View(match layer case Some(l) => l.columns case None => [], Some(LayerTypes(s, layer)), LayerKnown(s, layer))
  }

  lemma {:induction false} IndexedColumns(layers: seq<Layer>, id: string)
    ensures (if id in ColumnIndex(layers) then ColumnIndex(layers)[id] else [])
         == (match LastLayer(layers, id) case Some(l) => l.columns case None => [])
    ensures id in ColumnIndex(layers) <==> LastLayer(layers, id).Some?
  {
    if layers != [] {
      IndexedColumns(layers[..|layers| - 1], id);
    }
  }

  lemma {:induction false} SchemaEntry(p: Setting, layers: seq<Layer>, k: nat, n: nat)
    requires WellNamed(p) && k < |p.relations| && n <= |p.relations|
    ensures p.relations[k].name in SchemaOf(p.s, Graph(p.relations, layers), n) <==> k < n
    ensures k < n ==>
              SchemaOf(p.s, Graph(p.relations, layers), n)[p.relations[k].name] == LayerTypes(p.s, LastLayer(layers, p.relations[k].id))
  {
    if n > 0 {
      SchemaEntry(p, layers, k, n - 1);
      assert p.relations[n - 1] in p.relations;
    }
  }

  lemma {:induction false} KnownEntry(p: Setting, layers: seq<Layer>, k: nat, n: nat)
    requires WellNamed(p) && k < |p.relations| && n <= |p.relations|
    ensures p.relations[k].name in KnownOf(p.s, Graph(p.relations, layers), n) <==> k < n
    ensures k < n ==>
              KnownOf(p.s, Graph(p.relations, layers), n)[p.relations[k].name] == LayerKnown(p.s, LastLayer(layers, p.relations[k].id))
  {
    if n > 0 {
      KnownEntry(p, layers, k, n - 1);
      assert p.relations[n - 1] in p.relations;
    }
  }

  /** A fresh environment shows of every relation what its last layer says. */
  lemma SeeFresh(p: Setting, layers: seq<Layer>, r: Relation)
    requires WellNamed(p) && r in p.relations
    ensures See(EnvOf(p.s, Graph(p.relations, layers)), r) == LayerView(p.s, LastLayer(layers, r.id))
  {
    var k :| 0 <= k < |p.relations| && p.relations[k] == r;
    IndexedColumns(layers, r.id);
    SchemaEntry(p, layers, k, |p.relations|);
    KnownEntry(p, layers, k, |p.relations|);
  }

  /** A round records an output under the relation's name as it is, the next round reads it under the trimmed name: the
      output is seen at once under that name if and only if the name has no white space around it. */
  lemma SeenAtOnceIff(s: Strings, env: Env, r: Relation)
    ensures (forall out :: SeenUnder(Update(env, r, out), s.trim(r.name), ColumnTypes(out.columns))) <==> s.trim(r.name) == r.name
  {
    if s.trim(r.name) != r.name {
      var x := Output([Column("x", "")], "", "");
      var none := Output([], "", "");
      assert "x" in ColumnTypes(x.columns);
      assert !SeenUnder(Update(env, r, x), s.trim(r.name), ColumnTypes(x.columns))
          || !SeenUnder(Update(env, r, none), s.trim(r.name), ColumnTypes(none.columns));
    }
  }

  ghost predicate SeenUnder(env: Env, name: string, types: map<string, string>) {
    name in env.schema && env.schema[name] == types
  }

  lemma SeeUpdated(p: Setting, env: Env, q: Relation, out: Output, r: Relation)
    requires WellNamed(p) && q in p.relations && r in p.relations
    ensures See(Update(env, q, out), r) == if r == q then OutputView(out) else See(env, r)
  {
    var j :| 0 <= j < |p.relations| && p.relations[j] == q;
    var k :| 0 <= k < |p.relations| && p.relations[k] == r;
  }

  lemma {:induction false} CleanTypes(s: Strings, columns: seq<Column>)
    requires forall c :: c in columns ==> c.name != "" && s.trim(c.name) == c.name
    ensures TrimmedTypes(s, columns) == ColumnTypes(columns)
  {
    if columns != [] {
      CleanTypes(s, columns[..|columns| - 1]);
    }
  }

  lemma {:induction false} LastLayerAppend(a: seq<Layer>, b: seq<Layer>, id: string)
    ensures LastLayer(a + b, id) == if LastLayer(b, id).Some? then LastLayer(b, id) else LastLayer(a, id)
  {
    if b == [] {
      assert a + b == a;
    } else {
      assert (a + b)[..|a + b| - 1] == a + b[..|b| - 1];
      LastLayerAppend(a, b[..|b| - 1], id);
    }
  }

  /** Among the inferred layers, a relation has the one of its own target and no other. */
  lemma {:induction false} NoLayerOf(p: Setting, k: nat, inferred: map<string, Output>, r: Relation)
    requires WellNamed(p) && k <= |p.targets| && r in p.relations && forall i :: 0 <= i < k ==> Rel(p, i) != r
    ensures LastLayer(InferredLayers(p, k, inferred), r.id) == None
  {
    if k > 0 {
      NoLayerOf(p, k - 1, inferred, r);
      OtherLayer(p, k, inferred, r);
    }
  }

  /** The last target does not count for another relation. */
  lemma OtherLayer(p: Setting, k: nat, inferred: map<string, Output>, r: Relation)
    requires WellNamed(p) && 0 < k <= |p.targets| && r in p.relations && Rel(p, k - 1) != r
    ensures LastLayer(InferredLayers(p, k, inferred), r.id) == LastLayer(InferredLayers(p, k - 1, inferred), r.id)
  {
    var l := InferredLayer(p, p.targets[k - 1], inferred);
    LastLayerAppend(InferredLayers(p, k - 1, inferred), l, r.id);
    if l != [] {
      assert l[..0] == [];
      SameId(p, Rel(p, k - 1), r);
    }
  }

  lemma OwnLayer(p: Setting, k: nat, inferred: map<string, Output>, r: Relation)
    requires WellNamed(p) && 0 < k <= |p.targets| && r in p.relations && Rel(p, k - 1) == r
    requires LastLayer(InferredLayers(p, k - 1, inferred), r.id) == None
    ensures LastLayer(InferredLayers(p, k, inferred), r.id) ==
            var l := InferredLayer(p, p.targets[k - 1], inferred); if l == [] then None else Some(l[0])
  {
    var l := InferredLayer(p, p.targets[k - 1], inferred);
    LastLayerAppend(InferredLayers(p, k - 1, inferred), l, r.id);
    if l != [] {
      assert l[..0] == [];
    }
  }

  lemma {:induction false} LayerOfTarget(p: Setting, k: nat, inferred: map<string, Output>, r: Relation, i: nat)
    requires WellNamed(p) && i < k <= |p.targets| && r in p.relations && Rel(p, i) == r
    ensures LastLayer(InferredLayers(p, k, inferred), r.id) ==
            var l := InferredLayer(p, p.targets[i], inferred); if l == [] then None else Some(l[0])
  {
    if i == k - 1 {
      NoLayerOf(p, k - 1, inferred, r);
      OwnLayer(p, k, inferred, r);
    } else {
      LayerOfTarget(p, k - 1, inferred, r, i);
      OtherLayer(p, k, inferred, r);
    }
  }

  lemma InferredLayerOf(p: Setting, k: nat, inferred: map<string, Output>, r: Relation)
    requires WellNamed(p) && k <= |p.targets| && r in p.relations
    ensures (forall i :: 0 <= i < k ==> Rel(p, i) != r) ==> LastLayer(InferredLayers(p, k, inferred), r.id) == None
    ensures forall i :: 0 <= i < k && Rel(p, i) == r ==>
              LastLayer(InferredLayers(p, k, inferred), r.id) ==
                var l := InferredLayer(p, p.targets[i], inferred); if l == [] then None else Some(l[0])
  {
    if forall i :: 0 <= i < k ==> Rel(p, i) != r {
      NoLayerOf(p, k, inferred, r);
    }
    forall i | 0 <= i < k && Rel(p, i) == r
      ensures LastLayer(InferredLayers(p, k, inferred), r.id) ==
              var l := InferredLayer(p, p.targets[i], inferred); if l == [] then None else Some(l[0])
    {
      LayerOfTarget(p, k, inferred, r, i);
    }
  }

  lemma SameId(p: Setting, q: Relation, r: Relation)
    requires WellNamed(p) && q in p.relations && r in p.relations
    ensures q.id == r.id <==> q == r
  {
    var j :| 0 <= j < |p.relations| && p.relations[j] == q;
    var k :| 0 <= k < |p.relations| && p.relations[k] == r;
  }

  /** After a rebuild, a target's relation shows what was inferred for it. */
  lemma SeeRebuiltTarget(p: Setting, layers: seq<Layer>, inferred: map<string, Output>, i: nat)
    requires WellNamed(p) && BaseFits(p, layers) && i < |p.targets|
    requires p.targets[i].id in inferred && CleanOutput(p.s, inferred[p.targets[i].id])
    ensures See(EnvOf(p.s, Graph(p.relations, Rebuilt(p, inferred))), Rel(p, i)) == OutputView(inferred[p.targets[i].id])
  {
    var r, out := Rel(p, i), inferred[p.targets[i].id];
    SeeFresh(p, Rebuilt(p, inferred), r);
    InferredLayerOf(p, |p.targets|, inferred, r);
    LastLayerAppend(p.base, InferredLayers(p, |p.targets|, inferred), r.id);
    CleanTypes(p.s, out.columns);
    if out.columns == [] {
      LastLayerIn(p.base, r.id);
    }
  }

  lemma {:induction false} LastLayerIn(layers: seq<Layer>, id: string)
    ensures LastLayer(layers, id).Some? ==> LastLayer(layers, id).value in layers && LastLayer(layers, id).value.relationId == id
  {
    if layers != [] {
      LastLayerIn(layers[..|layers| - 1], id);
    }
  }

  /** Rebuilding leaves the view of every other relation as it was. */
  lemma SeeRebuiltOther(p: Setting, layers: seq<Layer>, inferred: map<string, Output>, r: Relation)
    requires WellNamed(p) && BaseFits(p, layers) && r in p.relations && !IsTarget(p, r)
    ensures See(EnvOf(p.s, Graph(p.relations, Rebuilt(p, inferred))), r) == See(EnvOf(p.s, Graph(p.relations, layers)), r)
  {
    SeeFresh(p, Rebuilt(p, inferred), r);
    SeeFresh(p, layers, r);
    InferredLayerOf(p, |p.targets|, inferred, r);
    LastLayerAppend(p.base, InferredLayers(p, |p.targets|, inferred), r.id);
  }

  // ----- One round is enough -----

  /** Everything under which the rounds settle at once. */
  ghost predicate Settled(p: Setting, readsOf: Asset -> set<Relation>, layers: seq<Layer>) {
    && WellNamed(p) && Oracle(p, readsOf) && ReadsEarlier(p, readsOf) && BaseFits(p, layers)
  }

  /** The environment shows the first `k` of the outputs `outs`, and of every relation that is no
      target what `start` shows. */
  ghost predicate Shows(p: Setting, start: Env, outs: seq<Output>, env: Env, k: nat)
    requires p.Valid() && k <= |outs| <= |p.targets|
  {
    && (forall j :: 0 <= j < k ==> See(env, Rel(p, j)) == OutputView(outs[j]))
    && (forall r :: r in p.relations && !IsTarget(p, r) ==> See(env, r) == See(start, r))
  }

  /** The outputs are on record, and no others. */
  ghost predicate Records(p: Setting, outs: seq<Output>, inferred: map<string, Output>)
    requires |outs| <= |p.targets|
  {
    && (forall j :: 0 <= j < |outs| ==> p.targets[j].id in inferred && inferred[p.targets[j].id] == outs[j])
    && (forall j :: |outs| <= j < |p.targets| ==> p.targets[j].id !in inferred)
  }

  /** The `j`-th output was inferred where the outputs before it could be seen. */
  ghost predicate InferredAt(p: Setting, start: Env, outs: seq<Output>, j: nat)
    requires p.Valid() && j < |outs| <= |p.targets|
  {
    CleanOutput(p.s, outs[j]) && exists env :: Shows(p, start, outs, env, j) && outs[j] == p.infer(p.targets[j], env)
  }

  ghost predicate Chain(p: Setting, start: Env, outs: seq<Output>)
    requires p.Valid() && |outs| <= |p.targets|
  {
    forall j :: 0 <= j < |outs| ==> InferredAt(p, start, outs, j)
  }

  /** A target that has no record yet gets one, and its output becomes visible. */
  lemma NewStep(p: Setting, i: nat, st: State, out: Output)
    requires p.Valid() && i < |p.targets| && p.targets[i].id !in st.inferred
    requires out == p.infer(p.targets[i], st.env) && out.sourceKind != ""
    ensures p.targets[i].id in p.relationOf
    ensures Step(p, p.targets[i], st) == State(Update(st.env, Rel(p, i), out), st.inferred[p.targets[i].id := out], true)
  {
  }

  lemma RelIn(p: Setting, i: nat)
    requires WellNamed(p) && i < |p.targets|
    ensures Rel(p, i) in p.relations && IsTarget(p, Rel(p, i))
    ensures forall j :: 0 <= j < i ==> Rel(p, j) != Rel(p, i)
  {
    assert p.targets[i] in p.targets;
  }

  lemma ShowsMore(p: Setting, start: Env, outs: seq<Output>, env: Env, out: Output)
    requires WellNamed(p) && |outs| < |p.targets| && Shows(p, start, outs, env, |outs|)
    ensures Shows(p, start, outs + [out], Update(env, Rel(p, |outs|), out), |outs| + 1)
  {
    var i := |outs|;
    var q := Rel(p, i);
    var after := Update(env, q, out);
    RelIn(p, i);
    forall j | 0 <= j < i + 1
      ensures See(after, Rel(p, j)) == OutputView((outs + [out])[j])
    {
      RelIn(p, j);
      SeeUpdated(p, env, q, out, Rel(p, j));
    }
    forall r | r in p.relations && !IsTarget(p, r)
      ensures See(after, r) == See(start, r)
    {
      SeeUpdated(p, env, q, out, r);
    }
  }

  lemma RecordsMore(p: Setting, outs: seq<Output>, inferred: map<string, Output>, out: Output)
    requires |outs| < |p.targets| && Records(p, outs, inferred)
    requires forall i, j :: 0 <= i < j < |p.targets| ==> p.targets[i].id != p.targets[j].id
    ensures Records(p, outs + [out], inferred[p.targets[|outs|].id := out])
  {
  }

  /** Whether an output was inferred from what came before does not depend on what comes after. */
  lemma ChainMore(p: Setting, start: Env, outs: seq<Output>, env: Env, out: Output)
    requires p.Valid() && |outs| < |p.targets| && Chain(p, start, outs) && Shows(p, start, outs, env, |outs|)
    requires out == p.infer(p.targets[|outs|], env) && CleanOutput(p.s, out)
    ensures Chain(p, start, outs + [out])
  {
    var more := outs + [out];
    assert Shows(p, start, more, env, |outs|);
    forall j | 0 <= j < |outs|
      ensures InferredAt(p, start, more, j)
    {
      assert InferredAt(p, start, outs, j);
      var e :| Shows(p, start, outs, e, j) && outs[j] == p.infer(p.targets[j], e);
      assert Shows(p, start, more, e, j);
    }
  }

  lemma OracleClean(p: Setting, readsOf: Asset -> set<Relation>, env: Env, i: nat)
    requires Oracle(p, readsOf) && i < |p.targets|
    ensures CleanOutput(p.s, p.infer(p.targets[i], env))
  {
    assert p.targets[i] in p.targets;
  }

  /** What holds of the state inside the first round, `outs` being the outputs so far. */
  ghost predicate FirstRoundState(p: Setting, start: Env, outs: seq<Output>, st: State)
    requires p.Valid() && |outs| <= |p.targets|
  {
    && Chain(p, start, outs) && Shows(p, start, outs, st.env, |outs|) && Records(p, outs, st.inferred)
    && (outs != [] ==> st.changed)
  }

  lemma FirstRoundStep(p: Setting, readsOf: Asset -> set<Relation>, start: Env, outs: seq<Output>, st: State) returns (out: Output)
    requires WellNamed(p) && Oracle(p, readsOf) && |outs| < |p.targets| && FirstRoundState(p, start, outs, st)
    ensures p.targets[|outs|].id in p.relationOf
    ensures FirstRoundState(p, start, outs + [out], Step(p, p.targets[|outs|], st))
  {
    var i := |outs|;
    out := p.infer(p.targets[i], st.env);
    OracleClean(p, readsOf, st.env, i);
    NewStep(p, i, st, out);
    ShowsMore(p, start, outs, st.env, out);
    RecordsMore(p, outs, st.inferred, out);
    ChainMore(p, start, outs, st.env, out);
  }

  /** The first round records, for every target, what can be inferred from earlier outputs. */
  lemma {:induction false} FirstRound(p: Setting, readsOf: Asset -> set<Relation>, start: Env, k: nat) returns (outs: seq<Output>)
    requires WellNamed(p) && Oracle(p, readsOf) && k <= |p.targets|
    ensures |outs| == k && FirstRoundState(p, start, outs, Sweep(p, k, State(start, map[], false)))
  {
    outs := [];
    if k > 0 {
      outs := FirstRound(p, readsOf, start, k - 1);
      var out := FirstRoundNext(p, readsOf, start, k - 1, outs, State(start, map[], false));
      outs := outs + [out];
    }
  }

  lemma FirstRoundNext(p: Setting, readsOf: Asset -> set<Relation>, start: Env, k: nat, outs: seq<Output>, st: State) returns (out: Output)
    requires WellNamed(p) && Oracle(p, readsOf) && k < |p.targets| && |outs| == k && FirstRoundState(p, start, outs, Sweep(p, k, st))
    ensures FirstRoundState(p, start, outs + [out], Sweep(p, k + 1, st))
  {
    out := FirstRoundStep(p, readsOf, start, outs, Sweep(p, k, st));
    SweepNext(p, k, st);
  }

  /** In an environment that shows all earlier outputs, a target's output is the same again. */
  lemma SameOutput(p: Setting, readsOf: Asset -> set<Relation>, start: Env, outs: seq<Output>, env: Env, i: nat)
    requires WellNamed(p) && Oracle(p, readsOf) && ReadsEarlier(p, readsOf)
    requires i < |outs| <= |p.targets| && InferredAt(p, start, outs, i) && Shows(p, start, outs, env, i)
    ensures p.infer(p.targets[i], env) == outs[i]
  {
    var a := p.targets[i];
    assert a in p.targets;
    var e :| Shows(p, start, outs, e, i) && outs[i] == p.infer(a, e);
    forall r | r in readsOf(a)
      ensures See(env, r) == See(e, r)
    {
      if IsTarget(p, r) {
        var j :| 0 <= j < |p.targets| && Rel(p, j) == r;
        assert j < i;
      }
    }
    assert Agree(env, e, readsOf(a));
  }

  lemma QuietStep(p: Setting, i: nat, st: State)
    requires p.Valid() && i < |p.targets| && p.targets[i].id in st.inferred
    requires st.inferred[p.targets[i].id] == p.infer(p.targets[i], st.env)
    ensures p.targets[i].id in p.relationOf && Step(p, p.targets[i], st) == st
  {
  }

  /** A round that starts where every target's record is what it would infer changes nothing. */
  lemma {:induction false} QuietRound(p: Setting, k: nat, st: State)
    requires p.Valid() && k <= |p.targets|
    requires forall i :: 0 <= i < |p.targets| ==>
        p.targets[i].id in st.inferred && st.inferred[p.targets[i].id] == p.infer(p.targets[i], st.env)
    ensures Sweep(p, k, st) == st
  {
    if k > 0 {
      QuietRound(p, k - 1, st);
      QuietStep(p, k - 1, st);
      SweepNext(p, k - 1, st);
    }
  }

  ghost function EnvAfter(p: Setting, inferred: map<string, Output>): Env
    requires p.Valid()
  {
    EnvOf(p.s, Graph(p.relations, Rebuilt(p, inferred)))
  }

  /** After the rebuild that ends a round, a fresh environment shows the outputs recorded. */
  lemma RebuiltShows(p: Setting, layers: seq<Layer>, outs: seq<Output>, inferred: map<string, Output>, k: nat)
    requires WellNamed(p) && BaseFits(p, layers) && k <= |outs| <= |p.targets|
    requires forall j :: 0 <= j < k ==> p.targets[j].id in inferred && inferred[p.targets[j].id] == outs[j]
    requires forall j :: 0 <= j < k ==> CleanOutput(p.s, outs[j])
    ensures Shows(p, EnvOf(p.s, Graph(p.relations, layers)), outs, EnvAfter(p, inferred), k)
  {
    forall j | 0 <= j < k
      ensures See(EnvAfter(p, inferred), Rel(p, j)) == OutputView(outs[j])
    {
      SeeRebuiltTarget(p, layers, inferred, j);
    }
    forall r | r in p.relations && !IsTarget(p, r)
      ensures See(EnvAfter(p, inferred), r) == See(EnvOf(p.s, Graph(p.relations, layers)), r)
    {
      SeeRebuiltOther(p, layers, inferred, r);
    }
  }

  /** The `i`-th target's schema is what inference yields from the schemas of all of them. */
  ghost predicate Solves(p: Setting, inferred: map<string, Output>, i: nat)
    requires p.Valid() && i < |p.targets|
  {
    p.targets[i].id in inferred && inferred[p.targets[i].id] == p.infer(p.targets[i], EnvAfter(p, inferred))
  }

  ghost predicate IsSolution(p: Setting, inferred: map<string, Output>)
    requires p.Valid()
  {
    forall i :: 0 <= i < |p.targets| ==> Solves(p, inferred, i)
  }

  /** With acyclic targets, the second round changes nothing: inference stops after two of its
      five rounds, with the one solution of all targets' inference equations. */
  lemma SecondRoundIsQuiet(p: Setting, readsOf: Asset -> set<Relation>, cancelled: nat -> bool, layers: seq<Layer>)
      returns (inferred: map<string, Output>)
    requires Settled(p, readsOf, layers) && p.targets != [] && !cancelled(0) && !cancelled(1)
    ensures Iterate(Rounds(p), cancelled, 0, Snapshot(layers, map[])) == (Snapshot(Rebuilt(p, inferred), inferred), 2)
    ensures IsSolution(p, inferred)
    ensures forall other :: IsSolution(p, other) ==> Rebuilt(p, other) == Rebuilt(p, inferred)
  {
    var n, start := |p.targets|, EnvOf(p.s, Graph(p.relations, layers));
    var first := Sweep(p, n, State(start, map[], false));
    inferred := first.inferred;
    var outs := FirstRound(p, readsOf, start, n);
    AllSolved(p, readsOf, layers, outs, inferred);
    TwoRounds(p, cancelled, layers, first);
    forall other | IsSolution(p, other)
      ensures Rebuilt(p, other) == Rebuilt(p, inferred)
    {
      forall i: nat | i < n && Matches(p, other, outs, i)
        ensures Matches(p, other, outs, i + 1)
      {
        assert Solves(p, other, i);
        NextSolved(p, readsOf, layers, outs, other, i);
      }
      OneSolution(p, outs, other, n);
      SameLayers(p, other, inferred, n);
    }
  }

  lemma TwoRounds(p: Setting, cancelled: nat -> bool, layers: seq<Layer>, first: State)
    requires p.Valid() && !cancelled(0) && !cancelled(1)
    requires first == Sweep(p, |p.targets|, State(EnvOf(p.s, Graph(p.relations, layers)), map[], false))
    requires first.changed && IsSolution(p, first.inferred)
    ensures Iterate(Rounds(p), cancelled, 0, Snapshot(layers, map[])) == (Snapshot(Rebuilt(p, first.inferred), first.inferred), 2)
  {
    var second := State(EnvAfter(p, first.inferred), first.inferred, false);
    forall i | 0 <= i < |p.targets|
      ensures p.targets[i].id in second.inferred && second.inferred[p.targets[i].id] == p.infer(p.targets[i], second.env)
    {
      assert Solves(p, first.inferred, i);
    }
    QuietRound(p, |p.targets|, second);
    var x, y := Snapshot(layers, map[]), Snapshot(Rebuilt(p, first.inferred), first.inferred);
    assert AfterRound(p, x) == Some(y) && AfterRound(p, y) == None;
    IterateTwice(Rounds(p), cancelled, x, y);
  }

  lemma IterateTwice(next: Snapshot -> Option<Snapshot>, cancelled: nat -> bool, x: Snapshot, y: Snapshot)
    requires !cancelled(0) && !cancelled(1) && next(x) == Some(y) && next(y) == None
    ensures Iterate(next, cancelled, 0, x) == (y, 2)
  {
  }

  lemma ChainClean(p: Setting, start: Env, outs: seq<Output>)
    requires p.Valid() && |outs| <= |p.targets| && Chain(p, start, outs)
    ensures forall j :: 0 <= j < |outs| ==> CleanOutput(p.s, outs[j])
  {
    forall j | 0 <= j < |outs|
      ensures CleanOutput(p.s, outs[j])
    {
      assert InferredAt(p, start, outs, j);
    }
  }

  lemma AllSolved(p: Setting, readsOf: Asset -> set<Relation>, layers: seq<Layer>, outs: seq<Output>, inferred: map<string, Output>)
    requires Settled(p, readsOf, layers) && |outs| == |p.targets|
    requires Chain(p, EnvOf(p.s, Graph(p.relations, layers)), outs) && Records(p, outs, inferred)
    ensures forall i :: 0 <= i < |p.targets| ==> Solves(p, inferred, i)
  {
    var n, start := |p.targets|, EnvOf(p.s, Graph(p.relations, layers));
    ChainClean(p, start, outs);
    RebuiltShows(p, layers, outs, inferred, n);
    forall i | 0 <= i < n
      ensures Solves(p, inferred, i)
    {
      assert Shows(p, start, outs, EnvAfter(p, inferred), i);
      SameOutput(p, readsOf, start, outs, EnvAfter(p, inferred), i);
    }
  }

  /** The first `k` targets have the outputs `outs` on record. */
  ghost predicate Matches(p: Setting, inferred: map<string, Output>, outs: seq<Output>, k: nat)
    requires k <= |p.targets| == |outs|
  {
    forall j :: 0 <= j < k ==> p.targets[j].id in inferred && inferred[p.targets[j].id] == outs[j]
  }

  lemma NextSolved(p: Setting, readsOf: Asset -> set<Relation>, layers: seq<Layer>, outs: seq<Output>, other: map<string, Output>, k: nat)
    requires Settled(p, readsOf, layers) && k < |p.targets| == |outs| && Solves(p, other, k)
    requires Chain(p, EnvOf(p.s, Graph(p.relations, layers)), outs) && Matches(p, other, outs, k)
    ensures Matches(p, other, outs, k + 1)
  {
    var start := EnvOf(p.s, Graph(p.relations, layers));
    ChainClean(p, start, outs);
    RebuiltShows(p, layers, outs, other, k);
    assert InferredAt(p, start, outs, k);
    SameOutput(p, readsOf, start, outs, EnvAfter(p, other), k);
  }

  /** Any solution agrees with the outputs of the first round. */
  lemma {:induction false} OneSolution(p: Setting, outs: seq<Output>, other: map<string, Output>, k: nat)
    requires k <= |p.targets| == |outs|
    requires forall i: nat :: i < |p.targets| && Matches(p, other, outs, i) ==> Matches(p, other, outs, i + 1)
    ensures Matches(p, other, outs, k)
  {
    if k > 0 {
      OneSolution(p, outs, other, k - 1);
    }
  }

  lemma {:induction false} SameLayers(p: Setting, a: map<string, Output>, b: map<string, Output>, k: nat)
    requires p.Valid() && k <= |p.targets|
    requires forall j :: 0 <= j < k ==> p.targets[j].id in a && p.targets[j].id in b && a[p.targets[j].id] == b[p.targets[j].id]
    ensures InferredLayers(p, k, a) == InferredLayers(p, k, b)
  {
    if k > 0 {
      SameLayers(p, a, b, k - 1);
    }
  }
}
