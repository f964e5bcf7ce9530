/** Which cells a notebook run may execute: the requested cells and everything upstream of them, and
    the check that no Python cell is among them unless Python was allowed. */
module CellSelection {
  import opened Wrappers

  type Id = string

  datatype Cell = Cell(id: Id, name: string, upstreams: seq<string>)

  datatype Selection = Selection(all: bool, from: Id, cells: seq<Id>)

  /** Lower-casing of names, as the standard library does it. */
  type Lower = string -> string

  /** The edges leaving a cell. */
  type Edges = Id -> set<Id>

  // ----- Closures -----

  ghost predicate Closed(next: Edges, s: set<Id>) {
    forall x :: x in s ==> next(x) <= s
  }

  ghost predicate StaysIn(next: Edges, universe: set<Id>) {
    forall x :: next(x) <= universe
  }

  ghost function Image(next: Edges, s: set<Id>): set<Id> {
    set x, y | x in s && y in next(x) :: y
  }

  /** Adds the successors of all members at once, until nothing changes. */
  ghost function Closure(next: Edges, universe: set<Id>, s: set<Id>): set<Id>
    requires StaysIn(next, universe) && s <= universe
    decreases universe - s
  {
    var t := s + Image(next, s);
    if t == s then s else Closure(next, universe, t)
  }

  /** The closure is the least closed set that contains the seed. */
  lemma {:induction false} ClosureIsLeast(next: Edges, universe: set<Id>, s: set<Id>)
    requires StaysIn(next, universe) && s <= universe
    ensures s <= Closure(next, universe, s) <= universe && Closed(next, Closure(next, universe, s))
    ensures forall t :: s <= t && Closed(next, t) ==> Closure(next, universe, s) <= t
    decreases universe - s
  {
    var grown := s + Image(next, s);
    if grown == s {
      forall x | x in s
        ensures next(x) <= s
      {
        forall y | y in next(x)
          ensures y in s
        {
          assert y in Image(next, s);
        }
      }
    } else {
      ClosureIsLeast(next, universe, grown);
    }
  }

  /** A set found in another way is the closure when it contains the seed, is closed, and lies in
      every closed set that contains the seed. */
  lemma LeastIsClosure(next: Edges, universe: set<Id>, s: set<Id>, found: set<Id>)
    requires StaysIn(next, universe) && s <= universe
    requires s <= found && Closed(next, found)
    requires forall t :: s <= t && Closed(next, t) ==> found <= t
    ensures found == Closure(next, universe, s)
  {
    ClosureIsLeast(next, universe, s);
  }

  // ----- The notebook as a graph -----

  /** The last cell with each identifier. */
  function ByID(cells: seq<Cell>): map<Id, Cell> {
    if cells == [] then map[] else ByID(cells[..|cells| - 1])[cells[|cells| - 1].id := cells[|cells| - 1]]
  }

  /** The last cell with each name, names compared without regard to case. */
  function ByName(cells: seq<Cell>, lower: Lower): map<string, Cell> {
    if cells == [] then map[]
    else ByName(cells[..|cells| - 1], lower)[lower(cells[|cells| - 1].name) := cells[|cells| - 1]]
  }

  function Ids(cells: seq<Cell>): set<Id> {
    set i | 0 <= i < |cells| :: cells[i].id
  }

  lemma {:induction false} ByIDMeaning(cells: seq<Cell>)
    ensures ByID(cells).Keys == Ids(cells)
    ensures forall id :: id in ByID(cells) ==> ByID(cells)[id] in cells && ByID(cells)[id].id == id
  {
    if cells != [] {
      var n := |cells| - 1;
      ByIDMeaning(cells[..n]);
      forall id
        ensures id in Ids(cells) <==> id in Ids(cells[..n]) || id == cells[n].id
      {
        if id in Ids(cells) {
          var i :| 0 <= i < |cells| && cells[i].id == id;
          assert i < n ==> cells[..n][i].id == id;
        }
        if id in Ids(cells[..n]) {
          var i :| 0 <= i < n && cells[..n][i].id == id;
          assert cells[i].id == id;
        }
      }
    }
  }

  lemma {:induction false} ByNameMeaning(cells: seq<Cell>, lower: Lower)
    ensures forall name :: name in ByName(cells, lower) ==>
              ByName(cells, lower)[name] in cells && lower(ByName(cells, lower)[name].name) == name
    ensures forall c :: c in cells ==> lower(c.name) in ByName(cells, lower)
  {
    if cells != [] {
      ByNameMeaning(cells[..|cells| - 1], lower);
    }
  }

  /** The upstreams of a cell that are cells of the notebook. */
  function Parents(cells: seq<Cell>, lower: Lower): Edges {
    ParentsIn(ByID(cells), ByName(cells, lower), lower)
  }

  function ParentsIn(byID: map<Id, Cell>, byName: map<string, Cell>, lower: Lower): Edges {
    id => if id in byID then ParentIds(byID[id].upstreams, byName, lower) else {}
  }

  function ParentIds(upstreams: seq<string>, byName: map<string, Cell>, lower: Lower): set<Id> {
    set u | u in upstreams && lower(u) in byName :: byName[lower(u)].id
  }

  /** The cells that name a cell as their upstream. */
  function Children(cells: seq<Cell>, lower: Lower): Edges {
    id => set c | c in cells && id in ParentIds(c.upstreams, ByName(cells, lower), lower) :: c.id
  }

  lemma EdgesStayIn(cells: seq<Cell>, lower: Lower)
    ensures StaysIn(Parents(cells, lower), Ids(cells)) && StaysIn(Children(cells, lower), Ids(cells))
  {
    ByIDMeaning(cells);
    ByNameMeaning(cells, lower);
    forall c | c in cells
      ensures c.id in Ids(cells)
    {
      var i :| 0 <= i < |cells| && cells[i] == c;
    }
  }

  ghost predicate UniqueIds(cells: seq<Cell>) {
    forall i, j :: 0 <= i < j < |cells| ==> cells[i].id != cells[j].id
  }

  /** In a notebook with unique identifiers the two edge maps are one graph read in both directions. */
  lemma EdgesAgree(cells: seq<Cell>, lower: Lower, p: Id, c: Id)
    requires UniqueIds(cells)
    ensures c in Children(cells, lower)(p) <==> p in Parents(cells, lower)(c)
  {
    ByIDMeaning(cells);
    if c in Children(cells, lower)(p) {
      var cell :| cell in cells && p in ParentIds(cell.upstreams, ByName(cells, lower), lower) && cell.id == c;
      var i :| 0 <= i < |cells| && cells[i] == cell;
      assert cells[i].id in Ids(cells);
      assert ByID(cells)[c] == cell;
    }
  }

  // ----- What is selected -----

  /** The cells asked for, before their upstreams are added. */
  ghost function Seed(cells: seq<Cell>, lower: Lower, input: Selection): set<Id>
    requires Known(cells, input)
  {
    EdgesStayIn(cells, lower);
    (if input.all then Ids(cells)
     else if input.from != "" then Closure(Children(cells, lower), Ids(cells), {input.from})
     else {})
    + (set id | id in input.cells)
  }

  /** Every identifier asked for exists. */
  ghost predicate Known(cells: seq<Cell>, input: Selection) {
    && (input.from != "" ==> input.from in Ids(cells))
    && (forall id :: id in input.cells ==> id in Ids(cells))
  }

  lemma KnownHasCells(cells: seq<Cell>, input: Selection)
    ensures Known(cells, input) <==> (input.from != "" ==> HasCell(cells, input.from)) && forall id :: id in input.cells ==> HasCell(cells, id)
    ensures forall id :: id in Ids(cells) <==> HasCell(cells, id)
  {
  }

  lemma SeedInNotebook(cells: seq<Cell>, lower: Lower, input: Selection)
    requires Known(cells, input)
    ensures Seed(cells, lower, input) <= Ids(cells)
  {
    EdgesStayIn(cells, lower);
    if input.from != "" {
      ClosureIsLeast(Children(cells, lower), Ids(cells), {input.from});
    }
  }

  ghost function Selected(cells: seq<Cell>, lower: Lower, input: Selection): set<Id>
    requires Known(cells, input)
  {
    EdgesStayIn(cells, lower);
    SeedInNotebook(cells, lower, input);
    Closure(Parents(cells, lower), Ids(cells), Seed(cells, lower, input))
  }

  /** The cells with the given identifiers, in notebook order. */
  function Keep(cells: seq<Cell>, ids: set<Id>): seq<Cell> {
    if cells == [] then []
    else Keep(cells[..|cells| - 1], ids) + if cells[|cells| - 1].id in ids then [cells[|cells| - 1]] else []
  }

  // ----- What is asked for, said of the notebook itself -----

  /** The last cell with this name, which is the one an upstream of that name means. */
  ghost predicate LastNamed(cells: seq<Cell>, lower: Lower, name: string, k: nat) {
    k < |cells| && lower(cells[k].name) == lower(name) && forall j :: k < j < |cells| ==> lower(cells[j].name) != lower(name)
  }

  /** The last cell with this identifier. */
  ghost predicate LastWithId(cells: seq<Cell>, id: Id, k: nat) {
    k < |cells| && cells[k].id == id && forall j :: k < j < |cells| ==> cells[j].id != id
  }

  /** The cell names `p` as an upstream. */
  ghost predicate Upstream(cells: seq<Cell>, lower: Lower, cell: Cell, p: Id) {
    exists u, k: nat :: u in cell.upstreams && LastNamed(cells, lower, u, k) && cells[k].id == p
  }

  /** A chain of cells from `from` to `to`, each naming the one before it as an upstream. */
  ghost predicate DownstreamChain(cells: seq<Cell>, lower: Lower, from: Id, to: Id, path: seq<Id>) {
    && path != [] && path[0] == from && path[|path| - 1] == to
    && forall k :: 0 <= k < |path| - 1 ==> NamedBy(cells, lower, path[k], path[k + 1])
  }

  ghost predicate NamedBy(cells: seq<Cell>, lower: Lower, p: Id, c: Id) {
    exists i :: 0 <= i < |cells| && cells[i].id == c && Upstream(cells, lower, cells[i], p)
  }

  ghost predicate HasCell(cells: seq<Cell>, id: Id) {
    exists i :: 0 <= i < |cells| && cells[i].id == id
  }

  /** All cells, or the listed ones, or the cells at the ends of the chains from a cell. */
  ghost predicate Requested(cells: seq<Cell>, lower: Lower, input: Selection, id: Id) {
    || (input.all && HasCell(cells, id))
    || id in input.cells
    || (input.from != "" && exists path :: DownstreamChain(cells, lower, input.from, id, path))
  }

  ghost predicate UpstreamClosed(cells: seq<Cell>, lower: Lower, ids: set<Id>) {
    forall i, p :: 0 <= i < |cells| && LastWithId(cells, cells[i].id, i) && cells[i].id in ids && Upstream(cells, lower, cells[i], p) ==> p in ids
  }

  ghost predicate HoldsRequested(cells: seq<Cell>, lower: Lower, input: Selection, ids: set<Id>) {
    forall id :: Requested(cells, lower, input, id) ==> id in ids
  }

  /** The least set of cells that holds the requested ones and the upstreams of its members. */
  ghost predicate LeastSelection(cells: seq<Cell>, lower: Lower, input: Selection, ids: set<Id>) {
    && HoldsRequested(cells, lower, input, ids) && UpstreamClosed(cells, lower, ids)
    && forall t :: HoldsRequested(cells, lower, input, t) && UpstreamClosed(cells, lower, t) ==> ids <= t
  }

  /** The cells with these identifiers, in notebook order. */
  ghost predicate TakenInOrder(cells: seq<Cell>, ids: set<Id>, taken: seq<Cell>, at: seq<nat>) {
    && |at| == |taken| && (forall j, k :: 0 <= j < k < |at| ==> at[j] < at[k])
    && (forall k :: 0 <= k < |at| ==> at[k] < |cells| && taken[k] == cells[at[k]])
    && (forall i :: 0 <= i < |cells| ==> (cells[i].id in ids <==> i in at))
  }

  lemma {:induction false} ByNameIsLast(cells: seq<Cell>, lower: Lower, name: string) returns (k: nat)
    ensures if lower(name) in ByName(cells, lower) then LastNamed(cells, lower, name, k) && ByName(cells, lower)[lower(name)] == cells[k]
            else forall j :: 0 <= j < |cells| ==> lower(cells[j].name) != lower(name)
  {
    k := 0;
    if cells != [] {
      var n := |cells| - 1;
      k := ByNameIsLast(cells[..n], lower, name);
      if lower(cells[n].name) == lower(name) {
        k := n;
      }
    }
  }

  lemma {:induction false} ByIDIsLast(cells: seq<Cell>, id: Id) returns (k: nat)
    ensures if id in ByID(cells) then LastWithId(cells, id, k) && ByID(cells)[id] == cells[k]
            else forall j :: 0 <= j < |cells| ==> cells[j].id != id
  {
    k := 0;
    if cells != [] {
      var n := |cells| - 1;
      k := ByIDIsLast(cells[..n], id);
      if cells[n].id == id {
        k := n;
      }
    }
  }

  /** The upstreams in the graph are the upstreams of the notebook. */
  lemma ParentIdsAre(cells: seq<Cell>, lower: Lower, cell: Cell, p: Id)
    ensures p in ParentIds(cell.upstreams, ByName(cells, lower), lower) <==> Upstream(cells, lower, cell, p)
  {
    if p in ParentIds(cell.upstreams, ByName(cells, lower), lower) {
      var u :| u in cell.upstreams && lower(u) in ByName(cells, lower) && ByName(cells, lower)[lower(u)].id == p;
      var k := ByNameIsLast(cells, lower, u);
      assert LastNamed(cells, lower, u, k);
    }
    if Upstream(cells, lower, cell, p) {
      var u, k: nat :| u in cell.upstreams && LastNamed(cells, lower, u, k) && cells[k].id == p;
      var last := ByNameIsLast(cells, lower, u);
      assert lower(cells[k].name) == lower(u);
    }
  }

  lemma ParentsAre(cells: seq<Cell>, lower: Lower, i: nat, p: Id)
    requires i < |cells| && LastWithId(cells, cells[i].id, i)
    ensures p in Parents(cells, lower)(cells[i].id) <==> Upstream(cells, lower, cells[i], p)
  {
    var k := ByIDIsLast(cells, cells[i].id);
    ParentIdsAre(cells, lower, cells[i], p);
  }

  lemma ChildrenAre(cells: seq<Cell>, lower: Lower, p: Id, c: Id)
    ensures c in Children(cells, lower)(p) <==> NamedBy(cells, lower, p, c)
  {
    forall i | 0 <= i < |cells|
      ensures p in ParentIds(cells[i].upstreams, ByName(cells, lower), lower) <==> Upstream(cells, lower, cells[i], p)
    {
      ParentIdsAre(cells, lower, cells[i], p);
    }
    if c in Children(cells, lower)(p) {
      var cell :| cell in cells && p in ParentIds(cell.upstreams, ByName(cells, lower), lower) && cell.id == c;
      var i :| 0 <= i < |cells| && cells[i] == cell;
    }
  }

  /** A set is closed in the graph exactly when it holds the upstreams of its cells. */
  lemma ClosedIsUpstreamClosed(cells: seq<Cell>, lower: Lower, ids: set<Id>)
    ensures Closed(Parents(cells, lower), ids) <==> UpstreamClosed(cells, lower, ids)
  {
    if Closed(Parents(cells, lower), ids) {
      forall i, p | 0 <= i < |cells| && LastWithId(cells, cells[i].id, i) && cells[i].id in ids && Upstream(cells, lower, cells[i], p)
        ensures p in ids
      {
        ParentsAre(cells, lower, i, p);
      }
    }
    if UpstreamClosed(cells, lower, ids) {
      forall id, p | id in ids && p in Parents(cells, lower)(id)
        ensures p in ids
      {
        var i := ByIDIsLast(cells, id);
        ParentsAre(cells, lower, i, p);
      }
    }
  }

  /** The end of every chain lies in every set closed downwards that holds its beginning. */
  lemma {:induction false} ChainStays(cells: seq<Cell>, lower: Lower, from: Id, to: Id, path: seq<Id>, s: set<Id>)
    requires DownstreamChain(cells, lower, from, to, path) && from in s && Closed(Children(cells, lower), s)
    ensures to in s
    decreases |path|
  {
    if |path| > 1 {
      var before := path[|path| - 2];
      assert NamedBy(cells, lower, path[|path| - 2], path[|path| - 2 + 1]);
      ChainStays(cells, lower, from, before, path[..|path| - 1], s);
      ChildrenAre(cells, lower, before, to);
    }
  }

  ghost predicate ChainEnd(cells: seq<Cell>, lower: Lower, from: Id, to: Id) {
    exists path :: DownstreamChain(cells, lower, from, to, path)
  }

  lemma ChainEndsClosed(cells: seq<Cell>, lower: Lower, from: Id, p: Id, c: Id)
    requires ChainEnd(cells, lower, from, p) && NamedBy(cells, lower, p, c)
    ensures ChainEnd(cells, lower, from, c)
  {
    var path :| DownstreamChain(cells, lower, from, p, path);
    assert DownstreamChain(cells, lower, from, c, path + [c]);
  }

  /** Downstream in the graph are exactly the ends of the chains. */
  lemma DownstreamIsByChains(cells: seq<Cell>, lower: Lower, from: Id, id: Id)
    requires from in Ids(cells) && StaysIn(Children(cells, lower), Ids(cells))
    ensures id in Closure(Children(cells, lower), Ids(cells), {from}) <==> ChainEnd(cells, lower, from, id)
  {
    var next := Children(cells, lower);
    ClosureIsLeast(next, Ids(cells), {from});
    var ends := set x | x in Ids(cells) && ChainEnd(cells, lower, from, x);
    assert DownstreamChain(cells, lower, from, from, [from]);
    forall p, c | p in ends && c in next(p)
      ensures c in ends
    {
      ChildrenAre(cells, lower, p, c);
      ChainEndsClosed(cells, lower, from, p, c);
    }
    assert {from} <= ends && Closed(next, ends);
    if ChainEnd(cells, lower, from, id) {
      var path :| DownstreamChain(cells, lower, from, id, path);
      ChainStays(cells, lower, from, id, path, Closure(next, Ids(cells), {from}));
    }
  }

  lemma SeedIsRequested(cells: seq<Cell>, lower: Lower, input: Selection, id: Id)
    requires Known(cells, input)
    ensures id in Seed(cells, lower, input) <==> Requested(cells, lower, input, id)
  {
    EdgesStayIn(cells, lower);
    assert HasCell(cells, id) <==> id in Ids(cells);
    if input.from != "" {
      DownstreamIsByChains(cells, lower, input.from, id);
      ClosureIsLeast(Children(cells, lower), Ids(cells), {input.from});
      assert ChainEnd(cells, lower, input.from, id) <==> exists path :: DownstreamChain(cells, lower, input.from, id, path);
    }
  }

  /** What is selected is the least set that holds the requested cells and the upstreams of its members. */
  lemma SelectedIsLeast(cells: seq<Cell>, lower: Lower, input: Selection)
    requires Known(cells, input)
    ensures LeastSelection(cells, lower, input, Selected(cells, lower, input))
  {
    var next, seed := Parents(cells, lower), Seed(cells, lower, input);
    EdgesStayIn(cells, lower);
    SeedInNotebook(cells, lower, input);
    ClosureIsLeast(next, Ids(cells), seed);
    ClosedIsUpstreamClosed(cells, lower, Selected(cells, lower, input));
    forall id
      ensures id in seed <==> Requested(cells, lower, input, id)
    {
      SeedIsRequested(cells, lower, input, id);
    }
    forall t | HoldsRequested(cells, lower, input, t) && UpstreamClosed(cells, lower, t)
      ensures Selected(cells, lower, input) <= t
    {
      ClosedIsUpstreamClosed(cells, lower, t);
      assert seed <= t;
    }
  }

  lemma {:induction false} KeepInOrder(cells: seq<Cell>, ids: set<Id>) returns (at: seq<nat>)
    ensures TakenInOrder(cells, ids, Keep(cells, ids), at)
  {
    at := [];
    if cells != [] {
      var n := |cells| - 1;
      var before := KeepInOrder(cells[..n], ids);
      at := before;
      if cells[n].id in ids {
        at := before + [n];
      }
      TakeOneMore(cells, ids, n, Keep(cells[..n], ids), before, Keep(cells, ids), at);
    }
  }

  lemma TakeOneMore(cells: seq<Cell>, ids: set<Id>, n: nat, shorter: seq<Cell>, before: seq<nat>, taken: seq<Cell>, at: seq<nat>)
    requires |cells| == n + 1 && TakenInOrder(cells[..n], ids, shorter, before)
    requires if cells[n].id in ids then at == before + [n] && taken == shorter + [cells[n]] else at == before && taken == shorter
    ensures TakenInOrder(cells, ids, taken, at)
  {
    assert forall k :: 0 <= k < |before| ==> before[k] < n && shorter[k] == cells[..n][before[k]] == cells[before[k]];
    forall i | 0 <= i < |cells|
      ensures cells[i].id in ids <==> i in at
    {
      if i < n {
        assert cells[..n][i].id in ids <==> i in before;
      } else {
        assert n !in before;
      }
    }
  }

  // ----- The marking -----

  /** The shared map of marked identifiers. */
  class Wanted {
    var ids: set<Id>

    constructor ()
      ensures ids == {}
    {
      ids := {};
    }
  }

  /** Everything marked since `before` has its successors marked, and lies in every closed set that
      contains the identifiers in `from`. */
  ghost predicate Marked(next: Edges, from: set<Id>, before: set<Id>, after: set<Id>) {
    && before <= after
    && (forall x :: x in after && x !in before ==> next(x) <= after)
    && (forall t :: from <= t && Closed(next, t) ==> after <= before + t)
  }

  function ChildrenIn(downstream: map<Id, seq<Id>>): Edges {
    id => if id in downstream then set c | c in downstream[id] else {}
  }

  method MarkDownstream(id: Id, downstream: map<Id, seq<Id>>, wanted: Wanted, ghost universe: set<Id>)
    requires id in universe && StaysIn(ChildrenIn(downstream), universe)
    modifies wanted
    ensures id in wanted.ids && Marked(ChildrenIn(downstream), {id}, old(wanted.ids), wanted.ids)
    decreases universe - wanted.ids
  {
    if id in wanted.ids {
      return;
    }
    ghost var next := ChildrenIn(downstream);
    wanted.ids := wanted.ids + {id};
    var children := if id in downstream then downstream[id] else [];
    for i := 0 to |children|
      invariant old(wanted.ids) + {id} <= wanted.ids
      invariant forall k :: 0 <= k < i ==> children[k] in wanted.ids
      invariant forall x :: x in wanted.ids && x !in old(wanted.ids) && x != id ==> next(x) <= wanted.ids
      invariant forall t :: {id} <= t && Closed(next, t) ==> wanted.ids <= old(wanted.ids) + t
    {
      assert children[i] in next(id);
      MarkDownstream(children[i], downstream, wanted, universe);
    }
  }

  /** Marks the ancestors of `id`, which is itself marked already. */
  method MarkAncestors(id: Id, byID: map<Id, Cell>, byName: map<string, Cell>, lower: Lower, wanted: Wanted, ghost universe: set<Id>)
    requires id in byID && id in universe && StaysIn(ParentsIn(byID, byName, lower), universe) && universe == byID.Keys
    modifies wanted
    ensures ParentsIn(byID, byName, lower)(id) <= wanted.ids
    ensures Marked(ParentsIn(byID, byName, lower), {id}, old(wanted.ids), wanted.ids)
    decreases universe - wanted.ids
  {
    ghost var next := ParentsIn(byID, byName, lower);
    var cell := byID[id];
    for i := 0 to |cell.upstreams|
      invariant forall k :: 0 <= k < i && lower(cell.upstreams[k]) in byName ==> byName[lower(cell.upstreams[k])].id in wanted.ids
      invariant Marked(next, {id}, old(wanted.ids), wanted.ids)
    {
      var name := lower(cell.upstreams[i]);
      if name !in byName || byName[name].id in wanted.ids {
        continue;
      }
      var upstream := byName[name];
      assert upstream.id in next(id);
      ghost var marked := wanted.ids;
      wanted.ids := wanted.ids + {upstream.id};
      MarkAncestors(upstream.id, byID, byName, lower, wanted, universe);
      MarkedFurther(next, id, upstream.id, old(wanted.ids), marked, wanted.ids);
    }
  }

  lemma MarkedFurther(next: Edges, id: Id, successor: Id, before: set<Id>, marked: set<Id>, after: set<Id>)
    requires Marked(next, {id}, before, marked) && successor in next(id)
    requires Marked(next, {successor}, marked + {successor}, after) && next(successor) <= after
    ensures Marked(next, {id}, before, after)
  {
    forall t | {id} <= t && Closed(next, t)
      ensures after <= before + t
    {
      assert next(id) <= t && {successor} <= t;
    }
  }

  method AddChild(downstream: map<Id, seq<Id>>, p: Id, c: Id) returns (added: map<Id, seq<Id>>)
    ensures forall q :: ChildrenIn(added)(q) == ChildrenIn(downstream)(q) + if q == p then {c} else {}
  {
    added := downstream[p := (if p in downstream then downstream[p] else []) + [c]];
  }

  /** The children that the first cells contribute to `p`. */
  ghost function ChildrenUpTo(cells: seq<Cell>, byName: map<string, Cell>, lower: Lower, i: nat, p: Id): set<Id>
    requires i <= |cells|
  {
    set j | 0 <= j < i && p in ParentIds(cells[j].upstreams, byName, lower) :: cells[j].id
  }

  lemma ParentIdsStep(upstreams: seq<string>, byName: map<string, Cell>, lower: Lower, k: nat)
    requires k < |upstreams|
    ensures ParentIds(upstreams[..k + 1], byName, lower) ==
            ParentIds(upstreams[..k], byName, lower) + if lower(upstreams[k]) in byName then {byName[lower(upstreams[k])].id} else {}
  {
    assert upstreams[..k + 1] == upstreams[..k] + [upstreams[k]];
  }

  method AddParents(cell: Cell, byName: map<string, Cell>, lower: Lower, start: map<Id, seq<Id>>) returns (downstream: map<Id, seq<Id>>)
    ensures forall p :: ChildrenIn(downstream)(p) == ChildrenIn(start)(p) + if p in ParentIds(cell.upstreams, byName, lower) then {cell.id} else {}
  {
    downstream := start;
    ghost var added: set<Id> := {};
    for k := 0 to |cell.upstreams|
      invariant added == ParentIds(cell.upstreams[..k], byName, lower)
      invariant Adds(downstream, start, added, cell.id)
    {
      ParentIdsStep(cell.upstreams, byName, lower, k);
      downstream := AddParent(byName, lower(cell.upstreams[k]), downstream, cell.id, start, added);
      added := WithParent(byName, lower(cell.upstreams[k]), added);
    }
    assert cell.upstreams[..|cell.upstreams|] == cell.upstreams;
  }

  ghost function WithParent(byName: map<string, Cell>, name: string, added: set<Id>): set<Id> {
    if name in byName then added + {byName[name].id} else added
  }

  /** One upstream name. */
  method AddParent(byName: map<string, Cell>, name: string, downstream: map<Id, seq<Id>>, id: Id, ghost start: map<Id, seq<Id>>, ghost added: set<Id>)
    returns (after: map<Id, seq<Id>>)
    requires Adds(downstream, start, added, id)
    ensures Adds(after, start, WithParent(byName, name, added), id)
  {
    after := downstream;
    if name in byName {
      after := AddChild(downstream, byName[name].id, id);
    }
  }

  ghost predicate Adds(downstream: map<Id, seq<Id>>, start: map<Id, seq<Id>>, added: set<Id>, id: Id) {
    forall p :: ChildrenIn(downstream)(p) == ChildrenIn(start)(p) + if p in added then {id} else {}
  }

  method BuildDownstream(cells: seq<Cell>, byName: map<string, Cell>, lower: Lower) returns (downstream: map<Id, seq<Id>>)
    requires byName == ByName(cells, lower)
    ensures forall p :: ChildrenIn(downstream)(p) == Children(cells, lower)(p)
  {
    downstream := map[];
    for i := 0 to |cells|
      invariant forall p :: ChildrenIn(downstream)(p) == ChildrenUpTo(cells, byName, lower, i, p)
    {
      downstream := AddParents(cells[i], byName, lower, downstream);
    }
    forall p
      ensures ChildrenUpTo(cells, byName, lower, |cells|, p) == Children(cells, lower)(p)
    {
      ChildrenOfAll(cells, byName, lower, p);
    }
  }

  lemma ChildrenOfAll(cells: seq<Cell>, byName: map<string, Cell>, lower: Lower, p: Id)
    requires byName == ByName(cells, lower)
    ensures ChildrenUpTo(cells, byName, lower, |cells|, p) == Children(cells, lower)(p)
  {
    forall c | c in Children(cells, lower)(p)
      ensures c in ChildrenUpTo(cells, byName, lower, |cells|, p)
    {
      var cell :| cell in cells && p in ParentIds(cell.upstreams, byName, lower) && cell.id == c;
      var j :| 0 <= j < |cells| && cells[j] == cell;
    }
  }

  method BuildIndexes(cells: seq<Cell>, lower: Lower) returns (byID: map<Id, Cell>, byName: map<string, Cell>)
    ensures byID == ByID(cells) && byName == ByName(cells, lower)
  {
    byID, byName := map[], map[];
    for i := 0 to |cells|
      invariant byID == ByID(cells[..i]) && byName == ByName(cells[..i], lower)
    {
      byID := byID[cells[i].id := cells[i]];
      byName := byName[lower(cells[i].name) := cells[i]];
      assert cells[..i + 1][..i] == cells[..i];
    }
    assert cells[..|cells|] == cells;
  }

  // ----- The whole selection -----

  lemma SameEdges(a: Edges, b: Edges, from: set<Id>, before: set<Id>, after: set<Id>)
    requires (forall x :: a(x) == b(x)) && Marked(a, from, before, after)
    ensures Marked(b, from, before, after)
  {
    forall t | from <= t && Closed(b, t)
      ensures after <= before + t
    {
      assert Closed(a, t);
    }
  }

  /** Marks the cells asked for. */
  method MarkSeed(cells: seq<Cell>, lower: Lower, input: Selection, byID: map<Id, Cell>, downstream: map<Id, seq<Id>>)
    returns (wanted: Wanted, missing: Option<Id>)
    requires byID == ByID(cells) && forall p :: ChildrenIn(downstream)(p) == Children(cells, lower)(p)
    ensures fresh(wanted)
    ensures missing.Some? <==> !Known(cells, input)
    ensures missing.Some? ==> missing.value !in Ids(cells) && (missing.value == input.from || missing.value in input.cells)
    ensures missing.None? ==> wanted.ids == Seed(cells, lower, input)
  {
    ByIDMeaning(cells);
    EdgesStayIn(cells, lower);
    wanted := new Wanted();
    if input.all {
      wanted.ids := byID.Keys;
    }
    if input.from != "" {
      if input.from !in byID {
        return wanted, Some(input.from);
      }
      MarkFrom(cells, lower, input.from, downstream, wanted);
    }
    missing := MarkListed(input.cells, byID, wanted);
  }

  method MarkListed(listed: seq<Id>, byID: map<Id, Cell>, wanted: Wanted) returns (missing: Option<Id>)
    modifies wanted
    ensures missing.None? ==> wanted.ids == old(wanted.ids) + set id | id in listed
    ensures missing.None? <==> forall id :: id in listed ==> id in byID
    ensures missing.Some? ==> missing.value in listed && missing.value !in byID
  {
    for i := 0 to |listed|
      invariant wanted.ids == old(wanted.ids) + set id | id in listed[..i]
      invariant forall k :: 0 <= k < i ==> listed[k] in byID
    {
      if listed[i] !in byID {
        return Some(listed[i]);
      }
      wanted.ids := wanted.ids + {listed[i]};
      assert listed[..i + 1] == listed[..i] + [listed[i]];
    }
    assert listed[..|listed|] == listed;
    return None;
  }

  /** From nothing marked, the depth-first marking reaches exactly the closure; from everything
      marked, it adds nothing. */
  method MarkFrom(cells: seq<Cell>, lower: Lower, from: Id, downstream: map<Id, seq<Id>>, wanted: Wanted)
    requires from in Ids(cells) && (wanted.ids == {} || wanted.ids == Ids(cells))
    requires forall p :: ChildrenIn(downstream)(p) == Children(cells, lower)(p)
    requires StaysIn(Children(cells, lower), Ids(cells))
    modifies wanted
    ensures wanted.ids == if old(wanted.ids) == {} then Closure(Children(cells, lower), Ids(cells), {from}) else old(wanted.ids)
  {
    ghost var before := wanted.ids;
    forall x
      ensures ChildrenIn(downstream)(x) <= Ids(cells)
    {
      assert ChildrenIn(downstream)(x) == Children(cells, lower)(x);
    }
    MarkDownstream(from, downstream, wanted, Ids(cells));
    SameEdges(ChildrenIn(downstream), Children(cells, lower), {from}, before, wanted.ids);
    if before == {} {
      LeastIsClosure(Children(cells, lower), Ids(cells), {from}, wanted.ids);
    } else {
      assert Closed(Children(cells, lower), Ids(cells));
    }
  }

  /** Marks the ancestors of everything marked so far, whatever order the map is walked in. */
  method MarkAllAncestors(cells: seq<Cell>, lower: Lower, byID: map<Id, Cell>, byName: map<string, Cell>, wanted: Wanted)
    requires byID == ByID(cells) && byName == ByName(cells, lower) && wanted.ids <= Ids(cells)
    requires StaysIn(Parents(cells, lower), Ids(cells))
    modifies wanted
    ensures wanted.ids == Closure(Parents(cells, lower), Ids(cells), old(wanted.ids))
  {
    ByIDMeaning(cells);
    ghost var next := Parents(cells, lower);
    ghost var seed := wanted.ids;
    var todo := wanted.ids;
    while todo != {}
      invariant todo <= seed <= wanted.ids
      invariant forall x :: x in wanted.ids && x !in todo ==> next(x) <= wanted.ids
      invariant forall t :: seed <= t && Closed(next, t) ==> wanted.ids <= t
      decreases todo
    {
      var id :| id in todo;
      MarkAncestors(id, byID, byName, lower, wanted, Ids(cells));
      todo := todo - {id};
    }
    LeastIsClosure(next, Ids(cells), seed, wanted.ids);
  }

  /** The cells that a request selects, in notebook order. */
  ghost predicate Chosen(cells: seq<Cell>, lower: Lower, input: Selection, chosen: seq<Cell>) {
    exists ids, at :: LeastSelection(cells, lower, input, ids) && TakenInOrder(cells, ids, chosen, at)
  }

  lemma KeepIsChosen(cells: seq<Cell>, lower: Lower, input: Selection)
    requires Known(cells, input)
    ensures Chosen(cells, lower, input, Keep(cells, Selected(cells, lower, input)))
  {
    SelectedIsLeast(cells, lower, input);
    var at := KeepInOrder(cells, Selected(cells, lower, input));
  }

  /** The selected cells in notebook order, or an identifier that no cell has. */
  method SelectedCells(cells: seq<Cell>, lower: Lower, input: Selection) returns (r: Result<seq<Cell>, Id>)
    ensures r.Ok? <==> (input.from != "" ==> HasCell(cells, input.from)) && forall id :: id in input.cells ==> HasCell(cells, id)
    ensures r.Ok? ==> Chosen(cells, lower, input, r.value)
    ensures r.Ok? ==> Known(cells, input) && r.value == Keep(cells, Selected(cells, lower, input))
    ensures r.Err? ==> !HasCell(cells, r.error) && (r.error == input.from || r.error in input.cells)
  {
    KnownHasCells(cells, input);
    var byID, byName := BuildIndexes(cells, lower);
    var downstream := BuildDownstream(cells, byName, lower);
    var wanted, missing := MarkSeed(cells, lower, input, byID, downstream);
    if missing.Some? {
      return Err(missing.value);
    }
    SeedInNotebook(cells, lower, input);
    EdgesStayIn(cells, lower);
    MarkAllAncestors(cells, lower, byID, byName, wanted);
    KeepIsChosen(cells, lower, input);
    var result := KeepCells(cells, wanted);
    return Ok(result);
  }

  method KeepCells(cells: seq<Cell>, wanted: Wanted) returns (result: seq<Cell>)
    ensures result == Keep(cells, wanted.ids)
  {
    result := [];
    for i := 0 to |cells|
      invariant result == Keep(cells[..i], wanted.ids)
    {
      if cells[i].id in wanted.ids {
        result := result + [cells[i]];
      }
      assert cells[..i + 1][..i] == cells[..i];
    }
    assert cells[..|cells|] == cells;
  }

  // ----- The checks before a run -----

  datatype Refusal =
    | NotebookRequired
    | SelectExactlyOne
    | LoadFailed
    | CellNotFound(id: Id)
    | SourcesNotApproved(message: string)
    | PythonNotAllowed(id: Id)

  /** The services the checks use: trimming, loading, the language of a cell, and the approval
      message for a selection (`Err` when the approvals cannot be loaded). */
  datatype Services = Services(
    trim: string -> string,
    lower: Lower,
    load: string -> Option<seq<Cell>>,
    language: Cell -> string,
    requireApproval: bool,
    approval: seq<Cell> -> string)

  function Count(trim: string -> string, input: Selection): nat {
    (if input.all then 1 else 0) + (if trim(input.from) != "" then 1 else 0) + (if input.cells != [] then 1 else 0)
  }

  /** Exactly one of the three ways to select cells is used. */
  ghost predicate AsksForOne(trim: string -> string, input: Selection) {
    || (input.all && trim(input.from) == "" && input.cells == [])
    || (!input.all && trim(input.from) != "" && input.cells == [])
    || (!input.all && trim(input.from) == "" && input.cells != [])
  }

  ghost predicate AskedProperly(services: Services, notebookID: string, input: Selection) {
    && services.trim(notebookID) != "" && AsksForOne(services.trim, input) && services.load(notebookID).Some?
    && (input.from != "" ==> HasCell(services.load(notebookID).value, input.from))
    && forall id :: id in input.cells ==> HasCell(services.load(notebookID).value, id)
  }

  ghost predicate Approved(services: Services, chosen: seq<Cell>) {
    services.requireApproval ==> services.approval(chosen) == ""
  }

  /** The outcome for the chosen cells: approval is asked for first, then the first Python cell is refused. */
  ghost predicate Judged(services: Services, chosen: seq<Cell>, allowPython: bool, r: Result<seq<Cell>, Refusal>) {
    && (r.Ok? <==> Approved(services, chosen) && (allowPython || forall k :: 0 <= k < |chosen| ==> services.language(chosen[k]) != "python"))
    && (r.Ok? ==> r.value == chosen)
    && (!Approved(services, chosen) ==> r == Err(SourcesNotApproved(services.approval(chosen))))
    && (Approved(services, chosen) && r.Err? ==> exists k: nat :: FirstPython(services, chosen, k) && r == Err(PythonNotAllowed(chosen[k].id)))
  }

  ghost predicate FirstPython(services: Services, chosen: seq<Cell>, k: nat) {
    k < |chosen| && services.language(chosen[k]) == "python" && forall j :: 0 <= j < k ==> services.language(chosen[j]) != "python"
  }

  /** The selection of a run that may start. */
  method CheckRun(services: Services, notebookID: string, input: Selection, allowPython: bool) returns (r: Result<seq<Cell>, Refusal>)
    ensures services.trim(notebookID) == "" <==> r == Err(NotebookRequired)
    ensures services.trim(notebookID) != "" && !AsksForOne(services.trim, input) <==> r == Err(SelectExactlyOne)
    ensures services.trim(notebookID) != "" && AsksForOne(services.trim, input) && services.load(notebookID).None? <==> r == Err(LoadFailed)
    ensures AskedProperly(services, notebookID, input) ==>
              exists chosen :: Chosen(services.load(notebookID).value, services.lower, input, chosen) && Judged(services, chosen, allowPython, r)
    ensures !AskedProperly(services, notebookID, input) ==> r.Err? && !r.error.SourcesNotApproved? && !r.error.PythonNotAllowed?
  {
    if services.trim(notebookID) == "" {
      return Err(NotebookRequired);
    }
    if Count(services.trim, input) != 1 {
      return Err(SelectExactlyOne);
    }
    var loaded := services.load(notebookID);
    if loaded.None? {
      return Err(LoadFailed);
    }
    var selection := SelectedCells(loaded.value, services.lower, input);
    if selection.Err? {
      return Err(CellNotFound(selection.error));
    }
    r := Judge(services, selection.value, allowPython);
  }

  method Judge(services: Services, selected: seq<Cell>, allowPython: bool) returns (r: Result<seq<Cell>, Refusal>)
    ensures Judged(services, selected, allowPython, r)
    ensures r.Err? ==> r.error.SourcesNotApproved? || r.error.PythonNotAllowed?
  {
    if services.requireApproval && services.approval(selected) != "" {
      return Err(SourcesNotApproved(services.approval(selected)));
    }
    if !allowPython {
      var python := FindPython(services, selected);
      if python.Some? {
        return Err(PythonNotAllowed(selected[python.value].id));
      }
    }
    return Ok(selected);
  }

  method FindPython(services: Services, selected: seq<Cell>) returns (python: Option<nat>)
    ensures python.None? <==> forall k :: 0 <= k < |selected| ==> services.language(selected[k]) != "python"
    ensures python.Some? ==> FirstPython(services, selected, python.value)
  {
    for i := 0 to |selected|
      invariant forall k :: 0 <= k < i ==> services.language(selected[k]) != "python"
    {
      if services.language(selected[i]) == "python" {
        return Some(i);
      }
    }
    return None;
  }

  /** A chain of cells, each naming the next one as an upstream. */
  ghost predicate UpstreamPath(cells: seq<Cell>, lower: Lower, path: seq<Id>) {
    path != [] && forall k :: 0 <= k < |path| - 1 ==> Names(cells, lower, path[k], path[k + 1])
  }

  ghost predicate Names(cells: seq<Cell>, lower: Lower, c: Id, p: Id) {
    exists i :: 0 <= i < |cells| && LastWithId(cells, c, i) && Upstream(cells, lower, cells[i], p)
  }

  /** Following upstreams from a requested cell never leaves the selection, however far and even
      round a cycle. */
  lemma {:induction false} UpstreamsAreSelected(cells: seq<Cell>, lower: Lower, input: Selection, ids: set<Id>, path: seq<Id>)
    requires LeastSelection(cells, lower, input, ids) && UpstreamPath(cells, lower, path) && Requested(cells, lower, input, path[0])
    ensures path[|path| - 1] in ids
    decreases |path|
  {
    if |path| > 1 {
      UpstreamsAreSelected(cells, lower, input, ids, path[..|path| - 1]);
      assert Names(cells, lower, path[|path| - 2], path[|path| - 2 + 1]);
    }
  }

  /** So no Python cell escapes the check that lies downstream of the cell to run from, or upstream of a cell
      downstream of it: it is among the chosen cells. */
  lemma ReachedIsChosen(cells: seq<Cell>, lower: Lower, input: Selection, chosen: seq<Cell>, down: seq<Id>, up: seq<Id>, i: nat)
    requires Chosen(cells, lower, input, chosen) && i < |cells| && input.from != ""
    requires down != [] && DownstreamChain(cells, lower, input.from, down[|down| - 1], down)
    requires UpstreamPath(cells, lower, up) && up[0] == down[|down| - 1] && up[|up| - 1] == cells[i].id
    ensures cells[i] in chosen
  {
    var ids, at :| LeastSelection(cells, lower, input, ids) && TakenInOrder(cells, ids, chosen, at);
    UpstreamsAreSelected(cells, lower, input, ids, up);
    var k :| 0 <= k < |at| && at[k] == i;
    assert chosen[k] == cells[i];
  }

  /** A request is refused when there is a Python cell at the end of such a chain and Python is not allowed. */
  lemma PythonOnChainIsRefused(services: Services, cells: seq<Cell>, input: Selection, chosen: seq<Cell>, r: Result<seq<Cell>, Refusal>,
                               down: seq<Id>, up: seq<Id>, i: nat)
    requires Chosen(cells, services.lower, input, chosen) && Judged(services, chosen, false, r)
    requires i < |cells| && services.language(cells[i]) == "python" && input.from != ""
    requires down != [] && DownstreamChain(cells, services.lower, input.from, down[|down| - 1], down)
    requires UpstreamPath(cells, services.lower, up) && up[0] == down[|down| - 1] && up[|up| - 1] == cells[i].id
    ensures r.Err?
  {
    ReachedIsChosen(cells, services.lower, input, chosen, down, up, i);
  }

  /** The request, the notebook and the approvals decide which cells are chosen. */
  lemma ChosenIsUnique(cells: seq<Cell>, lower: Lower, input: Selection, chosen: seq<Cell>, other: seq<Cell>)
    requires Chosen(cells, lower, input, chosen) && Chosen(cells, lower, input, other)
    ensures chosen == other
  {
    var ids, at :| LeastSelection(cells, lower, input, ids) && TakenInOrder(cells, ids, chosen, at);
    var ids', at' :| LeastSelection(cells, lower, input, ids') && TakenInOrder(cells, ids', other, at');
    assert ids == ids';
    SameOrder(at, at');
  }
}
