/** Prepared notebook changes: a bounded store whose entries expire, can be discarded, and are
    applied at most once. */
module ChangeStore {
  import opened Wrappers

  type Id = string

  /** A prepared plan; only one without blocking problems can be applied. */
  datatype Plan = Plan(notebookID: string, operations: seq<string>, canApply: bool)

  datatype Change = Change(plan: Plan, createdAt: int, expiresAt: int, applying: bool)

  type Changes = map<Id, Change>

  const MAX_PREPARED := 64
  const TTL := 30 * 60 * 1_000_000_000

  // ----- What each locked region does to the entries -----

  predicate Expired(c: Change, now: int) {
    !c.applying && c.expiresAt <= now
  }

  ghost function Swept(changes: Changes, now: int): Changes {
    map id | id in changes && !Expired(changes[id], now) :: changes[id]
  }

  ghost predicate Oldest(changes: Changes, id: Id) {
    && id in changes
    && forall other :: other in changes ==> changes[id].createdAt <= changes[other].createdAt
  }

  /** A full store gives up one oldest entry, unless that one is being applied. */
  ghost predicate RoomMade(changes: Changes, roomy: Changes) {
    if |changes| < MAX_PREPARED then roomy == changes
    else exists id :: Oldest(changes, id) && roomy == if changes[id].applying then changes else changes - {id}
  }

  datatype PutFailure = TooMany | NoRandomId

  function Prepared(plan: Plan, now: int): Change {
    Change(plan, now, now + TTL, false)
  }

  ghost predicate Admitted(roomy: Changes, changes': Changes, plan: Plan, createdAt: int, id: Option<Id>, r: Result<Id, PutFailure>) {
    if |roomy| >= MAX_PREPARED then r == Err(TooMany) && changes' == roomy
    else if id.None? then r == Err(NoRandomId) && changes' == roomy
    else r == Ok(id.value) && changes' == roomy[id.value := Prepared(plan, createdAt)]
  }

  ghost predicate PutStep(changes: Changes, changes': Changes, now: int, plan: Plan, createdAt: int, id: Option<Id>, r: Result<Id, PutFailure>) {
    exists roomy :: RoomMade(Swept(changes, now), roomy) && Admitted(roomy, changes', plan, createdAt, id, r)
  }

  /** Present and not taken by another call. */
  predicate Free(changes: Changes, id: Id) {
    id in changes && !changes[id].applying
  }

  ghost function Begun(changes: Changes, id: Id): Changes {
    if Free(changes, id) then changes[id := changes[id].(applying := true)] else changes
  }

  ghost function Finished(changes: Changes, id: Id, applied: bool): Changes {
    if applied then changes - {id}
    else if id in changes then changes[id := changes[id].(applying := false)]
    else changes
  }

  ghost function Discarded(changes: Changes, id: Id): Changes {
    if Free(changes, id) then changes - {id} else changes
  }

  /** A sweep leaves exactly the changes that are being applied or have not reached the time they expire at. */
  lemma SweptMeaning(changes: Changes, now: int, id: Id)
    ensures id in Swept(changes, now) <==> id in changes && (changes[id].applying || now < changes[id].expiresAt)
    ensures id in Swept(changes, now) ==> Swept(changes, now)[id] == changes[id]
  {
  }

  /** Of the changes one is dropped that nobody applies, none of the others having been created before it. */
  ghost predicate OldestDropped(changes: Changes, roomy: Changes, id: Id) {
    && id in changes && id !in roomy && !changes[id].applying
    && forall other :: other in changes && other != id ==> other in roomy && roomy[other] == changes[other] && changes[id].createdAt <= changes[other].createdAt
  }

  ghost predicate OldestApplying(changes: Changes, id: Id) {
    id in changes && changes[id].applying && forall other :: other in changes ==> changes[id].createdAt <= changes[other].createdAt
  }

  /** What a call to prepare a change leaves behind: of 64 swept changes one that was created first is dropped, or none if
      one that was created first is being applied, and then the new one is refused. Otherwise it is added, free, with half
      an hour to live. */
  lemma PutMeaning(changes: Changes, changes': Changes, now: int, plan: Plan, createdAt: int, id: Option<Id>, r: Result<Id, PutFailure>)
      returns (roomy: Changes)
    requires PutStep(changes, changes', now, plan, createdAt, id, r) && |changes| <= 64
    ensures |Swept(changes, now)| < 64 ==> roomy == Swept(changes, now)
    ensures |Swept(changes, now)| >= 64 ==>
              || (exists x :: OldestDropped(Swept(changes, now), roomy, x))
              || (roomy == Swept(changes, now) && exists x :: OldestApplying(roomy, x))
    ensures r == Err(TooMany) <==> |roomy| >= 64
    ensures r == Err(NoRandomId) <==> |roomy| < 64 && id.None?
    ensures r.Err? ==> changes' == roomy
    ensures r.Ok? ==> id == Some(r.value) && changes' == roomy[r.value := Change(plan, createdAt, createdAt + 1_800_000_000_000, false)]
  {
    var swept := Swept(changes, now);
    roomy :| RoomMade(swept, roomy) && Admitted(roomy, changes', plan, createdAt, id, r);
    if |swept| >= 64 {
      var x :| Oldest(swept, x) && roomy == if swept[x].applying then swept else swept - {x};
      assert swept[x].applying ==> OldestApplying(roomy, x);
      assert !swept[x].applying ==> OldestDropped(swept, roomy, x);
    }
  }

  ghost predicate OthersKept(changes: Changes, changes': Changes, id: Id) {
    forall other :: other != id ==> (other in changes <==> other in changes') && (other in changes ==> changes'[other] == changes[other])
  }

  /** Beginning, finishing and discarding change one entry: a free one is taken or dropped, a success drops the entry, and a
      failure frees it. */
  lemma EntryMeaning(changes: Changes, id: Id)
    ensures OthersKept(changes, Begun(changes, id), id) && OthersKept(changes, Discarded(changes, id), id)
    ensures OthersKept(changes, Finished(changes, id, true), id) && OthersKept(changes, Finished(changes, id, false), id)
    ensures id in Begun(changes, id) <==> id in changes
    ensures id in changes ==> Begun(changes, id)[id].applying && SameChange(changes[id], Begun(changes, id)[id])
    ensures id in Discarded(changes, id) <==> id in changes && changes[id].applying
    ensures id !in Finished(changes, id, true) && (id in Finished(changes, id, false) <==> id in changes)
    ensures id in changes ==> !Finished(changes, id, false)[id].applying && SameChange(changes[id], Finished(changes, id, false)[id])
  {
  }

  // ----- The store itself -----

  class StoredChange {
    const id: Id
    const plan: Plan
    const createdAt: int
    const expiresAt: int
    var applying: bool

    constructor (id: Id, plan: Plan, now: int)
      ensures this.id == id && Copy() == Prepared(plan, now)
    {
      this.id, this.plan, createdAt, expiresAt, applying := id, plan, now, now + TTL, false;
    }

    function Copy(): Change
      reads this
    {
      Change(plan, createdAt, expiresAt, applying)
    }
  }

  class Store {
    var changes: map<Id, StoredChange>

    ghost var entries: Changes
    ghost var Repr: set<StoredChange>

    ghost predicate Holds(id: Id)
      reads this, Repr
    {
      id in changes && id in entries && changes[id] in Repr && changes[id].id == id && entries[id] == changes[id].Copy()
    }

    ghost predicate Valid()
      reads this, Repr
    {
      changes.Keys == entries.Keys && forall id :: id in changes ==> Holds(id)
    }

    constructor ()
      ensures Valid() && fresh(Repr) && entries == map[]
    {
      changes, entries, Repr := map[], map[], {};
    }

    method Delete(id: Id)
      requires Valid()
      modifies this
      ensures Valid() && Repr == old(Repr) && changes == old(changes) - {id} && entries == old(entries) - {id}
    {
      changes := changes - {id};
      entries := entries - {id};
      forall other | other in changes
        ensures Holds(other)
      {
        assert old(Holds(other));
      }
    }

    method SweepLocked(now: int)
      requires Valid()
      modifies this
      ensures Valid() && Repr == old(Repr) && entries == Swept(old(entries), now)
    {
      var todo := changes.Keys;
      while todo != {}
        invariant Valid() && Repr == old(Repr) && todo <= changes.Keys
        invariant forall id :: id in entries ==> id in old(entries) && entries[id] == old(entries)[id]
        invariant forall id :: id in old(entries) && id !in entries ==> Expired(old(entries)[id], now)
        invariant forall id :: id in entries && id !in todo ==> !Expired(entries[id], now)
        decreases todo
      {
        var id :| id in todo;
        assert Holds(id);
        var change := changes[id];
        todo := todo - {id};
        if !change.applying && !(now < change.expiresAt) {
          Delete(id);
        }
      }
    }

    method FindOldest() returns (oldest: StoredChange?)
      requires Valid()
      ensures oldest == null <==> changes == map[]
      ensures oldest != null ==> Holds(oldest.id) && changes[oldest.id] == oldest && Oldest(entries, oldest.id)
    {
      oldest := null;
      var todo := changes.Keys;
      while todo != {}
        invariant todo <= changes.Keys
        invariant oldest == null ==> todo == changes.Keys
        invariant oldest != null ==> Holds(oldest.id) && changes[oldest.id] == oldest
        invariant oldest != null ==> forall id :: id in changes && id !in todo ==> oldest.createdAt <= entries[id].createdAt
        decreases todo
      {
        var id :| id in todo;
        assert Holds(id);
        var candidate := changes[id];
        if oldest == null || candidate.createdAt < oldest.createdAt {
          oldest := candidate;
        }
        todo := todo - {id};
      }
      assert oldest == null ==> changes.Keys == {};
    }

    method MakeRoom()
      requires Valid()
      modifies this
      ensures Valid() && Repr == old(Repr) && RoomMade(old(entries), entries)
    {
      assert |changes.Keys| == |entries.Keys|;
      if |changes| >= MAX_PREPARED {
        var oldest := FindOldest();
        if oldest != null && !oldest.applying {
          Delete(oldest.id);
        }
      }
    }

    method Insert(id: Id, plan: Plan, createdAt: int)
      requires Valid() && id !in changes
      modifies this
      ensures Valid() && fresh(Repr - old(Repr)) && entries == old(entries)[id := Prepared(plan, createdAt)]
    {
      var change := new StoredChange(id, plan, createdAt);
      changes := changes[id := change];
      entries := entries[id := Prepared(plan, createdAt)];
      Repr := Repr + {change};
      forall other | other in changes
        ensures Holds(other)
      {
        if other != id {
          assert old(Holds(other));
        }
      }
    }

    /** `now` and `createdAt` are the two clock readings; `id` is the outcome of drawing a random
        identifier, and one that is drawn is new. */
    method Put(plan: Plan, now: int, createdAt: int, id: Option<Id>) returns (r: Result<Id, PutFailure>)
      requires Valid() && (id.Some? ==> id.value !in changes)
      modifies this
      ensures Valid() && fresh(Repr - old(Repr)) && PutStep(old(entries), entries, now, plan, createdAt, id, r)
    {
      SweepLocked(now);
      MakeRoom();
      assert RoomMade(Swept(old(entries), now), entries);
      assert |changes.Keys| == |entries.Keys|;
      if |changes| >= MAX_PREPARED {
        r := Err(TooMany);
      } else if id.None? {
        r := Err(NoRandomId);
      } else {
        Insert(id.value, plan, createdAt);
        r := Ok(id.value);
      }
    }

    method Get(id: Id, now: int) returns (change: Option<Change>)
      requires Valid()
      modifies this
      ensures Valid() && Repr == old(Repr) && entries == Swept(old(entries), now)
      ensures change == if id in entries then Some(entries[id]) else None
    {
      SweepLocked(now);
      if id !in changes {
        return None;
      }
      assert Holds(id);
      return Some(changes[id].Copy());
    }

    /** Sets the flag of a present entry. */
    method SetApplying(id: Id, applying: bool)
      requires Valid() && id in changes
      modifies this`entries, Repr
      ensures Valid() && entries == old(entries)[id := old(entries)[id].(applying := applying)]
    {
      assert Holds(id);
      var change := changes[id];
      change.applying := applying;
      entries := entries[id := entries[id].(applying := applying)];
      forall other | other in changes
        ensures Holds(other)
      {
        assert old(Holds(other));
      }
    }

    /** Takes the entry for one application and returns a copy of it. */
    method BeginApply(id: Id, now: int) returns (change: Option<Change>)
      requires Valid()
      modifies this, Repr
      ensures Valid() && Repr == old(Repr) && entries == Begun(Swept(old(entries), now), id)
      ensures change.Some? <==> Free(Swept(old(entries), now), id)
      ensures change.Some? ==> change.value == entries[id]
    {
      SweepLocked(now);
      if id !in changes {
        return None;
      }
      assert Holds(id);
      if changes[id].applying {
        return None;
      }
      SetApplying(id, true);
      assert Holds(id);
      return Some(changes[id].Copy());
    }

    method FinishApply(id: Id, applied: bool)
      requires Valid()
      modifies this, Repr
      ensures Valid() && Repr == old(Repr) && entries == Finished(old(entries), id, applied)
    {
      if applied {
        Delete(id);
      } else if id in changes {
        SetApplying(id, false);
      }
    }

    method Discard(id: Id, now: int) returns (discarded: bool)
      requires Valid()
      modifies this
      ensures Valid() && Repr == old(Repr) && entries == Discarded(Swept(old(entries), now), id)
      ensures discarded <==> Free(Swept(old(entries), now), id)
    {
      SweepLocked(now);
      if id !in changes {
        return false;
      }
      assert Holds(id);
      if changes[id].applying {
        return false;
      }
      Delete(id);
      return true;
    }
  }

  // ----- All interleavings -----

  /** A call that has taken an entry and not yet given it back. */
  datatype Flight = Flight(id: Id, plan: Plan)

  /** The store, the calls in flight by caller, and every identifier drawn so far. */
  datatype System = System(changes: Changes, flights: map<nat, Flight>, drawn: set<Id>)

  datatype Event =
    | PutCalled(plan: Plan, now: int, createdAt: int, random: Option<Id>, result: Result<Id, PutFailure>)
    | Read(now: int)
    | ApplyBegun(caller: nat, id: Id, now: int, ok: bool)
    | ApplyEnded(caller: nat, applied: bool)
    | DiscardCalled(id: Id, now: int)

  /** One locked region of some caller. A plan with blocking problems is never reported as applied;
      random identifiers are never drawn twice. */
  ghost predicate Next(s: System, e: Event, s': System) {
    match e
    case PutCalled(plan, now, createdAt, id, result) =>
      && (id.Some? ==> id.value !in s.drawn)
      && PutStep(s.changes, s'.changes, now, plan, createdAt, id, result)
      && s'.flights == s.flights
      && s'.drawn == s.drawn + (if id.Some? then {id.value} else {})
    case Read(now) =>
      s' == s.(changes := Swept(s.changes, now))
    case ApplyBegun(caller, id, now, ok) =>
      && caller !in s.flights
      && var swept := Swept(s.changes, now);
         && ok == Free(swept, id)
         && s' == s.(changes := Begun(swept, id), flights := if ok then s.flights[caller := Flight(id, swept[id].plan)] else s.flights)
    case ApplyEnded(caller, applied) =>
      && caller in s.flights && (applied ==> s.flights[caller].plan.canApply)
      && s' == s.(changes := Finished(s.changes, s.flights[caller].id, applied), flights := s.flights - {caller})
    case DiscardCalled(id, now) =>
      s' == s.(changes := Discarded(Swept(s.changes, now), id))
  }

  ghost predicate Initial(s: System) {
    s.changes == map[] && s.flights == map[]
  }

  /** The entry of a call in flight is in the store, taken, and still carries the plan the call copied. */
  ghost predicate FlightInv(s: System, caller: nat)
    requires caller in s.flights
  {
    var f := s.flights[caller];
    f.id in s.changes && s.changes[f.id].applying && s.changes[f.id].plan == f.plan
  }

  ghost predicate TakenBySomeone(s: System, id: Id) {
    exists caller :: caller in s.flights && s.flights[caller].id == id
  }

  ghost predicate Inv(s: System) {
    && |s.changes| <= MAX_PREPARED
    && s.changes.Keys <= s.drawn
    && (forall caller :: caller in s.flights ==> FlightInv(s, caller))
    && (forall a, b :: a in s.flights && b in s.flights && s.flights[a].id == s.flights[b].id ==> a == b)
    && (forall id :: id in s.changes && s.changes[id].applying ==> TakenBySomeone(s, id))
  }

  /** Part of the entries, unchanged; every entry in use is among them. */
  ghost predicate Kept(changes: Changes, rest: Changes) {
    && (forall id :: id in rest ==> id in changes && rest[id] == changes[id])
    && (forall id :: id in changes && changes[id].applying ==> id in rest)
  }

  lemma KeptFewer(changes: Changes, rest: Changes)
    requires Kept(changes, rest)
    ensures |rest| <= |changes|
  {
    Fewer(rest.Keys, changes.Keys);
    assert |rest.Keys| == |rest| && |changes.Keys| == |changes|;
  }

  lemma SweptKept(changes: Changes, now: int)
    ensures Kept(changes, Swept(changes, now)) && |Swept(changes, now)| <= |changes|
  {
    KeptFewer(changes, Swept(changes, now));
  }

  lemma RoomKept(changes: Changes, roomy: Changes)
    requires RoomMade(changes, roomy)
    ensures Kept(changes, roomy) && |roomy| <= |changes|
  {
    KeptFewer(changes, roomy);
  }

  lemma KeptTwice(a: Changes, b: Changes, c: Changes)
    requires Kept(a, b) && Kept(b, c)
    ensures Kept(a, c)
  {
  }

  /** The store without the entry that was just added. */
  ghost function Before(changes': Changes, r: Result<Id, PutFailure>): Changes {
    if r.Ok? then changes' - {r.value} else changes'
  }

  lemma AdmittedKept(roomy: Changes, changes': Changes, plan: Plan, createdAt: int, id: Option<Id>, r: Result<Id, PutFailure>)
    requires Admitted(roomy, changes', plan, createdAt, id, r) && |roomy| <= MAX_PREPARED && (id.Some? ==> id.value !in roomy)
    ensures |changes'| <= MAX_PREPARED && Before(changes', r) == roomy
    ensures r.Ok? ==> id == Some(r.value) && r.value in changes' && changes'[r.value] == Prepared(plan, createdAt)
  {
    if r.Ok? {
      assert changes'.Keys == roomy.Keys + {id.value};
      assert |changes'| == |changes'.Keys| && |roomy| == |roomy.Keys|;
      assert changes' - {id.value} == roomy;
    }
  }

  /** Preparing a change adds one free entry and drops only entries that are not in use. */
  lemma PutKeeps(changes: Changes, changes': Changes, now: int, plan: Plan, createdAt: int, id: Option<Id>, r: Result<Id, PutFailure>)
    requires PutStep(changes, changes', now, plan, createdAt, id, r) && |changes| <= MAX_PREPARED
    requires id.Some? ==> id.value !in changes
    ensures |changes'| <= MAX_PREPARED
    ensures r.Ok? ==> id == Some(r.value) && r.value in changes' && changes'[r.value] == Prepared(plan, createdAt)
    ensures Kept(changes, Before(changes', r))
  {
    var swept := Swept(changes, now);
    var roomy :| RoomMade(swept, roomy) && Admitted(roomy, changes', plan, createdAt, id, r);
    SweptKept(changes, now);
    RoomKept(swept, roomy);
    KeptTwice(changes, swept, roomy);
    AdmittedKept(roomy, changes', plan, createdAt, id, r);
  }

  lemma OneFewer(changes: Changes, id: Id)
    requires id in changes
    ensures |changes - {id}| == |changes| - 1
  {
    assert (changes - {id}).Keys == changes.Keys - {id};
    assert |(changes - {id}).Keys| == |changes - {id}| && |changes.Keys| == |changes|;
  }

  // ----- When a full store refuses -----

  /** Which oldest entry is found decides: a refusal is possible exactly when the swept store is full and some
      oldest entry is being applied. */
  lemma MayBeRefused(changes: Changes, now: int, plan: Plan, createdAt: int, id: Option<Id>)
    requires |changes| <= MAX_PREPARED
    ensures var swept := Swept(changes, now);
            (exists changes' :: PutStep(changes, changes', now, plan, createdAt, id, Err(TooMany)))
            <==> |swept| >= MAX_PREPARED && exists oldest :: Oldest(swept, oldest) && swept[oldest].applying
  {
    var swept := Swept(changes, now);
    if changes' :| PutStep(changes, changes', now, plan, createdAt, id, Err(TooMany)) {
      RefusedOnlyWhileApplying(changes, changes', now, plan, createdAt, id);
    }
    if |swept| >= MAX_PREPARED && exists oldest :: Oldest(swept, oldest) && swept[oldest].applying {
      assert RoomMade(swept, swept);
      assert PutStep(changes, swept, now, plan, createdAt, id, Err(TooMany));
    }
  }

  /** A change is refused for lack of room only while an oldest one is being applied. */
  lemma RefusedOnlyWhileApplying(changes: Changes, changes': Changes, now: int, plan: Plan, createdAt: int, id: Option<Id>)
    requires PutStep(changes, changes', now, plan, createdAt, id, Err(TooMany)) && |changes| <= MAX_PREPARED
    ensures changes' == Swept(changes, now) && |changes'| == MAX_PREPARED
    ensures exists oldest :: Oldest(changes', oldest) && changes'[oldest].applying
  {
    var swept := Swept(changes, now);
    var roomy :| RoomMade(swept, roomy) && Admitted(roomy, changes', plan, createdAt, id, Err(TooMany));
    SweptKept(changes, now);
    RoomKept(swept, roomy);
    var oldest :| Oldest(swept, oldest) && roomy == if swept[oldest].applying then swept else swept - {oldest};
    if !swept[oldest].applying {
      OneFewer(swept, oldest);
    }
    assert Oldest(changes', oldest) && changes'[oldest].applying;
  }

  /** What the call does when it gives up the free entry `oldest`. */
  lemma GivesUp(changes: Changes, now: int, plan: Plan, createdAt: int, id: Option<Id>, oldest: Id) returns (changes': Changes, r: Result<Id, PutFailure>)
    requires |changes| <= MAX_PREPARED && |Swept(changes, now)| >= MAX_PREPARED
    requires Oldest(Swept(changes, now), oldest) && !Swept(changes, now)[oldest].applying
    ensures PutStep(changes, changes', now, plan, createdAt, id, r) && r != Err(TooMany)
  {
    var swept := Swept(changes, now);
    var roomy := swept - {oldest};
    SweptKept(changes, now);
    OneFewer(swept, oldest);
    assert RoomMade(swept, roomy);
    r := if id.None? then Err(NoRandomId) else Ok(id.value);
    changes' := if id.None? then roomy else roomy[id.value := Prepared(plan, createdAt)];
    assert Admitted(roomy, changes', plan, createdAt, id, r);
  }

  /** A refusal is certain exactly when the swept store is full and every oldest entry is being applied;
      the entries that are not oldest do not matter, free or not. */
  lemma MustBeRefused(changes: Changes, now: int, plan: Plan, createdAt: int, id: Option<Id>)
    requires |changes| <= MAX_PREPARED
    ensures var swept := Swept(changes, now);
            (forall changes', r :: PutStep(changes, changes', now, plan, createdAt, id, r) ==> r == Err(TooMany))
            <==> |swept| >= MAX_PREPARED && forall oldest :: Oldest(swept, oldest) ==> swept[oldest].applying
  {
    var swept := Swept(changes, now);
    if |swept| < MAX_PREPARED {
      var r: Result<Id, PutFailure> := if id.None? then Err(NoRandomId) else Ok(id.value);
      var changes' := if id.None? then swept else swept[id.value := Prepared(plan, createdAt)];
      assert RoomMade(swept, swept) && Admitted(swept, changes', plan, createdAt, id, r);
      assert PutStep(changes, changes', now, plan, createdAt, id, r) && r != Err(TooMany);
    } else if oldest :| Oldest(swept, oldest) && !swept[oldest].applying {
      var changes', r := GivesUp(changes, now, plan, createdAt, id, oldest);
    }
  }

  /** With different creation times the outcome is certain: refused exactly when the swept store is full and
      its oldest entry is being applied. */
  lemma RefusedIff(changes: Changes, changes': Changes, now: int, plan: Plan, createdAt: int, id: Option<Id>, r: Result<Id, PutFailure>, oldest: Id)
    requires |changes| <= MAX_PREPARED && PutStep(changes, changes', now, plan, createdAt, id, r)
    requires forall a, b :: a in changes && b in changes && a != b ==> changes[a].createdAt != changes[b].createdAt
    requires Oldest(Swept(changes, now), oldest)
    ensures r == Err(TooMany) <==> |Swept(changes, now)| >= MAX_PREPARED && changes[oldest].applying
  {
    var swept := Swept(changes, now);
    forall other | Oldest(swept, other)
      ensures other == oldest
    {
      assert swept[other].createdAt == swept[oldest].createdAt;
    }
    MayBeRefused(changes, now, plan, createdAt, id);
    MustBeRefused(changes, now, plan, createdAt, id);
  }

  function IdOf(k: nat): (id: Id)
    ensures |id| == k
  {
    if k == 0 then "" else "x" + IdOf(k - 1)
  }

  /** `n` changes prepared one after the other, at one time unit each. */
  function Sequence(plan: Plan, n: nat): (changes: Changes)
    ensures |changes| == n && forall id :: id in changes ==> |id| < n
    ensures forall k: nat :: k < n ==> IdOf(k) in changes && changes[IdOf(k)] == Change(plan, k, k + TTL, false)
    ensures forall id :: id in changes ==> id == IdOf(|id|)
  {
    if n == 0 then map[] else Sequence(plan, n - 1)[IdOf(n - 1) := Prepared(plan, n - 1)]
  }

  ghost predicate OneInUse(changes: Changes, first: Id) {
    first in changes && forall other :: other in changes ==> (changes[other].applying <==> other == first)
  }

  lemma OthersAreFree(changes: Changes, first: Id)
    requires OneInUse(changes, first)
    ensures |set other | other in changes && Free(changes, other)| == |changes| - 1
  {
    assert (set other | other in changes && Free(changes, other)) == changes.Keys - {first};
    assert |changes.Keys| == |changes|;
  }

  lemma SequenceEntry(plan: Plan, n: nat, changes: Changes, id: Id)
    requires changes == Sequence(plan, n) && id in changes
    ensures changes[id] == Change(plan, |id|, |id| + TTL, false)
  {
    assert id == IdOf(|id|);
  }

  lemma SequenceLives(plan: Plan, n: nat, changes: Changes, now: nat)
    requires changes == Sequence(plan, n) && now <= MAX_PREPARED
    ensures Swept(changes, now) == changes
  {
    forall id | id in changes
      ensures !Expired(changes[id], now)
    {
      SequenceEntry(plan, n, changes, id);
    }
  }

  /** The state after `n` changes have been prepared. */
  ghost function AfterPuts(plan: Plan, n: nat): System {
    System(Sequence(plan, n), map[], Sequence(plan, n).Keys)
  }

  lemma PutNext(plan: Plan, n: nat)
    requires n < MAX_PREPARED
    ensures Next(AfterPuts(plan, n), PutCalled(plan, n, n, Some(IdOf(n)), Ok(IdOf(n))), AfterPuts(plan, n + 1))
  {
    var changes, id := Sequence(plan, n), IdOf(n);
    SequenceLives(plan, n, changes, n);
    assert RoomMade(changes, changes);
    assert Admitted(changes, changes[id := Prepared(plan, n)], plan, n, Some(id), Ok(id));
    assert PutStep(changes, Sequence(plan, n + 1), n, plan, n, Some(id), Ok(id));
  }

  type Stepping = (System, Event, System) -> bool

  ghost function Steps(): Stepping {
    (s: System, e: Event, s': System) => Next(s, e, s')
  }

  ghost predicate Chain(steps: Stepping, states: seq<System>, events: seq<Event>) {
    |states| == |events| + 1 && forall i :: 0 <= i < |events| ==> steps(states[i], events[i], states[i + 1])
  }

  lemma ChainLonger(steps: Stepping, states: seq<System>, events: seq<Event>, e: Event, s': System)
    requires Chain(steps, states, events) && steps(states[|events|], e, s')
    ensures Chain(steps, states + [s'], events + [e])
  {
    var longer, all := states + [s'], events + [e];
    forall i | 0 <= i < |all|
      ensures steps(longer[i], all[i], longer[i + 1])
    {
      assert i < |events| ==> longer[i] == states[i] && all[i] == events[i] && longer[i + 1] == states[i + 1];
    }
  }

  lemma ChainIsTrace(states: seq<System>, events: seq<Event>)
    ensures Trace(states, events) <==> Chain(Steps(), states, events) && Initial(states[0])
  {
    if Chain(Steps(), states, events) {
      forall i | 0 <= i < |events|
        ensures Next(states[i], events[i], states[i + 1])
      {
        assert Steps()(states[i], events[i], states[i + 1]);
      }
    }
  }

  lemma Longer(states: seq<System>, events: seq<Event>, e: Event, s': System)
    requires Trace(states, events) && Next(states[|events|], e, s')
    ensures Trace(states + [s'], events + [e])
  {
    ChainIsTrace(states, events);
    ChainLonger(Steps(), states, events, e, s');
    ChainIsTrace(states + [s'], events + [e]);
  }

  lemma {:induction false} PutsInSequence(plan: Plan, n: nat) returns (states: seq<System>, events: seq<Event>)
    requires n <= MAX_PREPARED
    ensures Trace(states, events) && |events| == n && states[n] == AfterPuts(plan, n)
  {
    if n == 0 {
      states, events := [AfterPuts(plan, 0)], [];
    } else {
      states, events := PutsInSequence(plan, n - 1);
      PutNext(plan, n - 1);
      Longer(states, events, PutCalled(plan, n - 1, n - 1, Some(IdOf(n - 1)), Ok(IdOf(n - 1))), AfterPuts(plan, n));
      states, events := states + [AfterPuts(plan, n)], events + [PutCalled(plan, n - 1, n - 1, Some(IdOf(n - 1)), Ok(IdOf(n - 1)))];
    }
  }

  /** The state after one caller has taken the first change. */
  ghost function AfterTaking(plan: Plan): System {
    var changes := Sequence(plan, MAX_PREPARED);
    System(Begun(changes, ""), map[0 := Flight("", plan)], changes.Keys)
  }

  lemma TakeFirst(plan: Plan)
    ensures Next(AfterPuts(plan, MAX_PREPARED), ApplyBegun(0, "", MAX_PREPARED, true), AfterTaking(plan))
  {
    var changes := Sequence(plan, MAX_PREPARED);
    assert IdOf(0) == "" && "" in changes;
    SequenceLives(plan, MAX_PREPARED, changes, MAX_PREPARED);
    SequenceEntry(plan, MAX_PREPARED, changes, "");
  }

  /** A run after which a full store, whose oldest entry is being applied, refuses a change although its 63 other
      entries are free. */
  lemma RefusedWithFreeEntries(plan: Plan, id: Option<Id>) returns (states: seq<System>, events: seq<Event>)
    ensures Trace(states, events) && |events| == MAX_PREPARED + 1
    ensures var changes := states[MAX_PREPARED + 1].changes;
            && |changes| == MAX_PREPARED && |set other | other in changes && Free(changes, other)| == MAX_PREPARED - 1
            && PutStep(changes, changes, MAX_PREPARED, plan, MAX_PREPARED, id, Err(TooMany))
            && forall changes', r :: PutStep(changes, changes', MAX_PREPARED, plan, MAX_PREPARED, id, r) ==> r == Err(TooMany)
  {
    states, events := PutsInSequence(plan, MAX_PREPARED);
    TakeFirst(plan);
    Longer(states, events, ApplyBegun(0, "", MAX_PREPARED, true), AfterTaking(plan));
    states, events := states + [AfterTaking(plan)], events + [ApplyBegun(0, "", MAX_PREPARED, true)];
    TakenRefuses(plan, AfterTaking(plan).changes, id);
  }

  lemma TakenEntries(plan: Plan, changes: Changes)
    requires changes == AfterTaking(plan).changes
    ensures |changes| == MAX_PREPARED && OneInUse(changes, "")
    ensures forall other :: other in changes ==> changes[other] == Change(plan, |other|, |other| + TTL, other == "")
  {
    var before := Sequence(plan, MAX_PREPARED);
    assert IdOf(0) == "" && "" in before;
    forall other | other in before
      ensures before[other] == Change(plan, |other|, |other| + TTL, false)
    {
      SequenceEntry(plan, MAX_PREPARED, before, other);
    }
    SizeByKeys(changes, before);
  }

  lemma TakenRefuses(plan: Plan, changes: Changes, id: Option<Id>)
    requires changes == AfterTaking(plan).changes
    ensures |changes| == MAX_PREPARED && |set other | other in changes && Free(changes, other)| == MAX_PREPARED - 1
    ensures PutStep(changes, changes, MAX_PREPARED, plan, MAX_PREPARED, id, Err(TooMany))
    ensures forall changes', r :: PutStep(changes, changes', MAX_PREPARED, plan, MAX_PREPARED, id, r) ==> r == Err(TooMany)
  {
    TakenEntries(plan, changes);
    OthersAreFree(changes, "");
    assert Swept(changes, MAX_PREPARED) == changes;
    assert Oldest(changes, "");
    assert RoomMade(changes, changes);
    MustBeRefused(changes, MAX_PREPARED, plan, MAX_PREPARED, id);
  }

  /** What one locked region can do to an entry already in the store. */
  ghost predicate Changed(s: System, e: Event, s': System, id: Id)
    requires id in s.changes
  {
    var c := s.changes[id];
    || (id in s'.changes && s'.changes[id] == c)
    || (!c.applying && id !in s'.changes)
    || (e.ApplyBegun? && e.id == id && e.ok && !c.applying && id in s'.changes && s'.changes[id] == c.(applying := true))
    || (e.ApplyEnded? && e.caller in s.flights && s.flights[e.caller].id == id
        && (if e.applied then id !in s'.changes else id in s'.changes && s'.changes[id] == c.(applying := false)))
  }

  ghost predicate IsNew(s: System, e: Event, s': System, id: Id)
    requires id in s'.changes
  {
    e.PutCalled? && e.result == Ok(id) && !s'.changes[id].applying && id !in s.drawn
  }

  ghost predicate Bounded(s: System) {
    |s.changes| <= MAX_PREPARED && s.changes.Keys <= s.drawn
  }

  lemma StepKeepsBound(s: System, e: Event, s': System)
    requires Next(s, e, s') && Bounded(s)
    ensures Bounded(s') && s.drawn <= s'.drawn
  {
    match e
    case PutCalled(plan, now, createdAt, id, result) =>
      PutKeeps(s.changes, s'.changes, now, plan, createdAt, id, result);
    case Read(now) => SweptKept(s.changes, now);
    case ApplyBegun(caller, id, now, ok) =>
      SweptKept(s.changes, now);
      SizeByKeys(s'.changes, Swept(s.changes, now));
    case ApplyEnded(caller, applied) =>
      Fewer(s'.changes.Keys, s.changes.Keys);
      assert |s'.changes.Keys| == |s'.changes| && |s.changes.Keys| == |s.changes|;
    case DiscardCalled(id, now) =>
      SweptKept(s.changes, now);
      KeptFewer(Swept(s.changes, now), s'.changes);
  }

  lemma PutChanges(changes: Changes, changes': Changes, now: int, plan: Plan, createdAt: int, id: Option<Id>, r: Result<Id, PutFailure>, x: Id)
    requires PutStep(changes, changes', now, plan, createdAt, id, r) && |changes| <= MAX_PREPARED
    requires id.Some? ==> id.value !in changes
    ensures x in changes && x in changes' ==> changes'[x] == changes[x]
    ensures x in changes && changes[x].applying ==> x in changes'
    ensures x in changes' && x !in changes ==> r == Ok(x) && id == Some(x) && changes'[x] == Prepared(plan, createdAt)
  {
    PutKeeps(changes, changes', now, plan, createdAt, id, r);
    assert x in changes' && r != Ok(x) ==> x in Before(changes', r);
  }

  lemma StepChanges(s: System, e: Event, s': System, id: Id)
    requires Next(s, e, s') && Bounded(s)
    ensures id in s.changes ==> Changed(s, e, s', id)
    ensures id in s'.changes && id !in s.changes ==> IsNew(s, e, s', id)
  {
    match e
    case PutCalled(plan, now, createdAt, random, result) =>
      PutChanges(s.changes, s'.changes, now, plan, createdAt, random, result, id);
    case Read(now) =>
    case ApplyBegun(caller, taken, now, ok) =>
    case ApplyEnded(caller, applied) =>
    case DiscardCalled(discarded, now) =>
  }

  lemma SizeByKeys(a: Changes, b: Changes)
    requires a.Keys == b.Keys
    ensures |a| == |b|
  {
    assert |a.Keys| == |a| && |b.Keys| == |b|;
  }

  lemma FlightKept(s: System, e: Event, s': System, caller: nat)
    requires Inv(s) && Next(s, e, s') && caller in s'.flights
    ensures FlightInv(s', caller)
  {
    if caller in s.flights {
      assert FlightInv(s, caller);
      StepChanges(s, e, s', s.flights[caller].id);
    }
  }

  /** Two calls never hold the same entry. */
  lemma FlightsApart(s: System, e: Event, s': System, a: nat, b: nat)
    requires Inv(s) && Next(s, e, s')
    requires a in s'.flights && b in s'.flights && s'.flights[a].id == s'.flights[b].id
    ensures a == b
  {
    if a in s.flights {
      assert FlightInv(s, a);
    }
    if b in s.flights {
      assert FlightInv(s, b);
    }
  }

  lemma TakenKept(s: System, e: Event, s': System, id: Id)
    requires Inv(s) && Next(s, e, s') && id in s'.changes && s'.changes[id].applying
    ensures TakenBySomeone(s', id)
  {
    StepChanges(s, e, s', id);
    if s.changes[id].applying {
      var caller :| caller in s.flights && s.flights[caller].id == id;
      assert caller in s'.flights && s'.flights[caller].id == id;
    } else {
      assert e.caller in s'.flights && s'.flights[e.caller].id == id;
    }
  }

  /** Every locked region keeps the invariant. */
  lemma NextKeepsInv(s: System, e: Event, s': System)
    requires Inv(s) && Next(s, e, s')
    ensures Inv(s')
  {
    StepKeepsBound(s, e, s');
    forall caller | caller in s'.flights
      ensures FlightInv(s', caller)
    {
      FlightKept(s, e, s', caller);
    }
    forall a, b | a in s'.flights && b in s'.flights && s'.flights[a].id == s'.flights[b].id
      ensures a == b
    {
      FlightsApart(s, e, s', a, b);
    }
    forall id | id in s'.changes && s'.changes[id].applying
      ensures TakenBySomeone(s', id)
    {
      TakenKept(s, e, s', id);
    }
  }

  predicate SameChange(a: Change, b: Change) {
    a.plan == b.plan && a.createdAt == b.createdAt && a.expiresAt == b.expiresAt
  }

  lemma StableStep(s: System, e: Event, s': System, id: Id)
    requires Inv(s) && Next(s, e, s') && id in s.drawn
    ensures id in s'.drawn
    ensures id in s'.changes ==> id in s.changes && SameChange(s.changes[id], s'.changes[id])
  {
    StepKeepsBound(s, e, s');
    StepChanges(s, e, s', id);
  }

  // ----- Whole runs -----

  ghost predicate Trace(states: seq<System>, events: seq<Event>) {
    && |states| == |events| + 1 && Initial(states[0])
    && forall i :: 0 <= i < |events| ==> Next(states[i], events[i], states[i + 1])
  }

  lemma {:induction false} TraceInv(states: seq<System>, events: seq<Event>, i: nat)
    requires Trace(states, events) && i < |states|
    ensures Inv(states[i])
  {
    if i > 0 {
      TraceInv(states, events, i - 1);
      NextKeepsInv(states[i - 1], events[i - 1], states[i]);
    }
  }

  /** The event at `i` reports that the change `id` has been applied. */
  ghost predicate AppliedAt(states: seq<System>, events: seq<Event>, i: nat, id: Id)
    requires Trace(states, events) && i < |events|
  {
    events[i].ApplyEnded? && events[i].applied && events[i].caller in states[i].flights && states[i].flights[events[i].caller].id == id
  }

  /** From one state to the next, an identifier that has been drawn keeps its entry or loses it for good. */
  ghost predicate KeepsEntry(s: System, s': System, id: Id) {
    id in s.drawn ==>
      && id in s'.drawn
      && (id in s'.changes ==> id in s.changes && SameChange(s.changes[id], s'.changes[id]))
  }

  lemma StableAt(states: seq<System>, events: seq<Event>, j: nat, id: Id)
    requires Trace(states, events) && j < |events|
    ensures KeepsEntry(states[j], states[j + 1], id)
  {
    if id in states[j].drawn {
      TraceInv(states, events, j);
      StableStep(states[j], events[j], states[j + 1], id);
    }
  }

  lemma {:induction false} KeptAlong(states: seq<System>, i: nat, j: nat, id: Id)
    requires i <= j < |states| && forall k: nat :: i <= k < j ==> KeepsEntry(states[k], states[k + 1], id)
    ensures KeepsEntry(states[i], states[j], id)
    decreases j
  {
    if i < j {
      KeptAlong(states, i, j - 1, id);
      assert KeepsEntry(states[j - 1], states[j - 1 + 1], id);
    }
  }

  /** An entry keeps its plan and its expiry, and an identifier that has left the store never comes back. */
  lemma StableFrom(states: seq<System>, events: seq<Event>, i: nat, j: nat, id: Id)
    requires Trace(states, events) && i <= j < |states|
    ensures KeepsEntry(states[i], states[j], id)
  {
    forall k: nat | i <= k < j
      ensures KeepsEntry(states[k], states[k + 1], id)
    {
      StableAt(states, events, k, id);
    }
    KeptAlong(states, i, j, id);
  }

  lemma AppliedLeaves(states: seq<System>, events: seq<Event>, i: nat, id: Id)
    requires Trace(states, events) && i < |events| && AppliedAt(states, events, i, id)
    ensures id in states[i].changes
    ensures id in states[i + 1].drawn && id !in states[i + 1].changes
  {
    TraceInv(states, events, i);
    assert FlightInv(states[i], events[i].caller);
    assert Next(states[i], events[i], states[i + 1]);
  }

  /** Each prepared change is applied at most once. */
  lemma AppliedAtMostOnce(states: seq<System>, events: seq<Event>, i: nat, j: nat, id: Id)
    requires Trace(states, events) && i < |events| && j < |events|
    requires AppliedAt(states, events, i, id) && AppliedAt(states, events, j, id)
    ensures i == j
  {
    AppliedLeaves(states, events, i, id);
    AppliedLeaves(states, events, j, id);
    if i < j {
      StableFrom(states, events, i + 1, j, id);
    } else if j < i {
      StableFrom(states, events, j + 1, i, id);
    }
  }

  /** At most 64 changes are remembered. A change a call has taken is in the store, cannot be taken
      again, and is the plan that call applies; no two calls have taken the same one. */
  lemma InFlightIsKept(states: seq<System>, events: seq<Event>, i: nat)
    requires Trace(states, events) && i < |states|
    ensures |states[i].changes| <= MAX_PREPARED
    ensures forall a :: a in states[i].flights ==>
              var f := states[i].flights[a];
              f.id in states[i].changes && states[i].changes[f.id].plan == f.plan && !Free(states[i].changes, f.id)
    ensures forall a, b :: a in states[i].flights && b in states[i].flights && a != b ==> states[i].flights[a].id != states[i].flights[b].id
  {
    TraceInv(states, events, i);
    forall a | a in states[i].flights
      ensures FlightInv(states[i], a)
    {
    }
  }

  /** A change whose application failed can be taken again until it expires, and not after. */
  lemma FailedApplyCanBeRetried(states: seq<System>, events: seq<Event>, i: nat, now: int)
    requires Trace(states, events) && i < |events| && events[i].ApplyEnded? && !events[i].applied
    ensures events[i].caller in states[i].flights
    ensures var f := states[i].flights[events[i].caller];
            f.id in states[i].changes && f.id in states[i + 1].changes && states[i + 1].changes[f.id].plan == f.plan
            && (Free(Swept(states[i + 1].changes, now), f.id) <==> now < states[i].changes[f.id].expiresAt)
  {
    TraceInv(states, events, i);
    assert Next(states[i], events[i], states[i + 1]);
    assert FlightInv(states[i], events[i].caller);
  }

  /** What is applied is what was prepared: if the call that prepared `id` is at `i` and a call holding `id`
      is in flight at `j`, that call applies the plan prepared at `i`. */
  lemma AppliesWhatWasPrepared(states: seq<System>, events: seq<Event>, i: nat, j: nat, caller: nat)
    requires Trace(states, events) && i < |events| && i < j < |states|
    requires events[i].PutCalled? && events[i].result.Ok?
    requires caller in states[j].flights && states[j].flights[caller].id == events[i].result.value
    ensures states[j].flights[caller].plan == events[i].plan
  {
    var e := events[i];
    TraceInv(states, events, i);
    TraceInv(states, events, j);
    assert Next(states[i], e, states[i + 1]);
    PutKeeps(states[i].changes, states[i + 1].changes, e.now, e.plan, e.createdAt, e.random, e.result);
    StableFrom(states, events, i + 1, j, e.result.value);
    assert FlightInv(states[j], caller);
  }
}
