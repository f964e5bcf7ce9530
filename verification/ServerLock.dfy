/** The code of one process: acquiring and closing the two-file leases, and the recovery of claims
    when a server starts. */
module ServerLock {
  import opened Wrappers
  import opened ExecutionLease

  /** The locks the operating system has granted. */
  class Table {
    var locks: set<Lock>

    constructor ()
      ensures locks == {}
    {
      locks := {};
    }
  }

  /** What a call of the operating system meets: the locks of everybody else, and whether the system
      reports a fault. */
  datatype Moment = Moment(others: set<Lock>, fault: bool)

  /** Everybody else follows the rules too: readers share, a writer is alone, and what this owner
      holds stays its own. */
  ghost predicate Possible(m: Moment, owner: Actor, own: set<Lock>) {
    (forall l :: l in m.others ==> l.owner != owner) && Consistent(m.others + own)
  }

  /** One opened lock file. */
  class FileLock {
    const table: Table
    const file: File
    const owner: Actor

    constructor (table: Table, file: File, owner: Actor)
      ensures this.table == table && this.file == file && this.owner == owner
    {
      this.table, this.file, this.owner := table, file, owner;
    }

    /** One attempt; a waiting one is retried until the lock is granted or its context ends, and then
        reports an error. */
    method TryLock(mode: Mode, waits: bool, m: Moment) returns (locked: bool, failed: bool)
      requires Possible(m, owner, OwnedBy(table.locks, owner))
      modifies table
      ensures locked <==> !m.fault && Grantable(m.others, file, mode)
      ensures failed <==> m.fault || (waits && !locked)
      ensures table.locks == m.others + OwnedBy(old(table.locks), owner) + if locked then {Lock(file, owner, mode)} else {}
    {
      table.locks := m.others + OwnedBy(table.locks, owner);
      locked := !m.fault && Grantable(m.others, file, mode);
      failed := m.fault || (waits && !locked);
      if locked {
        table.locks := table.locks + {Lock(file, owner, mode)};
      }
    }

    /** Releases whatever this owner has on the file, unless the system reports a fault. */
    method Unlock(fault: bool) returns (failed: bool)
      modifies table
      ensures failed == fault
      ensures table.locks == if fault then old(table.locks) else set l | l in old(table.locks) && (l.file != file || l.owner != owner)
    {
      if !fault {
        table.locks := set l | l in table.locks && (l.file != file || l.owner != owner);
      }
      failed := fault;
    }
  }

  /** Which of the two unlocks the system refuses. */
  datatype Faults = Faults(compatibility: bool, primary: bool)

  const NO_FAULTS := Faults(false, false)

  /** A lease on the primary file, and once acquired in full on the compatibility file too. */
  class Lease {
    const primary: FileLock
    var compatibility: FileLock?
    var closeErr: bool
    var closed: bool

    constructor (primary: FileLock)
      ensures this.primary == primary && compatibility == null && !closeErr && !closed
    {
      this.primary, compatibility, closeErr, closed := primary, null, false, false;
    }

    ghost predicate Valid()
      reads this
    {
      compatibility != null ==> compatibility.table == primary.table && compatibility.owner == primary.owner
    }

    /** Closing gives back this owner's lock on each file it has, unless the system refuses. */
    predicate Releases(faults: Faults, l: Lock)
      reads this
    {
      && l.owner == primary.owner
      && ((compatibility != null && l.file == compatibility.file && !faults.compatibility) || (l.file == primary.file && !faults.primary))
    }

    /** Only the first call does anything; later ones report its error again. */
    method Close(faults: Faults) returns (failed: bool)
      requires Valid()
      modifies this, primary.table
      ensures Valid() && closed && failed == closeErr && compatibility == old(compatibility)
      ensures old(closed) ==> primary.table.locks == old(primary.table.locks) && closeErr == old(closeErr)
      ensures !old(closed) ==> (closeErr <==> (compatibility != null && faults.compatibility) || faults.primary)
      ensures !old(closed) ==> primary.table.locks == set l | l in old(primary.table.locks) && !Releases(faults, l)
    {
      if !closed {
        var first := false;
        if compatibility != null {
          first := compatibility.Unlock(faults.compatibility);
        }
        var second := primary.Unlock(faults.primary);
        closeErr := first || second;
        closed := true;
      }
      failed := closeErr;
    }
  }

  datatype Paths = Paths(primary: File, compatibility: File)

  /** The full lease of one owner: both files, in one mode. */
  function FullLease(paths: Paths, owner: Actor, mode: Mode): set<Lock> {
    {Lock(paths.primary, owner, mode), Lock(paths.compatibility, owner, mode)}
  }

  ghost predicate GetsBoth(paths: Paths, mode: Mode, first: Moment, second: Moment) {
    && !first.fault && Grantable(first.others, paths.primary, mode)
    && !second.fault && Grantable(second.others, paths.compatibility, mode)
  }

  /** What the two calls meet is possible for an owner that holds nothing before the first. */
  ghost predicate PossibleRun(paths: Paths, owner: Actor, mode: Mode, first: Moment, second: Moment) {
    && paths.primary != paths.compatibility
    && Possible(first, owner, {})
    && Possible(second, owner, {Lock(paths.primary, owner, mode)})
  }

  datatype Attempted = Acquired | Busy | Failed

  /** The primary file first, then the compatibility file; when the second is not granted the first is
      given back. `waits` distinguishes the blocking calls from the single try. */
  method AcquireBoth(table: Table, paths: Paths, owner: Actor, mode: Mode, waits: bool, first: Moment, second: Moment, unlockFault: bool)
    returns (r: Attempted, lease: Lease?)
    requires OwnedBy(table.locks, owner) == {} && PossibleRun(paths, owner, mode, first, second)
    modifies table
    ensures r == Acquired <==> GetsBoth(paths, mode, first, second)
    ensures r == Failed <==> !GetsBoth(paths, mode, first, second) && (waits || first.fault || (Grantable(first.others, paths.primary, mode) && second.fault))
    ensures r == Acquired <==> lease != null
    ensures r == Acquired ==> table.locks == second.others + FullLease(paths, owner, mode)
    ensures r == Acquired ==> fresh(lease) && lease.Valid() && !lease.closed && lease.primary.table == table && lease.primary.owner == owner
    ensures r == Acquired ==> lease.primary.file == paths.primary && lease.compatibility != null && lease.compatibility.file == paths.compatibility
    ensures r != Acquired && !unlockFault ==> OwnedBy(table.locks, owner) == {}
  {
    lease := null;
    var primary := new FileLock(table, paths.primary, owner);
    var locked, failed := primary.TryLock(mode, waits, first);
    if failed || !locked {
      r := if failed then Failed else Busy;
      return;
    }
    assert OwnedBy(table.locks, owner) == {Lock(paths.primary, owner, mode)};
    var held := new Lease(primary);
    var compatibility := new FileLock(table, paths.compatibility, owner);
    locked, failed := compatibility.TryLock(mode, waits, second);
    if failed || !locked {
      assert OwnedBy(table.locks, owner) == {Lock(paths.primary, owner, mode)};
      var _ := held.Close(Faults(false, unlockFault));
      r := if failed then Failed else Busy;
      return;
    }
    held.compatibility := compatibility;
    r, lease := Acquired, held;
  }

  /** A server's own lease: a single try at both files, and then a look for an older server that is
      alive without holding them. */
  method AcquireServerLease(table: Table, paths: Paths, owner: Actor, first: Moment, second: Moment, olderServer: bool, unlockFault: bool)
    returns (r: Attempted, lease: Lease?)
    requires OwnedBy(table.locks, owner) == {} && PossibleRun(paths, owner, Exclusive, first, second)
    modifies table
    ensures r == Acquired <==> GetsBoth(paths, Exclusive, first, second) && !olderServer
    ensures r == Acquired <==> lease != null
    ensures r == Acquired ==> table.locks == second.others + FullLease(paths, owner, Exclusive)
    ensures r != Acquired && !unlockFault ==> OwnedBy(table.locks, owner) == {}
  {
    r, lease := AcquireBoth(table, paths, owner, Exclusive, false, first, second, unlockFault);
    if r == Acquired && olderServer {
      var _ := lease.Close(Faults(unlockFault, unlockFault));
      r, lease := Busy, null;
    }
  }

  /** Holding the whole lease exclusively means that nobody else has a lock on either file. */
  lemma ExclusiveLeaseIsAlone(paths: Paths, owner: Actor, first: Moment, second: Moment, l: Lock)
    requires PossibleRun(paths, owner, Exclusive, first, second) && GetsBoth(paths, Exclusive, first, second)
    requires l in second.others
    ensures l.file != paths.primary && l.file != paths.compatibility
  {
    var own := Lock(paths.primary, owner, Exclusive);
    assert own in second.others + {own} && l in second.others + {own};
    assert Fits(l, paths.compatibility, Exclusive);
  }

  class Claims {
    var claims: map<nat, Claim>

    constructor ()
      ensures claims == map[]
    {
      claims := map[];
    }

    method MarkActiveDirty(fault: bool) returns (failed: bool)
      modifies this
      ensures failed == fault
      ensures claims == if fault then old(claims) else AllDirty(old(claims))
    {
      if !fault {
        claims := AllDirty(claims);
      }
      failed := fault;
    }
  }

  function AllDirty(claims: map<nat, Claim>): map<nat, Claim> {
    map c | c in claims :: if claims[c].status == Active then claims[c].(status := Dirty) else claims[c]
  }

  /** Nobody else has a lock on the file. */
  ghost predicate Unlocked(m: Moment, file: File) {
    forall l :: l in m.others ==> l.file != file
  }

  /** The recovery at startup. A server that holds the server lease waits for running executions; an
      embedded process tries once and leaves the claims to whoever is running. */
  method RecoverClaims(table: Table, claims: Claims, paths: Paths, owner: Actor, hasServerLease: bool,
                       first: Moment, second: Moment, markFault: bool, faults: Faults) returns (failed: bool)
    requires OwnedBy(table.locks, owner) == {} && PossibleRun(paths, owner, Exclusive, first, second)
    modifies table, claims
    ensures claims.claims.Keys == old(claims.claims).Keys
    ensures GetsBoth(paths, Exclusive, first, second) && !markFault ==> forall c :: c in claims.claims ==>
              claims.claims[c] == Claim(old(claims.claims)[c].owner, if old(claims.claims)[c].status == Active then Dirty else old(claims.claims)[c].status)
    ensures !GetsBoth(paths, Exclusive, first, second) || markFault ==> claims.claims == old(claims.claims)
    ensures GetsBoth(paths, Exclusive, first, second) ==> (failed <==> markFault || faults != NO_FAULTS)
    ensures !GetsBoth(paths, Exclusive, first, second) ==>
              (failed <==> hasServerLease || first.fault || (Unlocked(first, paths.primary) && second.fault))
    ensures !hasServerLease && !first.fault && !Unlocked(first, paths.primary) ==> !failed && claims.claims == old(claims.claims)
    ensures faults == NO_FAULTS ==> OwnedBy(table.locks, owner) == {}
  {
    var r, lease := AcquireBoth(table, paths, owner, Exclusive, hasServerLease, first, second, faults.primary);
    if r == Failed {
      return true;
    }
    if r == Busy {
      return false;
    }
    assert OwnedBy(table.locks, owner) == FullLease(paths, owner, Exclusive);
    var marking := claims.MarkActiveDirty(markFault);
    var releasing := lease.Close(faults);
    failed := marking || releasing;
  }
}
