/** The two-file reader/writer lease that protects claim recovery from live executions: the
    protocol over all interleavings of processes, and the code of one acquirer. */
module ExecutionLease {
  import opened Wrappers

  type Path = string

  /** The two kinds of lock file never share a name. A path stands for the file it named when the
      attempt opened it, so a file that was removed and created again is another file. */
  datatype File = Primary(path: Path) | Compatibility(path: Path)

  datatype Mode = Shared | Exclusive

  /** One attempt to acquire; every attempt opens both files anew and so is a holder of its own. */
  type Actor = nat

  datatype Lock = Lock(file: File, owner: Actor, mode: Mode)

  // ----- What the operating system grants -----

  predicate Fits(l: Lock, file: File, mode: Mode) {
    l.file == file ==> l.mode == Shared && mode == Shared
  }

  predicate Grantable(locks: set<Lock>, file: File, mode: Mode) {
    forall l :: l in locks ==> Fits(l, file, mode)
  }

  /** Readers share a file; a writer has it alone. */
  ghost predicate Consistent(locks: set<Lock>) {
    forall l, k :: l in locks && k in locks && l.file == k.file && l.owner != k.owner ==> l.mode == Shared && k.mode == Shared
  }

  function OwnedBy(locks: set<Lock>, owner: Actor): set<Lock> {
    set l | l in locks && l.owner == owner
  }

  // ----- The protocol -----

  /** `acquired` says whether the attempt had both locks before it began to release. */
  datatype Stage = AtPrimary | AtCompatibility | Held | Unwinding(acquired: bool) | Over(acquired: bool) | Crashed

  /** `kept` are the files that the system has refused to unlock. */
  datatype Attempt = Attempt(primary: Path, compatibility: Path, mode: Mode, waits: bool, stage: Stage, kept: set<File>) {
    predicate Asking() {
      stage.AtPrimary? || stage.AtCompatibility?
    }

    predicate HasPrimary() {
      stage.AtCompatibility? || stage.Held? || stage.Unwinding?
    }

    function NextFile(): File {
      if stage.AtPrimary? then Primary(primary) else Compatibility(compatibility)
    }
  }

  /** A claim of an execution on a physical target. */
  datatype ClaimStatus = Active | Settled | Dirty

  datatype Claim = Claim(owner: Actor, status: ClaimStatus)

  datatype State = State(attempts: map<Actor, Attempt>, locks: set<Lock>, claims: map<nat, Claim>)

  datatype Event =
    | Opened(actor: Actor, attempt: Attempt)
    | Granted(actor: Actor)
    | Refused(actor: Actor, fault: bool)
    | CompatibilityUnlocked(actor: Actor, refused: bool)
    | PrimaryUnlocked(actor: Actor, refused: bool)
    | Died(victims: set<Actor>)
    | Claimed(actor: Actor, claim: nat)
    | ClaimEnded(actor: Actor, claim: nat)
    | Recovered(actor: Actor)

  ghost predicate StageIs(s: State, a: Actor, stage: Stage) {
    a in s.attempts && s.attempts[a].stage == stage
  }

  ghost predicate Enabled(s: State, e: Event) {
    match e
    case Opened(a, t) => a !in s.attempts && t.stage == AtPrimary && t.kept == {}
    case Granted(a) =>
      a in s.attempts && s.attempts[a].Asking() && Grantable(s.locks, s.attempts[a].NextFile(), s.attempts[a].mode)
    case Refused(a, fault) =>
      a in s.attempts && s.attempts[a].Asking()
      && (fault || s.attempts[a].waits || !Grantable(s.locks, s.attempts[a].NextFile(), s.attempts[a].mode))
    case CompatibilityUnlocked(a, refused) => StageIs(s, a, Held)
    case PrimaryUnlocked(a, refused) => a in s.attempts && s.attempts[a].stage.Unwinding?
    case Died(victims) => victims <= s.attempts.Keys
    case Claimed(a, c) => StageIs(s, a, Held) && s.attempts[a].mode == Shared && c !in s.claims
    case ClaimEnded(a, c) => StageIs(s, a, Held) && c in s.claims && s.claims[c] == Claim(a, Active)
    case Recovered(a) => StageIs(s, a, Held) && s.attempts[a].mode == Exclusive
  }

  ghost function MovedTo(s: State, a: Actor, stage: Stage): map<Actor, Attempt>
    requires a in s.attempts
  {
    s.attempts[a := s.attempts[a].(stage := stage)]
  }

  /** The attempt goes on to its next stage even when the system refuses to unlock the file, which then stays locked. */
  ghost function Unlocked(s: State, a: Actor, file: File, stage: Stage, refused: bool): State
    requires a in s.attempts
  {
    var t := s.attempts[a];
    if refused then s.(attempts := s.attempts[a := t.(stage := stage, kept := t.kept + {file})])
    else s.(attempts := MovedTo(s, a, stage), locks := s.locks - {Lock(file, a, t.mode)})
  }

  /** A waiting attempt is refused when its context ends, any attempt when the system reports a fault,
      and an attempt that does not wait when the lock is taken. */
  ghost function Apply(s: State, e: Event): State
    requires Enabled(s, e)
  {
    match e
    case Opened(a, t) => s.(attempts := s.attempts[a := t])
    case Granted(a) =>
      var t := s.attempts[a];
      s.(attempts := MovedTo(s, a, if t.stage.AtPrimary? then AtCompatibility else Held),
         locks := s.locks + {Lock(t.NextFile(), a, t.mode)})
    case Refused(a, fault) =>
      s.(attempts := MovedTo(s, a, if s.attempts[a].stage.AtPrimary? then Over(false) else Unwinding(false)))
    case CompatibilityUnlocked(a, refused) => Unlocked(s, a, Compatibility(s.attempts[a].compatibility), Unwinding(true), refused)
    case PrimaryUnlocked(a, refused) => Unlocked(s, a, Primary(s.attempts[a].primary), Over(s.attempts[a].stage.acquired), refused)
    case Died(victims) =>
      s.(attempts := map a | a in s.attempts :: if a in victims then s.attempts[a].(stage := Crashed) else s.attempts[a],
         locks := set l | l in s.locks && l.owner !in victims)
    case Claimed(a, c) => s.(claims := s.claims[c := Claim(a, Active)])
    case ClaimEnded(a, c) => s.(claims := s.claims[c := Claim(a, Settled)])
    case Recovered(a) =>
      s.(claims := map c | c in s.claims :: if s.claims[c].status == Active then s.claims[c].(status := Dirty) else s.claims[c])
  }

  ghost predicate Initial(s: State) {
    s.attempts == map[] && s.locks == {} && s.claims == map[]
  }

  ghost predicate Trace(states: seq<State>, events: seq<Event>) {
    && |states| == |events| + 1 && Initial(states[0])
    && forall i :: 0 <= i < |events| ==> Enabled(states[i], events[i]) && states[i + 1] == Apply(states[i], events[i])
  }

  // ----- Locks and stages agree -----

  ghost predicate LockJustified(s: State, l: Lock) {
    && l.owner in s.attempts
    && var t := s.attempts[l.owner];
       && l.mode == t.mode
       && (|| (l.file == Primary(t.primary) && t.HasPrimary()) || (l.file == Compatibility(t.compatibility) && t.stage.Held?)
           || (l.file in t.kept && !t.stage.Crashed?))
  }

  ghost predicate StageBacked(s: State, a: Actor)
    requires a in s.attempts
  {
    var t := s.attempts[a];
    && (t.HasPrimary() ==> Lock(Primary(t.primary), a, t.mode) in s.locks)
    && (t.stage.Held? ==> Lock(Compatibility(t.compatibility), a, t.mode) in s.locks)
    && (!t.stage.Crashed? ==> forall f :: f in t.kept ==> Lock(f, a, t.mode) in s.locks)
    && KeptBehind(t)
  }

  /** What has been kept are files of the attempt that it is done with. */
  ghost predicate KeptBehind(t: Attempt) {
    && t.kept <= {Primary(t.primary), Compatibility(t.compatibility)}
    && (Primary(t.primary) in t.kept ==> t.stage.Over? || t.stage.Crashed?)
    && (Compatibility(t.compatibility) in t.kept ==> t.stage.Unwinding? || t.stage.Over? || t.stage.Crashed?)
  }

  ghost predicate LockInv(s: State) {
    && Consistent(s.locks)
    && (forall l :: l in s.locks ==> LockJustified(s, l))
    && (forall a :: a in s.attempts ==> StageBacked(s, a))
  }

  lemma ConsistentKept(s: State, e: Event)
    requires LockInv(s) && Enabled(s, e)
    ensures Consistent(Apply(s, e).locks)
  {
    if e.Granted? {
      var t := s.attempts[e.actor];
      forall l | l in s.locks && l.file == t.NextFile()
        ensures l.mode == Shared && t.mode == Shared
      {
        assert Fits(l, t.NextFile(), t.mode);
      }
    }
  }

  lemma JustifiedKept(s: State, e: Event, l: Lock)
    requires LockInv(s) && Enabled(s, e) && l in Apply(s, e).locks
    ensures LockJustified(Apply(s, e), l)
  {
    if l in s.locks {
      assert LockJustified(s, l);
    }
  }

  lemma BackedKept(s: State, e: Event, a: Actor)
    requires LockInv(s) && Enabled(s, e) && a in Apply(s, e).attempts
    ensures StageBacked(Apply(s, e), a)
  {
    if a in s.attempts {
      assert StageBacked(s, a);
      if (e.CompatibilityUnlocked? || e.PrimaryUnlocked?) && e.actor == a {
        OwnUnlockBacked(s, e, a);
      }
    }
  }

  lemma OwnUnlockBacked(s: State, e: Event, a: Actor)
    requires a in s.attempts && StageBacked(s, a) && Enabled(s, e)
    requires (e.CompatibilityUnlocked? || e.PrimaryUnlocked?) && e.actor == a
    ensures a in Apply(s, e).attempts && StageBacked(Apply(s, e), a)
  {
  }

  lemma LockInvKept(s: State, e: Event)
    requires LockInv(s) && Enabled(s, e)
    ensures LockInv(Apply(s, e))
  {
    ConsistentKept(s, e);
    forall l | l in Apply(s, e).locks
      ensures LockJustified(Apply(s, e), l)
    {
      JustifiedKept(s, e, l);
    }
    forall a | a in Apply(s, e).attempts
      ensures StageBacked(Apply(s, e), a)
    {
      BackedKept(s, e, a);
    }
  }

  lemma {:induction false} TraceLockInv(states: seq<State>, events: seq<Event>, i: nat)
    requires Trace(states, events) && i < |states|
    ensures LockInv(states[i])
  {
    if i > 0 {
      TraceLockInv(states, events, i - 1);
      LockInvKept(states[i - 1], events[i - 1]);
    }
  }

  // ----- Exclusion -----

  ghost predicate ShareAFile(t: Attempt, u: Attempt) {
    t.primary == u.primary || t.compatibility == u.compatibility
  }

  /** A full exclusive holder never coexists with another full holder it shares a lock file with. */
  lemma ExclusiveIsAlone(states: seq<State>, events: seq<Event>, i: nat, a: Actor, b: Actor)
    requires Trace(states, events) && i < |states| && a != b
    requires StageIs(states[i], a, Held) && StageIs(states[i], b, Held)
    requires ShareAFile(states[i].attempts[a], states[i].attempts[b])
    ensures states[i].attempts[a].mode == Shared && states[i].attempts[b].mode == Shared
  {
    TraceLockInv(states, events, i);
    HoldersAgree(states[i], a, b);
  }

  lemma HoldersAgree(s: State, a: Actor, b: Actor)
    requires LockInv(s) && a != b && StageIs(s, a, Held) && StageIs(s, b, Held) && ShareAFile(s.attempts[a], s.attempts[b])
    ensures s.attempts[a].mode == Shared && s.attempts[b].mode == Shared
  {
    assert StageBacked(s, a) && StageBacked(s, b);
    var t, u := s.attempts[a], s.attempts[b];
    if t.primary == u.primary {
      var l, k := Lock(Primary(t.primary), a, t.mode), Lock(Primary(u.primary), b, u.mode);
      assert l in s.locks && k in s.locks && l.file == k.file;
    } else {
      var l, k := Lock(Compatibility(t.compatibility), a, t.mode), Lock(Compatibility(u.compatibility), b, u.mode);
      assert l in s.locks && k in s.locks && l.file == k.file;
    }
  }

  /** An attempt that is over, failed or not, holds exactly the files the system refused to unlock, so none if it
      refused none; one that has crashed holds nothing. */
  lemma FinishedHoldsNothing(states: seq<State>, events: seq<Event>, i: nat, a: Actor)
    requires Trace(states, events) && i < |states| && a in states[i].attempts
    ensures var t := states[i].attempts[a]; t.stage.Over? ==> OwnedBy(states[i].locks, a) == set f | f in t.kept :: Lock(f, a, t.mode)
    ensures states[i].attempts[a].stage.Crashed? ==> OwnedBy(states[i].locks, a) == {}
  {
    TraceLockInv(states, events, i);
    var s, t := states[i], states[i].attempts[a];
    assert StageBacked(s, a);
    forall l | l in s.locks && l.owner == a
      ensures l.mode == t.mode && (t.stage.Over? ==> l.file in t.kept) && !t.stage.Crashed?
    {
      assert LockJustified(s, l);
    }
  }

  /** A file whose unlock was refused stays locked until the process dies. */
  lemma KeptStaysLocked(s: State, e: Event, a: Actor, f: File)
    requires LockInv(s) && Enabled(s, e) && a in s.attempts && f in s.attempts[a].kept && !s.attempts[a].stage.Crashed?
    requires e.Died? ==> a !in e.victims
    ensures a in Apply(s, e).attempts && f in Apply(s, e).attempts[a].kept && !Apply(s, e).attempts[a].stage.Crashed?
    ensures Lock(f, a, s.attempts[a].mode) in Apply(s, e).locks
  {
    assert StageBacked(s, a);
  }

  ghost predicate HeldBy(states: seq<State>, i: nat, a: Actor) {
    exists j: nat :: j <= i && j < |states| && StageIs(states[j], a, Held)
  }

  /** What the stage of an attempt tells about its past. */
  ghost predicate StageTells(states: seq<State>, i: nat, a: Actor)
    requires i < |states|
  {
    && (HeldBy(states, i, a) ==> a in states[i].attempts)
    && (a in states[i].attempts ==>
          match states[i].attempts[a].stage
          case AtPrimary => !HeldBy(states, i, a)
          case AtCompatibility => !HeldBy(states, i, a)
          case Held => HeldBy(states, i, a)
          case Unwinding(acquired) => acquired <==> HeldBy(states, i, a)
          case Over(acquired) => acquired <==> HeldBy(states, i, a)
          case Crashed => true)
  }

  lemma {:induction false} StagesTell(states: seq<State>, events: seq<Event>, i: nat, a: Actor)
    requires Trace(states, events) && i < |states|
    ensures StageTells(states, i, a)
  {
    if i > 0 {
      StagesTell(states, events, i - 1, a);
      assert HeldBy(states, i, a) <==> HeldBy(states, i - 1, a) || StageIs(states[i], a, Held);
      StageTellsNext(states[i - 1], events[i - 1], a);
    }
  }

  lemma StageTellsNext(s: State, e: Event, a: Actor)
    requires Enabled(s, e)
    ensures a in s.attempts ==> a in Apply(s, e).attempts
    ensures a in Apply(s, e).attempts && a !in s.attempts ==> Apply(s, e).attempts[a].stage == AtPrimary
    ensures a in s.attempts && !Apply(s, e).attempts[a].stage.Crashed? ==>
              var t, t' := s.attempts[a].stage, Apply(s, e).attempts[a].stage;
              || t' == t || (t.AtPrimary? && (t' == AtCompatibility || t' == Over(false)))
              || (t.AtCompatibility? && (t' == Held || t' == Unwinding(false)))
              || (t.Held? && t' == Unwinding(true)) || (t.Unwinding? && t' == Over(t.acquired))
    ensures a in s.attempts && s.attempts[a].stage.Crashed? ==> Apply(s, e).attempts[a].stage.Crashed?
  {
  }

  /** An attempt that has ended counts as a success if and only if at some moment it had its full lease. */
  lemma AcquiredIffHeld(states: seq<State>, events: seq<Event>, i: nat, a: Actor)
    requires Trace(states, events) && i < |states| && a in states[i].attempts && states[i].attempts[a].stage.Over?
    ensures states[i].attempts[a].stage.acquired <==> exists j: nat :: j <= i && StageIs(states[j], a, Held)
  {
    StagesTell(states, events, i, a);
  }

  // ----- Recovery -----

  /** A reader and a writer share a file; two readers, or two writers, need not. */
  ghost predicate Compatible(t: Attempt, u: Attempt) {
    t.mode == Shared && u.mode == Exclusive ==> ShareAFile(t, u)
  }

  ghost predicate ReadersAndWritersShare(s: State) {
    forall a, b :: a in s.attempts && b in s.attempts ==> Compatible(s.attempts[a], s.attempts[b])
  }

  predicate Ended(stage: Stage) {
    stage == Unwinding(true) || stage == Over(true) || stage == Crashed
  }

  /** A claim belongs to an execution that got the lease, and is dirty only after that one ended. */
  ghost predicate ClaimInv(s: State, c: nat)
    requires c in s.claims
  {
    && s.claims[c].owner in s.attempts
    && var t := s.attempts[s.claims[c].owner];
       && t.mode == Shared
       && (t.stage.Held? || Ended(t.stage))
       && (s.claims[c].status == Dirty ==> Ended(t.stage))
  }

  /** Recovery turns exactly the active claims dirty, and none of them belongs to a live execution. */
  lemma RecoveryIsSafe(s: State, a: Actor)
    requires LockInv(s) && ReadersAndWritersShare(s) && Enabled(s, Recovered(a))
    requires forall c :: c in s.claims ==> ClaimInv(s, c)
    ensures forall c :: c in s.claims && s.claims[c].status == Active ==>
              s.claims[c].owner in s.attempts && Ended(s.attempts[s.claims[c].owner].stage)
    ensures forall c :: c in s.claims ==> c in Apply(s, Recovered(a)).claims && Apply(s, Recovered(a)).claims[c].status != Active
  {
    forall c | c in s.claims && s.claims[c].status == Active
      ensures s.claims[c].owner in s.attempts && Ended(s.attempts[s.claims[c].owner].stage)
    {
      assert ClaimInv(s, c);
      var owner := s.claims[c].owner;
      if s.attempts[owner].stage.Held? {
        assert Compatible(s.attempts[owner], s.attempts[a]);
        HoldersAgree(s, a, owner);
      }
    }
  }

  lemma OneClaimKept(s: State, e: Event, c: nat)
    requires Enabled(s, e) && c in s.claims && ClaimInv(s, c)
    requires e.Recovered? && s.claims[c].status == Active ==> Ended(s.attempts[s.claims[c].owner].stage)
    ensures c in Apply(s, e).claims && ClaimInv(Apply(s, e), c)
  {
  }

  lemma ClaimInvKept(s: State, e: Event)
    requires LockInv(s) && ReadersAndWritersShare(s) && Enabled(s, e)
    requires forall c :: c in s.claims ==> ClaimInv(s, c)
    ensures forall c :: c in Apply(s, e).claims ==> ClaimInv(Apply(s, e), c)
  {
    if e.Recovered? {
      RecoveryIsSafe(s, e.actor);
    }
    forall c | c in Apply(s, e).claims
      ensures ClaimInv(Apply(s, e), c)
    {
      if c in s.claims {
        OneClaimKept(s, e, c);
      }
    }
  }

  /** Attempts are never forgotten and never change their files. */
  lemma ShareEarlier(s: State, e: Event)
    requires Enabled(s, e) && ReadersAndWritersShare(Apply(s, e))
    ensures ReadersAndWritersShare(s)
  {
    var s' := Apply(s, e);
    forall a, b | a in s.attempts && b in s.attempts
      ensures Compatible(s.attempts[a], s.attempts[b])
    {
      assert a in s'.attempts && b in s'.attempts && Compatible(s'.attempts[a], s'.attempts[b]);
    }
  }

  lemma {:induction false} TraceClaimInv(states: seq<State>, events: seq<Event>, i: nat)
    requires Trace(states, events) && i < |states| && ReadersAndWritersShare(states[i])
    ensures forall c :: c in states[i].claims ==> ClaimInv(states[i], c)
  {
    if i > 0 {
      ShareEarlier(states[i - 1], events[i - 1]);
      TraceLockInv(states, events, i - 1);
      TraceClaimInv(states, events, i - 1);
      ClaimInvKept(states[i - 1], events[i - 1]);
    }
  }

  /** In every interleaving, while every recovery shares a file with every execution: a claim of an
      execution that still holds the lease is not dirty. */
  lemma LiveClaimsAreNotDirty(states: seq<State>, events: seq<Event>, i: nat, c: nat)
    requires Trace(states, events) && i < |states| && ReadersAndWritersShare(states[i]) && c in states[i].claims
    requires StageIs(states[i], states[i].claims[c].owner, Held)
    ensures states[i].claims[c].status != Dirty
  {
    TraceClaimInv(states, events, i);
    assert ClaimInv(states[i], c);
  }

  /** A run given by its events alone. */
  ghost predicate Runs(s: State, events: seq<Event>, end: State)
    decreases |events|
  {
    if events == [] then end == s
    else Enabled(s, events[0]) && Runs(Apply(s, events[0]), events[1..], end)
  }

  /** Sharing a file is needed: an execution and a recovery that share none, say because the
      compatibility file was removed and the runtime directories differ, can hold their leases
      together, and the recovery then marks a live claim dirty. */
  lemma WithoutASharedFileRecoveryIsUnsafe(t: Attempt, u: Attempt) returns (events: seq<Event>, end: State)
    requires t.mode == Shared && u.mode == Exclusive && t.stage == AtPrimary && u.stage == AtPrimary && !ShareAFile(t, u)
    requires t.kept == {} && u.kept == {}
    ensures Runs(State(map[], {}, map[]), events, end) && StageIs(end, 0, Held) && StageIs(end, 1, Held)
    ensures 0 in end.claims && end.claims[0] == Claim(0, Dirty)
    ensures OpensOnly(events, iset{t, u})
  {
    var s0 := State(map[], {}, map[]);
    var claimed, s2 := ExecutionClaims(t);
    var s3 := HasTheLease(s2, 1, u);
    RunsOn(s0, claimed, s2, [Opened(1, u), Granted(1), Granted(1)], s3);
    events := claimed + [Opened(1, u), Granted(1), Granted(1)];
    end := Then(s0, events, s3, Recovered(1));
    events := events + [Recovered(1)];
  }

  lemma ExecutionClaims(t: Attempt) returns (events: seq<Event>, end: State)
    requires t.mode == Shared && t.stage == AtPrimary && t.kept == {}
    ensures events == [Opened(0, t), Granted(0), Granted(0), Claimed(0, 0)] && Runs(State(map[], {}, map[]), events, end)
    ensures end == State(map[0 := t.(stage := Held)], {Lock(Primary(t.primary), 0, Shared), Lock(Compatibility(t.compatibility), 0, Shared)},
                         map[0 := Claim(0, Active)])
  {
    var s0 := State(map[], {}, map[]);
    var held := HasTheLease(s0, 0, t);
    end := Then(s0, [Opened(0, t), Granted(0), Granted(0)], held, Claimed(0, 0));
    events := [Opened(0, t), Granted(0), Granted(0), Claimed(0, 0)];
    assert events == [Opened(0, t), Granted(0), Granted(0)] + [Claimed(0, 0)];
  }

  /** Every attempt of the run is one of `kinds` when it begins. */
  ghost predicate OpensOnly(events: seq<Event>, kinds: iset<Attempt>) {
    forall e :: e in events && e.Opened? ==> e.attempt in kinds
  }

  ghost predicate LiveClaimsClean(s: State) {
    forall c :: c in s.claims && StageIs(s, s.claims[c].owner, Held) ==> s.claims[c].status != Dirty
  }

  ghost predicate AlwaysSafe(kinds: iset<Attempt>) {
    forall events, end :: Runs(State(map[], {}, map[]), events, end) && OpensOnly(events, kinds) ==> LiveClaimsClean(end)
  }

  ghost predicate IsKind(s: State, kinds: iset<Attempt>, a: Actor)
    requires a in s.attempts
  {
    s.attempts[a].(stage := AtPrimary, kept := {}) in kinds
  }

  /** What holds all along a run of such attempts. */
  ghost predicate RunInv(s: State, kinds: iset<Attempt>) {
    && LockInv(s)
    && (forall a :: a in s.attempts ==> IsKind(s, kinds, a))
    && (forall c :: c in s.claims ==> ClaimInv(s, c))
  }

  lemma KindsKept(s: State, e: Event, kinds: iset<Attempt>)
    requires Enabled(s, e) && (e.Opened? ==> e.attempt in kinds)
    requires forall a :: a in s.attempts ==> IsKind(s, kinds, a)
    ensures forall a :: a in Apply(s, e).attempts ==> IsKind(Apply(s, e), kinds, a)
  {
    forall a | a in Apply(s, e).attempts
      ensures IsKind(Apply(s, e), kinds, a)
    {
      if a in s.attempts {
        assert IsKind(s, kinds, a);
      } else {
        assert e.attempt.(stage := AtPrimary, kept := {}) == e.attempt;
      }
    }
  }

  lemma KindsShare(s: State, kinds: iset<Attempt>)
    requires forall a :: a in s.attempts ==> IsKind(s, kinds, a)
    requires forall t, u :: t in kinds && u in kinds ==> Compatible(t, u)
    ensures ReadersAndWritersShare(s)
  {
    forall a, b | a in s.attempts && b in s.attempts
      ensures Compatible(s.attempts[a], s.attempts[b])
    {
      assert IsKind(s, kinds, a) && IsKind(s, kinds, b);
      assert Compatible(s.attempts[a].(stage := AtPrimary, kept := {}), s.attempts[b].(stage := AtPrimary, kept := {}));
    }
  }

  lemma {:induction false} RunInvKept(s: State, events: seq<Event>, end: State, kinds: iset<Attempt>)
    requires Runs(s, events, end) && OpensOnly(events, kinds) && RunInv(s, kinds)
    requires forall t, u :: t in kinds && u in kinds ==> Compatible(t, u)
    ensures RunInv(end, kinds)
    decreases |events|
  {
    if events != [] {
      KindsShare(s, kinds);
      LockInvKept(s, events[0]);
      KindsKept(s, events[0], kinds);
      ClaimInvKept(s, events[0]);
      assert forall e :: e in events[1..] ==> e in events;
      RunInvKept(Apply(s, events[0]), events[1..], end, kinds);
    }
  }

  /** Exactly when recovery is safe: no run of attempts of these kinds marks the claim of a live execution
      dirty if and only if every kind of recovery shares a file with every kind of execution. */
  lemma SafeIffShared(kinds: iset<Attempt>)
    requires forall t :: t in kinds ==> t.stage == AtPrimary && t.kept == {}
    ensures AlwaysSafe(kinds) <==> forall t, u :: t in kinds && u in kinds ==> Compatible(t, u)
  {
    var empty := State(map[], {}, map[]);
    if t, u :| t in kinds && u in kinds && !Compatible(t, u) {
      var events, end := WithoutASharedFileRecoveryIsUnsafe(t, u);
      assert OpensOnly(events, kinds);
      assert !LiveClaimsClean(end);
    } else {
      assert RunInv(empty, kinds);
      forall events, end | Runs(empty, events, end) && OpensOnly(events, kinds)
        ensures LiveClaimsClean(end)
      {
        RunInvKept(empty, events, end, kinds);
        forall c | c in end.claims && StageIs(end, end.claims[c].owner, Held)
          ensures end.claims[c].status != Dirty
        {
          assert ClaimInv(end, c);
        }
      }
    }
  }

  lemma Then(s: State, events: seq<Event>, middle: State, e: Event) returns (end: State)
    requires Runs(s, events, middle) && Enabled(middle, e)
    ensures end == Apply(middle, e) && Runs(s, events + [e], end)
  {
    end := Apply(middle, e);
    assert Runs(middle, [e], end);
    RunsOn(s, events, middle, [e], end);
  }

  /** A new attempt nobody stands in the way of gets both locks at once. */
  lemma HasTheLease(s: State, a: Actor, t: Attempt) returns (end: State)
    requires a !in s.attempts && t.stage == AtPrimary && t.kept == {}
    requires Grantable(s.locks, Primary(t.primary), t.mode) && Grantable(s.locks, Compatibility(t.compatibility), t.mode)
    ensures Runs(s, [Opened(a, t), Granted(a), Granted(a)], end)
    ensures end == s.(attempts := s.attempts[a := t.(stage := Held)],
                      locks := s.locks + {Lock(Primary(t.primary), a, t.mode), Lock(Compatibility(t.compatibility), a, t.mode)})
  {
    var asked := Apply(s, Opened(a, t));
    var half := Apply(asked, Granted(a));
    end := Apply(half, Granted(a));
    assert Runs(half, [Granted(a)], end);
    assert Runs(asked, [Granted(a)], half);
    assert Runs(s, [Opened(a, t)], asked);
    RunsOn(asked, [Granted(a)], half, [Granted(a)], end);
    RunsOn(s, [Opened(a, t)], asked, [Granted(a)] + [Granted(a)], end);
    assert [Opened(a, t)] + ([Granted(a)] + [Granted(a)]) == [Opened(a, t), Granted(a), Granted(a)];
  }

  lemma {:induction false} RunsOn(s: State, events: seq<Event>, middle: State, more: seq<Event>, end: State)
    requires Runs(s, events, middle) && Runs(middle, more, end)
    ensures Runs(s, events + more, end)
    decreases |events|
  {
    if events == [] {
      assert events + more == more;
    } else {
      RunsOn(Apply(s, events[0]), events[1..], middle, more, end);
      assert (events + more)[1..] == events[1..] + more;
    }
  }

  // ----- No deadlock -----

  function Rank(stage: Stage): nat {
    match stage
    case AtPrimary => 0
    case AtCompatibility => 1
    case Held => 2
    case Unwinding(_) => 3
    case Over(_) => 4
    case Crashed => 4
  }

  /** `a` asks for a file on which `b` has a lock that does not fit. */
  ghost predicate WaitsFor(s: State, a: Actor, b: Actor) {
    && a in s.attempts && s.attempts[a].Asking()
    && exists l :: l in s.locks && l.owner == b && !Fits(l, s.attempts[a].NextFile(), s.attempts[a].mode)
  }

  /** The system has refused no unlock so far, or the process is gone. */
  ghost predicate NothingKept(s: State) {
    forall a :: a in s.attempts ==> s.attempts[a].kept == {} || s.attempts[a].stage.Crashed?
  }

  /** Whoever is waited for is further along, so waiting is never circular, unless the system has refused it an unlock. */
  lemma WaitingGoesForward(s: State, a: Actor, b: Actor)
    requires LockInv(s) && WaitsFor(s, a, b)
    ensures b in s.attempts && Rank(s.attempts[a].stage) < Rank(s.attempts[b].stage)
    ensures s.attempts[b].kept == {} ==> Rank(s.attempts[b].stage) < 4
  {
    var l :| l in s.locks && l.owner == b && !Fits(l, s.attempts[a].NextFile(), s.attempts[a].mode);
    assert LockJustified(s, l) && StageBacked(s, b);
  }

  predicate Unfinished(t: Attempt) {
    Rank(t.stage) < 4
  }

  /** The steps each attempt still has before it. */
  ghost function Pending(s: State): set<(Actor, nat)> {
    set a, k: nat | a in s.attempts && Rank(s.attempts[a].stage) <= k < 4 :: (a, k)
  }

  /** An unfinished attempt that is as far along as any can take its next step. */
  lemma FurthestCanMove(s: State, a: Actor) returns (e: Event)
    requires LockInv(s) && NothingKept(s) && a in s.attempts && Unfinished(s.attempts[a])
    requires forall b :: b in s.attempts && Unfinished(s.attempts[b]) ==> Rank(s.attempts[b].stage) <= Rank(s.attempts[a].stage)
    ensures Enabled(s, e) && Moves(e) && e.actor == a
    ensures Pending(Apply(s, e)) < Pending(s)
  {
    var t := s.attempts[a];
    if t.Asking() {
      e := Granted(a);
      forall l | l in s.locks
        ensures Fits(l, t.NextFile(), t.mode)
      {
        if !Fits(l, t.NextFile(), t.mode) {
          WaitingGoesForward(s, a, l.owner);
        }
      }
    } else if t.stage.Held? {
      e := CompatibilityUnlocked(a, false);
    } else {
      e := PrimaryUnlocked(a, false);
    }
    MoveShrinks(s, e, a);
  }

  /** Granting a lock, or releasing one. */
  predicate Moves(e: Event) {
    e.Granted? || (e.CompatibilityUnlocked? && !e.refused) || (e.PrimaryUnlocked? && !e.refused)
  }

  lemma MoveKeepsNothing(s: State, e: Event)
    requires NothingKept(s) && Enabled(s, e) && Moves(e)
    ensures NothingKept(Apply(s, e))
  {
  }

  lemma MoveShrinks(s: State, e: Event, a: Actor)
    requires Enabled(s, e) && Moves(e) && e.actor == a
    ensures Pending(Apply(s, e)) < Pending(s)
  {
    var k := Rank(s.attempts[a].stage);
    assert (a, k) in Pending(s) && (a, k) !in Pending(Apply(s, e));
    assert Pending(Apply(s, e)) <= Pending(s);
  }

  lemma {:induction false} Furthest(s: State, todo: set<Actor>) returns (a: Actor)
    requires todo != {} && forall b :: b in todo ==> b in s.attempts
    ensures a in todo && forall b :: b in todo ==> Rank(s.attempts[b].stage) <= Rank(s.attempts[a].stage)
    decreases todo
  {
    a :| a in todo;
    if todo != {a} {
      var other := Furthest(s, todo - {a});
      if Rank(s.attempts[a].stage) < Rank(s.attempts[other].stage) {
        a := other;
      }
    }
  }

  /** `s` goes to `end` by granting and releasing only. */
  ghost predicate Leads(s: State, events: seq<Event>, end: State)
    decreases |events|
  {
    if events == [] then end == s
    else Moves(events[0]) && Enabled(s, events[0]) && Leads(Apply(s, events[0]), events[1..], end)
  }

  /** On the way to the lease, holding it, or giving it back. */
  predicate Succeeding(stage: Stage) {
    stage != Unwinding(false) && stage != Over(false) && stage != Crashed
  }

  /** Granting and releasing forget no attempt and make none fail. */
  lemma {:induction false} MovesMakeNoneFail(s: State, events: seq<Event>, end: State, a: Actor)
    requires Leads(s, events, end) && a in s.attempts
    ensures a in end.attempts && (Succeeding(s.attempts[a].stage) ==> Succeeding(end.attempts[a].stage))
    decreases |events|
  {
    if events != [] {
      MovesMakeNoneFail(Apply(s, events[0]), events[1..], end, a);
    }
  }

  lemma NobodyLeft(s: State)
    requires LockInv(s) && NothingKept(s) && forall a :: a in s.attempts ==> !Unfinished(s.attempts[a])
    ensures s.locks == {}
  {
    forall l
      ensures l !in s.locks
    {
    }
  }

  lemma {:induction false} CanDrain(s: State) returns (events: seq<Event>, end: State)
    requires LockInv(s) && NothingKept(s)
    ensures Leads(s, events, end) && end.locks == {}
    ensures forall a :: a in end.attempts ==> !Unfinished(end.attempts[a])
    decreases Pending(s)
  {
    var unfinished := set a | a in s.attempts && Unfinished(s.attempts[a]);
    if unfinished == {} {
      events, end := [], s;
      forall a | a in s.attempts
        ensures !Unfinished(s.attempts[a])
      {
        assert a !in unfinished;
      }
      NobodyLeft(s);
    } else {
      var a := Furthest(s, unfinished);
      var e := FurthestCanMove(s, a);
      LockInvKept(s, e);
      MoveKeepsNothing(s, e);
      var rest;
      rest, end := CanDrain(Apply(s, e));
      events := [e] + rest;
      assert events[1..] == rest;
    }
  }

  /** Each grant or release is one step fewer to come. */
  lemma {:induction false} MovesAreBounded(s: State, events: seq<Event>, end: State)
    requires LockInv(s) && NothingKept(s) && Leads(s, events, end)
    ensures LockInv(end) && NothingKept(end) && |events| + |Pending(end)| <= |Pending(s)|
    decreases |events|
  {
    if events != [] {
      var next := Apply(s, events[0]);
      LockInvKept(s, events[0]);
      MoveKeepsNothing(s, events[0]);
      MoveShrinks(s, events[0], events[0].actor);
      MovesAreBounded(next, events[1..], end);
      Fewer(Pending(next), Pending(s));
    }
  }

  /** No lock can be granted and none released. */
  ghost predicate Stuck(s: State) {
    forall e :: Moves(e) ==> !Enabled(s, e)
  }

  lemma StuckIsDone(s: State)
    requires LockInv(s) && NothingKept(s)
    ensures Stuck(s) <==> forall a :: a in s.attempts ==> !Unfinished(s.attempts[a])
    ensures Stuck(s) ==> s.locks == {}
  {
    var unfinished := set a | a in s.attempts && Unfinished(s.attempts[a]);
    if unfinished == {} {
      forall a | a in s.attempts
        ensures !Unfinished(s.attempts[a])
      {
        assert a !in unfinished;
      }
      NobodyLeft(s);
    } else {
      var a := Furthest(s, unfinished);
      var e := FurthestCanMove(s, a);
    }
  }

  function FourEach(actors: set<Actor>): (steps: set<(Actor, nat)>) {
    set a, k: nat | a in actors && k < 4 :: (a, k)
  }

  lemma {:induction false} FourEachSize(actors: set<Actor>)
    ensures |FourEach(actors)| == 4 * |actors|
    decreases actors
  {
    if actors != {} {
      var a :| a in actors;
      FourEachSize(actors - {a});
      assert FourEach(actors) == FourEach(actors - {a}) + {(a, 0), (a, 1), (a, 2), (a, 3)};
    } else {
      assert FourEach(actors) == {};
    }
  }

  lemma AtMostFourEach(s: State)
    ensures |Pending(s)| <= 4 * |s.attempts|
  {
    Fewer(Pending(s), FourEach(s.attempts.Keys));
    FourEachSize(s.attempts.Keys);
    assert |s.attempts.Keys| == |s.attempts|;
  }

  /** A file that could not be unlocked blocks whoever asks for it in a mode that does not fit: however locks are granted
      and released, such an attempt does not get on. */
  lemma {:induction false} KeptBlocks(s: State, events: seq<Event>, end: State, a: Actor, b: Actor)
    requires LockInv(s) && Leads(s, events, end) && a != b && a in s.attempts && b in s.attempts
    requires s.attempts[a].Asking() && s.attempts[a].NextFile() in s.attempts[b].kept && !s.attempts[b].stage.Crashed?
    requires s.attempts[a].mode == Exclusive || s.attempts[b].mode == Exclusive
    ensures a in end.attempts && end.attempts[a] == s.attempts[a]
    decreases |events|
  {
    if events != [] {
      KeptStaysLocked(s, events[0], b, s.attempts[a].NextFile());
      NotGranted(s, events[0], a, b);
      LockInvKept(s, events[0]);
      KeptBlocks(Apply(s, events[0]), events[1..], end, a, b);
    }
  }

  lemma NotGranted(s: State, e: Event, a: Actor, b: Actor)
    requires LockInv(s) && Enabled(s, e) && Moves(e) && a != b && a in s.attempts && b in s.attempts
    requires s.attempts[a].Asking() && s.attempts[a].NextFile() in s.attempts[b].kept && !s.attempts[b].stage.Crashed?
    requires s.attempts[a].mode == Exclusive || s.attempts[b].mode == Exclusive
    ensures a in Apply(s, e).attempts && Apply(s, e).attempts[a] == s.attempts[a]
    ensures b in Apply(s, e).attempts && Apply(s, e).attempts[b].mode == s.attempts[b].mode
  {
    assert StageBacked(s, b);
    var l := Lock(s.attempts[a].NextFile(), b, s.attempts[b].mode);
    assert l in s.locks && !Fits(l, s.attempts[a].NextFile(), s.attempts[a].mode);
  }

  /** While no unlock has been refused, deadlock never happens, whatever the schedule: from every reachable state at
      most four grants and releases per attempt can follow, in any order; and when none is possible any more, no lock is
      left, every attempt has ended, and every attempt that was asking has had its full lease. */
  lemma EveryScheduleDrains(states: seq<State>, events: seq<Event>, i: nat, rest: seq<Event>, end: State)
    requires Trace(states, events) && i < |states| && NothingKept(states[i]) && Leads(states[i], rest, end)
    ensures |rest| <= 4 * |states[i].attempts|
    ensures Stuck(end) <==> forall a :: a in end.attempts ==> !Unfinished(end.attempts[a])
    ensures Stuck(end) ==> end.locks == {}
    ensures Stuck(end) ==> forall a :: a in states[i].attempts && states[i].attempts[a].Asking() ==> a in end.attempts && end.attempts[a].stage == Over(true)
  {
    var s := states[i];
    TraceLockInv(states, events, i);
    MovesAreBounded(s, rest, end);
    StuckIsDone(end);
    AtMostFourEach(s);
    forall a | a in s.attempts && s.attempts[a].Asking()
      ensures a in end.attempts && (Stuck(end) ==> end.attempts[a].stage == Over(true))
    {
      MovesMakeNoneFail(s, rest, end, a);
    }
  }

  /** Such a schedule exists from every reachable state: there is a way to go on, by granting and
      releasing locks only, after which no lock is left, every attempt has ended, and every attempt
      that was asking has had its full lease. */
  lemma NeverDeadlocked(states: seq<State>, events: seq<Event>, i: nat) returns (rest: seq<Event>, end: State)
    requires Trace(states, events) && i < |states| && NothingKept(states[i])
    ensures Leads(states[i], rest, end) && end.locks == {}
    ensures forall a :: a in states[i].attempts ==> a in end.attempts && !Unfinished(end.attempts[a])
    ensures forall a :: a in states[i].attempts && states[i].attempts[a].Asking() ==> a in end.attempts && end.attempts[a].stage == Over(true)
  {
    TraceLockInv(states, events, i);
    rest, end := CanDrain(states[i]);
    forall a | a in states[i].attempts
      ensures a in end.attempts && (Succeeding(states[i].attempts[a].stage) ==> Succeeding(end.attempts[a].stage))
    {
      MovesMakeNoneFail(states[i], rest, end, a);
    }
  }
}
