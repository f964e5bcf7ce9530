/** Background notebook runs: a bounded store of run records, updated under one lock by callers
    and by one executing goroutine per run. */
module RunStore {
  import opened Wrappers

  type Id = string

  datatype Status = Queued | Running | Cancelling | Cancelled | Failed | Succeeded

  /** What the store remembers about a run; `cancellable` says that it can still call the run's
      cancel function. */
  datatype Record = Record(status: Status, finishedAt: Option<int>, cancellable: bool) {
    predicate Finished() {
      finishedAt.Some?
    }

    predicate Terminal() {
      status == Cancelled || status == Failed || status == Succeeded
    }
  }

  type Records = map<Id, Record>

  const MAX_REMEMBERED := 64
  const RETENTION := 2 * 60 * 60 * 1_000_000_000

  // ----- What each locked region does to the records -----

  predicate Expired(r: Record, now: int) {
    r.finishedAt.Some? && r.finishedAt.value < now - RETENTION
  }

  ghost function Swept(runs: Records, now: int): Records {
    map id | id in runs && !Expired(runs[id], now) :: runs[id]
  }

  /** A finished run none of the others finished before. */
  ghost predicate OldestFinished(runs: Records, id: Id) {
    && id in runs && runs[id].Finished()
    && forall other :: other in runs && runs[other].Finished() ==> runs[id].finishedAt.value <= runs[other].finishedAt.value
  }

  /** Making room: drops one oldest finished run when the store is full and has one. */
  ghost predicate RoomMade(runs: Records, roomy: Records) {
    if |runs| < MAX_REMEMBERED || (forall id :: id in runs ==> !runs[id].Finished()) then roomy == runs
    else exists id :: OldestFinished(runs, id) && roomy == runs - {id}
  }

  datatype StartFailure = TooMany | NoRandomId

  /** Adding the new run once room has been made. */
  ghost predicate Admitted(roomy: Records, runs': Records, id: Option<Id>, r: Result<Id, StartFailure>) {
    if |roomy| >= MAX_REMEMBERED then r == Err(TooMany) && runs' == roomy
    else if id.None? then r == Err(NoRandomId) && runs' == roomy
    else r == Ok(id.value) && runs' == roomy[id.value := Record(Queued, None, true)]
  }

  ghost predicate StartStep(runs: Records, runs': Records, now: int, id: Option<Id>, r: Result<Id, StartFailure>) {
    exists roomy :: RoomMade(Swept(runs, now), roomy) && Admitted(roomy, runs', id, r)
  }

  ghost function MarkedRunning(runs: Records, id: Id): Records {
    if id in runs then runs[id := runs[id].(status := Running)] else runs
  }

  /** How a run ended, as `execute` sees it. */
  datatype Outcome = Outcome(contextDone: bool, reportsCancelled: bool, failed: bool)

  function FinalStatus(before: Status, o: Outcome): Status {
    if o.contextDone || o.reportsCancelled || before == Cancelling then Cancelled
    else if o.failed then Failed
    else Succeeded
  }

  ghost function MarkedFinished(runs: Records, id: Id, now: int, o: Outcome): Records {
    if id in runs then runs[id := Record(FinalStatus(runs[id].status, o), Some(now), false)] else runs
  }

  predicate Accepts(runs: Records, id: Id) {
    id in runs && (runs[id].status == Queued || runs[id].status == Running)
  }

  ghost function CancelRequested(runs: Records, id: Id): Records {
    if Accepts(runs, id) then runs[id := runs[id].(status := Cancelling)] else runs
  }

  /** After a sweep exactly the runs are left that have not finished, or not earlier than two hours ago. */
  lemma SweptMeaning(runs: Records, now: int, id: Id)
    ensures id in Swept(runs, now) <==>
              id in runs && match runs[id].finishedAt case None => true case Some(at) => at >= now - 7_200_000_000_000
    ensures id in Swept(runs, now) ==> Swept(runs, now)[id] == runs[id]
  {
  }

  ghost predicate Unfinished(runs: Records) {
    forall id :: id in runs ==> runs[id].finishedAt.None?
  }

  /** Of the runs one that has finished is dropped, none of the others having finished before it. */
  ghost predicate OldestDropped(runs: Records, roomy: Records, id: Id) {
    && id in runs && id !in roomy && runs[id].finishedAt.Some?
    && forall other :: other in runs && other != id ==> other in roomy && roomy[other] == runs[other] && NotBefore(runs, id, other)
  }

  ghost predicate NotBefore(runs: Records, id: Id, other: Id)
    requires id in runs && runs[id].finishedAt.Some? && other in runs
  {
    runs[other].finishedAt.Some? ==> runs[id].finishedAt.value <= runs[other].finishedAt.value
  }

  /** Fewer than 64 runs all stay, as do 64 none of which has finished; of other 64 one that finished first is dropped. */
  lemma RoomMeaning(runs: Records, roomy: Records)
    requires RoomMade(runs, roomy) && |runs| <= 64
    ensures if |runs| < 64 || Unfinished(runs) then roomy == runs
            else |roomy| == 63 && roomy.Keys <= runs.Keys && exists id :: OldestDropped(runs, roomy, id)
  {
    if roomy != runs {
      var id :| OldestFinished(runs, id) && roomy == runs - {id};
      assert |roomy.Keys| == |runs.Keys| - 1 && |roomy| == |roomy.Keys| && |runs| == |runs.Keys|;
      assert OldestDropped(runs, roomy, id);
    }
  }

  /** A start is refused for lack of room exactly when 64 runs that have not finished are left after the sweep.
      Otherwise the new run is added, queued, to what is left. */
  lemma StartMeaning(runs: Records, runs': Records, now: int, id: Option<Id>, r: Result<Id, StartFailure>) returns (roomy: Records)
    requires StartStep(runs, runs', now, id, r) && |runs| <= 64
    ensures RoomMade(Swept(runs, now), roomy)
    ensures r == Err(TooMany) <==> |Swept(runs, now)| == 64 && Unfinished(Swept(runs, now))
    ensures r == Err(NoRandomId) <==> !(|Swept(runs, now)| == 64 && Unfinished(Swept(runs, now))) && id.None?
    ensures r.Err? ==> runs' == roomy
    ensures r.Ok? ==> id == Some(r.value) && runs' == roomy[r.value := Record(Queued, None, true)]
  {
    roomy :| RoomMade(Swept(runs, now), roomy) && Admitted(roomy, runs', id, r);
    SweptFewer(runs, now);
    RoomMeaning(Swept(runs, now), roomy);
  }

  predicate Active(s: Status) {
    s == Queued || s == Running
  }

  /** A cancellation is accepted for a queued or running run, which becomes cancelling; nothing else changes. */
  lemma CancelMeaning(runs: Records, id: Id)
    ensures CancelRequested(runs, id).Keys == runs.Keys
    ensures forall other :: other in runs && other != id ==> CancelRequested(runs, id)[other] == runs[other]
    ensures id in runs && Active(runs[id].status) ==> CancelRequested(runs, id)[id] == Record(Cancelling, runs[id].finishedAt, runs[id].cancellable)
    ensures id in runs && !Active(runs[id].status) ==> CancelRequested(runs, id)[id] == runs[id]
  {
  }

  // ----- The store itself -----

  /** A run's context, cancelled by its cancel function. */
  class Context {
    var cancelled: bool

    constructor ()
      ensures !cancelled
    {
      cancelled := false;
    }
  }

  class StoredRun {
    const id: Id
    const notebookID: string
    var status: Status
    var finishedAt: Option<int>
    var cancel: Context?

    constructor (id: Id, notebookID: string, cancel: Context)
      ensures this.id == id && this.notebookID == notebookID && status == Queued && finishedAt == None && this.cancel == cancel
    {
      this.id, this.notebookID, this.cancel := id, notebookID, cancel;
      status, finishedAt := Queued, None;
    }

    /** What `execute` records of its run at the end. */
    method Finish(now: int, contextDone: bool, reportsCancelled: bool, failed: bool)
      modifies this
      ensures finishedAt == Some(now) && cancel == null
      ensures var cancelled := contextDone || reportsCancelled || old(status) == Cancelling;
              status == if cancelled then Cancelled else if failed then Failed else Succeeded
    {
      finishedAt := Some(now);
      cancel := null;
      if contextDone || reportsCancelled || status == Cancelling {
        status := Cancelled;
      } else if failed {
        status := Failed;
      } else {
        status := Succeeded;
      }
    }
  }

  class Store {
    var runs: map<Id, StoredRun>

    ghost var records: Records
    ghost var Repr: set<StoredRun>

    ghost predicate Holds(id: Id)
      reads this, Repr
    {
      && id in runs && id in records && runs[id] in Repr && runs[id].id == id
      && records[id] == Record(runs[id].status, runs[id].finishedAt, runs[id].cancel != null)
    }

    ghost predicate Valid()
      reads this, Repr
    {
      runs.Keys == records.Keys && forall id :: id in runs ==> Holds(id)
    }

    constructor ()
      ensures Valid() && fresh(Repr) && records == map[]
    {
      runs, records, Repr := map[], map[], {};
    }

    method Delete(id: Id)
      requires Valid()
      modifies this
      ensures Valid() && Repr == old(Repr) && runs == old(runs) - {id} && records == old(records) - {id}
    {
      runs := runs - {id};
      records := records - {id};
      forall other | other in runs
        ensures Holds(other)
      {
        assert old(Holds(other));
      }
    }

    method SweepLocked(now: int)
      requires Valid()
      modifies this
      ensures Valid() && Repr == old(Repr) && records == Swept(old(records), now)
      ensures forall id :: id in runs ==> id in old(runs) && runs[id] == old(runs)[id]
    {
      var cutoff := now - RETENTION;
      var todo := runs.Keys;
      while todo != {}
        invariant Valid() && Repr == old(Repr) && todo <= runs.Keys <= old(runs).Keys
        invariant forall id :: id in runs ==> runs[id] == old(runs)[id]
        invariant forall id :: id in records ==> id in old(records) && records[id] == old(records)[id]
        invariant forall id :: id in old(records) && id !in records ==> Expired(old(records)[id], now)
        invariant forall id :: id in records && id !in todo ==> !Expired(records[id], now)
        decreases todo
      {
        var id :| id in todo;
        assert Holds(id);
        var run := runs[id];
        todo := todo - {id};
        if run.finishedAt.Some? && run.finishedAt.value < cutoff {
          Delete(id);
        }
      }
    }

    /** The first loop of `start`: a finished run that none of the others precedes. */
    method FindOldestFinished() returns (oldest: StoredRun?)
      requires Valid()
      ensures oldest == null ==> forall id :: id in records ==> !records[id].Finished()
      ensures oldest != null ==> oldest.id in runs && runs[oldest.id] == oldest && OldestFinished(records, oldest.id)
    {
      oldest := null;
      var todo := runs.Keys;
      while todo != {}
        invariant todo <= runs.Keys
        invariant oldest == null ==> forall id :: id in runs && id !in todo ==> !records[id].Finished()
        invariant oldest != null ==> oldest.id in runs && runs[oldest.id] == oldest && records[oldest.id].Finished()
        invariant oldest != null ==> forall id :: id in runs && id !in todo && records[id].Finished() ==>
                    records[oldest.id].finishedAt.value <= records[id].finishedAt.value
        decreases todo
      {
        var id :| id in todo;
        assert Holds(id);
        var candidate := runs[id];
        if candidate.finishedAt.Some? {
          assert oldest != null ==> Holds(oldest.id);
          if oldest == null || candidate.finishedAt.value < oldest.finishedAt.value {
            oldest := candidate;
          }
        }
        todo := todo - {id};
      }
    }

    method MakeRoom()
      requires Valid()
      modifies this
      ensures Valid() && Repr == old(Repr) && RoomMade(old(records), records)
      ensures forall id :: id in runs ==> id in old(runs) && runs[id] == old(runs)[id]
    {
      if |runs| >= MAX_REMEMBERED {
        assert |runs.Keys| == |records.Keys|;
        var oldest := FindOldestFinished();
        if oldest != null {
          Delete(oldest.id);
        }
      } else {
        assert |runs.Keys| == |records.Keys|;
      }
    }

    method Insert(id: Id, notebookID: string) returns (context: Context)
      requires Valid() && id !in runs
      modifies this
      ensures Valid() && fresh(Repr - old(Repr)) && records == old(records)[id := Record(Queued, None, true)]
      ensures fresh(context) && !context.cancelled && id in runs && runs[id].cancel == context
    {
      context := new Context();
      var run := new StoredRun(id, notebookID, context);
      runs := runs[id := run];
      records := records[id := Record(Queued, None, true)];
      Repr := Repr + {run};
      forall other | other in runs
        ensures Holds(other)
      {
        if other != id {
          assert old(Holds(other));
        }
      }
    }

    /** `id` is the outcome of drawing a random identifier; one that is drawn is new. */
    method Start(notebookID: string, now: int, id: Option<Id>) returns (r: Result<Id, StartFailure>, context: Context?)
      requires Valid() && (id.Some? ==> id.value !in runs)
      modifies this
      ensures Valid() && fresh(Repr - old(Repr)) && StartStep(old(records), records, now, id, r)
      ensures r.Ok? ==> context != null && fresh(context) && !context.cancelled && r.value in runs && runs[r.value].cancel == context
    {
      context := null;
      SweepLocked(now);
      MakeRoom();
      ghost var roomy := records;
      assert RoomMade(Swept(old(records), now), roomy);
      assert |runs.Keys| == |records.Keys|;
      if |runs| >= MAX_REMEMBERED {
        r := Err(TooMany);
      } else if id.None? {
        r := Err(NoRandomId);
      } else {
        context := Insert(id.value, notebookID);
        r := Ok(id.value);
      }
    }

    /** The first update of `execute`. It overwrites a status of `Cancelling`. */
    method MarkRunning(id: Id)
      requires Valid()
      modifies this`records, Repr
      ensures Valid() && records == MarkedRunning(old(records), id) && records.Keys == old(records).Keys
      ensures id in records ==> records[id] == Record(Running, old(records)[id].finishedAt, old(records)[id].cancellable)
      ensures forall other :: other in records && other != id ==> records[other] == old(records)[other]
      ensures forall other :: other in runs ==> runs[other].cancel == old(runs[other].cancel)
    {
      if id in runs {
        assert Holds(id);
        var run := runs[id];
        run.status := Running;
        records := records[id := records[id].(status := Running)];
        forall other | other in runs
          ensures Holds(other)
        {
          assert old(Holds(other));
        }
      }
    }

    /** The last update of `execute`; `context` is the one its run was started with. */
    method MarkFinished(id: Id, now: int, context: Context, rootCancelled: bool, reportsCancelled: bool, failed: bool)
      requires Valid()
      modifies this`records, Repr
      ensures Valid() && records == MarkedFinished(old(records), id, now, Outcome(context.cancelled || rootCancelled, reportsCancelled, failed))
      ensures records.Keys == old(records).Keys && forall other :: other in records && other != id ==> records[other] == old(records)[other]
      ensures id in records ==> records[id].finishedAt == Some(now) && !records[id].cancellable
      ensures id in records ==>
                var cancelled := context.cancelled || rootCancelled || reportsCancelled || old(records)[id].status == Cancelling;
                && (records[id].status == Cancelled <==> cancelled)
                && (records[id].status == Failed <==> !cancelled && failed)
                && (records[id].status == Succeeded <==> !cancelled && !failed)
      ensures forall other :: other in runs && other != id ==> runs[other].cancel == old(runs[other].cancel)
    {
      if id in runs {
        assert Holds(id);
        var contextDone := context.cancelled || rootCancelled;
        runs[id].Finish(now, contextDone, reportsCancelled, failed);
        records := MarkedFinished(records, id, now, Outcome(contextDone, reportsCancelled, failed));
        forall other | other in runs
          ensures Holds(other)
        {
          assert old(Holds(other));
        }
      }
    }

    ghost function Contexts(): set<Context>
      reads this, Repr
    {
      set id | id in runs && runs[id] in Repr && runs[id].cancel != null :: runs[id].cancel
    }

    method StatusOf(id: Id, now: int) returns (status: Option<Status>)
      requires Valid()
      modifies this
      ensures Valid() && Repr == old(Repr) && records == Swept(old(records), now)
      ensures status == if id in records then Some(records[id].status) else None
    {
      SweepLocked(now);
      if id !in runs {
        return None;
      }
      assert Holds(id);
      return Some(runs[id].status);
    }

    /** Accepts a cancellation of a queued or running run: the run's context is cancelled and no
        other. */
    method CancelStored(id: Id) returns (status: Status)
      requires Valid() && id in runs
      modifies this`records, Repr, Contexts()
      ensures Valid() && records == CancelRequested(old(records), id) && status == records[id].status
      ensures forall c :: c in old(Contexts()) ==>
                (c.cancelled <==> old(c.cancelled) || (Accepts(old(records), id) && c == old(runs[id].cancel)))
    {
      assert Holds(id);
      var run := runs[id];
      if run.status == Queued || run.status == Running {
        run.status := Cancelling;
        if run.cancel != null {
          run.cancel.cancelled := true;
        }
        records := CancelRequested(records, id);
        forall other | other in runs
          ensures Holds(other)
        {
          assert old(Holds(other));
        }
      }
      return run.status;
    }

    method RequestCancel(id: Id, now: int) returns (status: Option<Status>)
      requires Valid()
      modifies this, Repr, Contexts()
      ensures Valid() && Repr == old(Repr) && records == CancelRequested(Swept(old(records), now), id)
      ensures status == if id in records then Some(records[id].status) else None
      ensures forall c :: c in old(Contexts()) && c.cancelled && !old(c.cancelled) ==>
                Accepts(Swept(old(records), now), id) && id in old(runs) && c == old(runs[id].cancel)
      ensures Accepts(Swept(old(records), now), id) && id in old(runs) && old(runs[id].cancel) != null ==> old(runs[id].cancel).cancelled
    {
      SweepLocked(now);
      if id !in runs {
        return None;
      }
      assert Holds(id) && Contexts() <= old(Contexts());
      var after := CancelStored(id);
      return Some(after);
    }
  }

  // ----- All interleavings -----

  /** How far the goroutine of a run has come. */
  datatype Pc = Spawned | Working | Done

  /** A run's goroutine, and whether its context has been cancelled by its cancel function. */
  datatype Thread = Thread(pc: Pc, cancelled: bool)

  /** The store and every goroutine ever started. */
  datatype System = System(runs: Records, threads: map<Id, Thread>, rootCancelled: bool)

  datatype Event =
    | Started(now: int, id: Option<Id>, result: Result<Id, StartFailure>)
    | Begun(run: Id)
    | Ended(run: Id, now: int, reportsCancelled: bool, failed: bool)
    | CancelAsked(run: Id, now: int)
    | Looked(now: int)
    | RootCancelled

  /** One locked region of some caller or goroutine. Random identifiers are never drawn twice. */
  ghost predicate Next(s: System, e: Event, s': System) {
    match e
    case Started(now, id, result) =>
      && (id.Some? ==> id.value !in s.threads)
      && StartStep(s.runs, s'.runs, now, id, result)
      && s'.threads == (if result.Ok? then s.threads[result.value := Thread(Spawned, false)] else s.threads)
      && s'.rootCancelled == s.rootCancelled
    case Begun(run) =>
      && run in s.threads && s.threads[run].pc == Spawned
      && s' == s.(runs := MarkedRunning(s.runs, run), threads := s.threads[run := s.threads[run].(pc := Working)])
    case Ended(run, now, reportsCancelled, failed) =>
      && run in s.threads && s.threads[run].pc == Working
      && var o := Outcome(s.threads[run].cancelled || s.rootCancelled, reportsCancelled, failed);
         s' == s.(runs := MarkedFinished(s.runs, run, now, o), threads := s.threads[run := s.threads[run].(pc := Done)])
    case CancelAsked(run, now) =>
      var swept := Swept(s.runs, now);
      s' == s.(runs := CancelRequested(swept, run),
               threads := if Accepts(swept, run) && swept[run].cancellable && run in s.threads
                          then s.threads[run := s.threads[run].(cancelled := true)] else s.threads)
    case Looked(now) =>
      s' == s.(runs := Swept(s.runs, now))
    case RootCancelled =>
      s' == s.(rootCancelled := true)
  }

  /** What is true of a run at any moment. */
  ghost predicate ThreadInv(s: System, id: Id)
    requires id in s.threads
  {
    var t := s.threads[id];
    && (t.pc != Done ==>
          && id in s.runs && !s.runs[id].Finished() && s.runs[id].cancellable
          && (s.runs[id].status == Cancelling || s.runs[id].status == if t.pc == Spawned then Queued else Running)
          && (s.runs[id].status == Cancelling ==> t.cancelled))
    && (t.pc == Done && id in s.runs ==>
          s.runs[id].Finished() && s.runs[id].Terminal() && (t.cancelled ==> s.runs[id].status == Cancelled))
  }

  ghost predicate Inv(s: System) {
    && |s.runs| <= MAX_REMEMBERED
    && (forall id :: id in s.runs ==> id in s.threads)
    && (forall id :: id in s.threads ==> ThreadInv(s, id))
  }

  ghost predicate Initial(s: System) {
    s.runs == map[] && s.threads == map[]
  }

  lemma SweptFewer(runs: Records, now: int)
    ensures |Swept(runs, now)| <= |runs|
    ensures forall id :: id in runs && !runs[id].Finished() ==> id in Swept(runs, now)
  {
    Fewer(Swept(runs, now).Keys, runs.Keys);
    assert |Swept(runs, now).Keys| == |Swept(runs, now)| && |runs.Keys| == |runs|;
  }

  /** Sweeping and making room drop finished runs only. */
  lemma RoomKeepsUnfinished(runs: Records, roomy: Records)
    requires RoomMade(runs, roomy)
    ensures |roomy| <= |runs|
    ensures forall id :: id in roomy ==> id in runs && roomy[id] == runs[id]
    ensures forall id :: id in runs && !runs[id].Finished() ==> id in roomy
  {
    Fewer(roomy.Keys, runs.Keys);
    assert |roomy.Keys| == |roomy| && |runs.Keys| == |runs|;
  }

  /** What starting a run does to the records already there. */
  lemma StartRecords(runs: Records, runs': Records, now: int, id: Option<Id>, r: Result<Id, StartFailure>)
    requires StartStep(runs, runs', now, id, r) && |runs| <= MAX_REMEMBERED
    ensures |runs'| <= MAX_REMEMBERED
    ensures forall x :: x in runs && !runs[x].Finished() && (r.Ok? ==> x != r.value) ==> x in runs'
    ensures forall x :: x in runs' && (r.Ok? ==> x != r.value) ==> x in runs && runs'[x] == runs[x]
    ensures r.Ok? ==> id == Some(r.value) && r.value in runs' && runs'[r.value] == Record(Queued, None, true)
  {
    var roomy :| RoomMade(Swept(runs, now), roomy) && Admitted(roomy, runs', id, r);
    SweptFewer(runs, now);
    RoomKeepsUnfinished(Swept(runs, now), roomy);
    AdmittedSize(roomy, runs', id, r);
  }

  lemma AdmittedSize(roomy: Records, runs': Records, id: Option<Id>, r: Result<Id, StartFailure>)
    requires Admitted(roomy, runs', id, r) && |roomy| <= MAX_REMEMBERED
    ensures |runs'| <= MAX_REMEMBERED
  {
    if r.Ok? {
      assert runs'.Keys == roomy.Keys + {id.value};
      assert |runs'| == |runs'.Keys| && |roomy| == |roomy.Keys|;
    }
  }

  /** What a step can do to the record of a run that is already in the store: drop it if it is
      finished, or change it in one of the three ways the code does. */
  ghost predicate Changed(s: System, e: Event, s': System, id: Id)
    requires id in s.runs
  {
    var r := s.runs[id];
    || (id !in s'.runs && r.Finished())
    || (id in s'.runs && s'.runs[id] == r)
    || (id in s'.runs && e.Begun? && e.run == id && s'.runs[id] == r.(status := Running))
    || (id in s'.runs && e.Ended? && e.run == id && s'.runs[id].Finished() && !s'.runs[id].cancellable
        && id in s.threads
        && s'.runs[id].status == FinalStatus(r.status, Outcome(s.threads[id].cancelled || s.rootCancelled, e.reportsCancelled, e.failed)))
    || (id in s'.runs && e.CancelAsked? && e.run == id && (r.status == Queued || r.status == Running)
        && s'.runs[id] == r.(status := Cancelling))
  }

  lemma StepChanges(s: System, e: Event, s': System)
    requires Next(s, e, s') && |s.runs| <= MAX_REMEMBERED
    requires forall id :: id in s.runs ==> id in s.threads
    ensures |s'.runs| <= MAX_REMEMBERED
    ensures forall id :: id in s.runs ==> Changed(s, e, s', id)
    ensures forall id :: id in s'.runs && id !in s.runs ==> e.Started? && e.result == Ok(id) && s'.runs[id] == Record(Queued, None, true)
  {
    match e
    case Started(now, id, result) => StartRecords(s.runs, s'.runs, now, id, result);
    case Begun(run) => assert s'.runs.Keys == s.runs.Keys && |s'.runs.Keys| == |s'.runs|;
    case Ended(run, now, reportsCancelled, failed) => assert s'.runs.Keys == s.runs.Keys && |s'.runs.Keys| == |s'.runs|;
    case CancelAsked(run, now) =>
      SweptFewer(s.runs, now);
      var swept := Swept(s.runs, now);
      assert s'.runs.Keys == swept.Keys && |s'.runs.Keys| == |s'.runs| && |swept.Keys| == |swept|;
    case Looked(now) => SweptFewer(s.runs, now);
    case RootCancelled =>
  }

  lemma ThreadKept(s: System, e: Event, s': System, id: Id)
    requires Next(s, e, s') && id in s.threads && ThreadInv(s, id)
    requires id in s.runs ==> Changed(s, e, s', id)
    requires id in s'.runs && id !in s.runs ==> e.Started? && e.result == Ok(id)
    ensures id in s'.threads && ThreadInv(s', id)
  {
  }

  /** Every locked region keeps the invariant. */
  lemma NextKeepsInv(s: System, e: Event, s': System)
    requires Inv(s) && Next(s, e, s')
    ensures Inv(s')
  {
    StepChanges(s, e, s');
    forall x | x in s'.threads
      ensures ThreadInv(s', x)
    {
      if x in s.threads {
        ThreadKept(s, e, s', x);
      } else {
        assert e.Started? && e.result == Ok(x);
        StartRecords(s.runs, s'.runs, e.now, e.id, e.result);
      }
    }
    forall x | x in s'.runs
      ensures x in s'.threads
    {
      if x in s.runs {
        assert x in s.threads;
      }
    }
  }

  // ----- Whole runs -----

  /** A run of the system: some initial state and any steps. */
  ghost predicate Trace(states: seq<System>, events: seq<Event>) {
    && |states| == |events| + 1 && Initial(states[0])
    && forall i :: 0 <= i < |events| ==> Next(states[i], events[i], states[i + 1])
  }

  lemma {:induction false} TraceInv(states: seq<System>, events: seq<Event>, i: nat)
    requires Trace(states, events) && i < |states|
    ensures Inv(states[i])
  {
    if i > 0 {
      TraceInv(states, events, i - 1);
      NextKeepsInv(states[i - 1], events[i - 1], states[i]);
    }
  }

  /** Identifiers are never reused: a started run keeps its goroutine, so its identifier is never drawn again. */
  lemma {:induction false} ThreadsStay(states: seq<System>, events: seq<Event>, i: nat, j: nat, id: Id)
    requires Trace(states, events) && i <= j < |states| && id in states[i].threads
    ensures id in states[j].threads
    ensures states[i].threads[id].cancelled ==> states[j].threads[id].cancelled
    ensures states[i].threads[id].pc == Done ==> states[j].threads[id].pc == Done
    ensures states[j].threads[id].pc != Done ==> states[i].threads[id].pc != Done
    decreases j
  {
    if i < j {
      ThreadsStay(states, events, i, j - 1, id);
      assert Next(states[j - 1], events[j - 1], states[j]);
    }
  }

  /** In every interleaving at most 64 runs are remembered, and a run whose goroutine has not ended
      is among them, not finished, and not in a terminal status. */
  lemma UnfinishedRunsAreKept(states: seq<System>, events: seq<Event>, i: nat)
    requires Trace(states, events) && i < |states|
    ensures |states[i].runs| <= MAX_REMEMBERED
    ensures forall id :: id in states[i].threads && states[i].threads[id].pc != Done ==>
              id in states[i].runs && !states[i].runs[id].Finished() && !states[i].runs[id].Terminal()
  {
    TraceInv(states, events, i);
    forall id | id in states[i].threads && states[i].threads[id].pc != Done
      ensures id in states[i].runs && !states[i].runs[id].Finished() && !states[i].runs[id].Terminal()
    {
      assert ThreadInv(states[i], id);
    }
  }

  /** A run that has left the store never comes back, and no step changes a terminal record. */
  lemma {:induction false} TerminalNeverChanges(states: seq<System>, events: seq<Event>, i: nat, j: nat, id: Id)
    requires Trace(states, events) && i <= j < |states| && id in states[i].threads
    requires id in states[i].runs ==> states[i].runs[id].Terminal()
    ensures id in states[j].runs ==> id in states[i].runs && states[j].runs[id] == states[i].runs[id]
    decreases j
  {
    if i < j {
      TerminalNeverChanges(states, events, i, j - 1, id);
      ThreadsStay(states, events, i, j - 1, id);
      TraceInv(states, events, j - 1);
      TerminalStep(states[j - 1], events[j - 1], states[j], id);
    }
  }

  lemma TerminalStep(s: System, e: Event, s': System, id: Id)
    requires Inv(s) && Next(s, e, s') && id in s.threads && (id in s.runs ==> s.runs[id].Terminal())
    ensures id in s'.runs ==> id in s.runs && s'.runs[id] == s.runs[id]
  {
    StepChanges(s, e, s');
    assert ThreadInv(s, id);
    if id in s.runs {
      assert Changed(s, e, s', id);
    }
  }

  /** A cancellation accepted at step `i` decides the run, although `execute` may overwrite the
      status `Cancelling` with `Running` afterwards: the run's context stays cancelled, and if it
      ever ends, it ends as `Cancelled`. */
  lemma AcceptedCancelWins(states: seq<System>, events: seq<Event>, i: nat, j: nat)
    requires Trace(states, events) && i < |events| && i < j < |states|
    requires events[i].CancelAsked? && Accepts(Swept(states[i].runs, events[i].now), events[i].run)
    ensures events[i].run in states[j].threads && states[j].threads[events[i].run].cancelled
    ensures events[i].run in states[j].runs && states[j].runs[events[i].run].Finished() ==>
              states[j].runs[events[i].run].status == Cancelled
  {
    var id := events[i].run;
    TraceInv(states, events, i);
    assert Next(states[i], events[i], states[i + 1]);
    assert id in states[i].runs && id in states[i].threads && ThreadInv(states[i], id);
    ThreadsStay(states, events, i + 1, j, id);
    TraceInv(states, events, j);
    assert ThreadInv(states[j], id);
  }

  /** When the goroutine of such a run takes its last step, it records `Cancelled`. */
  lemma CancelledRunEndsCancelled(states: seq<System>, events: seq<Event>, i: nat, j: nat)
    requires Trace(states, events) && i < j < |events|
    requires events[i].CancelAsked? && Accepts(Swept(states[i].runs, events[i].now), events[i].run)
    requires events[j].Ended? && events[j].run == events[i].run
    ensures events[i].run in states[j + 1].runs
    ensures states[j + 1].runs[events[i].run] == Record(Cancelled, Some(events[j].now), false)
  {
    AcceptedCancelWins(states, events, i, j);
    TraceInv(states, events, j);
    assert ThreadInv(states[j], events[i].run);
    assert Next(states[j], events[j], states[j + 1]);
  }

  /** How a finished run ended: its record is the one its last step made, cancelled if and only if its context or the
      root was cancelled by then or the backend reported it, and otherwise failed if and only if the backend failed. */
  lemma {:induction false} RecordedOutcome(states: seq<System>, events: seq<Event>, i: nat, id: Id) returns (j: nat)
    requires Trace(states, events) && i < |states| && id in states[i].runs && states[i].runs[id].Terminal()
    ensures j < i && events[j].Ended? && events[j].run == id && id in states[j].threads
    ensures states[i].runs[id].finishedAt == Some(events[j].now)
    ensures var cancelled := states[j].threads[id].cancelled || states[j].rootCancelled || events[j].reportsCancelled;
            && (states[i].runs[id].status == Cancelled <==> cancelled)
            && (states[i].runs[id].status == Failed <==> !cancelled && events[j].failed)
            && (states[i].runs[id].status == Succeeded <==> !cancelled && !events[j].failed)
  {
    var s, e := states[i - 1], events[i - 1];
    TraceInv(states, events, i - 1);
    assert Next(s, e, states[i]);
    StepChanges(s, e, states[i]);
    assert id in s.runs && id in s.threads && ThreadInv(s, id) && Changed(s, e, states[i], id);
    if s.runs[id].Terminal() {
      TerminalStep(s, e, states[i], id);
      j := RecordedOutcome(states, events, i - 1, id);
    } else {
      j := i - 1;
    }
  }

  /** A run that is recorded as succeeded or failed had no accepted cancellation, and its last step reported none: it
      failed exactly if the backend did. */
  lemma OutcomeIsReported(states: seq<System>, events: seq<Event>, i: nat, id: Id) returns (j: nat)
    requires Trace(states, events) && i < |states| && id in states[i].runs
    requires states[i].runs[id].status == Succeeded || states[i].runs[id].status == Failed
    ensures j < i && events[j].Ended? && events[j].run == id && !events[j].reportsCancelled && !states[j].rootCancelled
    ensures states[i].runs[id].status == Failed <==> events[j].failed
    ensures forall k :: 0 <= k < i && events[k].CancelAsked? && events[k].run == id ==> !Accepts(Swept(states[k].runs, events[k].now), id)
  {
    j := RecordedOutcome(states, events, i, id);
    forall k | 0 <= k < i && events[k].CancelAsked? && events[k].run == id
      ensures !Accepts(Swept(states[k].runs, events[k].now), id)
    {
      if Accepts(Swept(states[k].runs, events[k].now), id) {
        AcceptedCancelWins(states, events, k, i);
      }
    }
  }

  /** A run in status `Cancelling` is set to `Running` by exactly one step: its own goroutine beginning. */
  lemma OverwrittenIff(s: System, e: Event, s': System, id: Id)
    requires Inv(s) && Next(s, e, s') && id in s.runs && s.runs[id].status == Cancelling
    ensures id in s'.runs && s'.runs[id].status == Running <==> e == Begun(id)
  {
    StepChanges(s, e, s');
    assert Changed(s, e, s', id);
    assert id in s.threads && ThreadInv(s, id);
  }

  ghost predicate IsRunning(s: System, id: Id) {
    id in s.runs && s.runs[id].status == Running
  }

  /** Forgotten, being cancelled, or over. */
  ghost predicate Stopping(s: System, id: Id) {
    id in s.runs ==> s.runs[id].status == Cancelling || s.runs[id].Terminal()
  }

  lemma StoppingKept(s: System, e: Event, s': System, id: Id)
    requires Inv(s) && Next(s, e, s') && id in s.threads && Stopping(s, id) && e != Begun(id)
    ensures Stopping(s', id)
  {
    StepChanges(s, e, s');
    assert id in s.runs ==> Changed(s, e, s', id);
  }

  ghost predicate KnownAndStopping(s: System, id: Id) {
    id in s.threads && Stopping(s, id)
  }

  lemma StoppingAt(states: seq<System>, events: seq<Event>, i: nat, id: Id)
    requires Trace(states, events) && i < |events| && events[i] != Begun(id)
    ensures KnownAndStopping(states[i], id) ==> KnownAndStopping(states[i + 1], id)
  {
    TraceInv(states, events, i);
    assert Next(states[i], events[i], states[i + 1]);
    if KnownAndStopping(states[i], id) {
      StoppingKept(states[i], events[i], states[i + 1], id);
    }
  }

  lemma {:induction false} StoppingAlong(states: seq<System>, i: nat, j: nat, id: Id)
    requires i <= j < |states| && KnownAndStopping(states[i], id)
    requires forall k: nat :: i <= k < j ==> KnownAndStopping(states[k], id) ==> KnownAndStopping(states[k + 1], id)
    ensures KnownAndStopping(states[j], id)
    decreases j
  {
    if i < j {
      StoppingAlong(states, i, j - 1, id);
      assert KnownAndStopping(states[j - 1 + 1], id);
    }
  }

  lemma StoppingUntilBegun(states: seq<System>, events: seq<Event>, i: nat, j: nat, id: Id)
    requires Trace(states, events) && i <= j < |states| && KnownAndStopping(states[i], id)
    requires forall k :: i <= k < j ==> events[k] != Begun(id)
    ensures KnownAndStopping(states[j], id)
  {
    forall k: nat | i <= k < j
      ensures KnownAndStopping(states[k], id) ==> KnownAndStopping(states[k + 1], id)
    {
      StoppingAt(states, events, k, id);
    }
    StoppingAlong(states, i, j, id);
  }

  lemma BegunIsRunning(states: seq<System>, events: seq<Event>, k: nat, id: Id)
    requires Trace(states, events) && k < |events| && events[k] == Begun(id)
    ensures IsRunning(states[k + 1], id)
  {
    TraceInv(states, events, k);
    assert Next(states[k], events[k], states[k + 1]);
    assert ThreadInv(states[k], id);
  }

  lemma AcceptedIsStopping(states: seq<System>, events: seq<Event>, i: nat)
    requires Trace(states, events) && i < |events|
    requires events[i].CancelAsked? && Accepts(Swept(states[i].runs, events[i].now), events[i].run)
    ensures events[i].run in states[i].threads && states[i].threads[events[i].run].pc != Done
    ensures events[i].run in states[i + 1].threads && Stopping(states[i + 1], events[i].run)
    ensures states[i + 1].threads[events[i].run].pc == states[i].threads[events[i].run].pc
  {
    TraceInv(states, events, i);
    assert Next(states[i], events[i], states[i + 1]);
    assert events[i].run in states[i].threads && ThreadInv(states[i], events[i].run);
  }

  /** After an accepted cancellation the run is reported as running again if and only if its goroutine begins
      afterwards. */
  lemma RunningAgainIff(states: seq<System>, events: seq<Event>, i: nat)
    requires Trace(states, events) && i < |events|
    requires events[i].CancelAsked? && Accepts(Swept(states[i].runs, events[i].now), events[i].run)
    ensures (exists j :: i < j < |states| && IsRunning(states[j], events[i].run))
            <==> (exists k :: i < k < |events| && events[k] == Begun(events[i].run))
  {
    var id := events[i].run;
    AcceptedIsStopping(states, events, i);
    if k :| i < k < |events| && events[k] == Begun(id) {
      BegunIsRunning(states, events, k, id);
    } else {
      forall j | i < j < |states|
        ensures !IsRunning(states[j], id)
      {
        StoppingUntilBegun(states, events, i + 1, j, id);
      }
    }
  }

  lemma {:induction false} BegunOnce(states: seq<System>, events: seq<Event>, i: nat, j: nat, id: Id)
    requires Trace(states, events) && i <= j < |states| && id in states[i].threads && states[i].threads[id].pc != Spawned
    ensures id in states[j].threads && states[j].threads[id].pc != Spawned
    decreases j
  {
    if i < j {
      BegunOnce(states, events, i, j - 1, id);
      assert Next(states[j - 1], events[j - 1], states[j]);
    }
  }

  /** A cancellation accepted after the goroutine has begun is never overwritten. */
  lemma CancelAfterBeginStays(states: seq<System>, events: seq<Event>, i: nat, j: nat)
    requires Trace(states, events) && i < |events| && i < j < |states|
    requires events[i].CancelAsked? && Accepts(Swept(states[i].runs, events[i].now), events[i].run)
    requires events[i].run in states[i].threads && states[i].threads[events[i].run].pc != Spawned
    ensures events[i].run in states[j].runs ==>
              states[j].runs[events[i].run].status == if states[j].runs[events[i].run].Finished() then Cancelled else Cancelling
  {
    var id := events[i].run;
    AcceptedIsStopping(states, events, i);
    forall k | i + 1 <= k < j
      ensures events[k] != Begun(id)
    {
      BegunOnce(states, events, i + 1, k, id);
      assert Next(states[k], events[k], states[k + 1]);
    }
    StoppingUntilBegun(states, events, i + 1, j, id);
    AcceptedCancelWins(states, events, i, j);
    TraceInv(states, events, j);
    assert ThreadInv(states[j], id);
  }

  /** The overwrite does happen: a run cancelled while queued is reported as running once its
      goroutine begins. */
  lemma CancellingIsOverwritten(id: Id)
    ensures exists states: seq<System>, events: seq<Event> :: Trace(states, events) && |events| == 3 && events[1] == CancelAsked(id, 0)
              && id in states[2].runs && states[2].runs[id].status == Cancelling
              && id in states[3].runs && states[3].runs[id].status == Running
  {
    var queued := Record(Queued, None, true);
    var s0 := System(map[], map[], false);
    var s1 := System(map[id := queued], map[id := Thread(Spawned, false)], false);
    var s2 := System(map[id := queued.(status := Cancelling)], map[id := Thread(Spawned, true)], false);
    var s3 := System(map[id := queued.(status := Running)], map[id := Thread(Working, true)], false);
    var states, events := [s0, s1, s2, s3], [Started(0, Some(id), Ok(id)), CancelAsked(id, 0), Begun(id)];
    assert Swept(map[], 0) == map[] && RoomMade(map[], map[]);
    assert Next(s0, events[0], s1) by {
      assert s1.runs == (map[])[id := queued];
    }
    assert Swept(s1.runs, 0) == s1.runs;
    assert Next(s1, events[1], s2);
    assert Next(s2, events[2], s3);
    assert Trace(states, events);
  }
}
