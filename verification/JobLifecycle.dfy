/** Job records: the status machine and the timestamps that go with it. */
module JobLifecycle {
  import opened Prelude

  datatype JobStatus = Queued | Running | Succeeded | Failed | Blocked | Canceled

  predicate Terminal(s: JobStatus) {
    s.Succeeded? || s.Failed? || s.Blocked? || s.Canceled?
  }

  predicate CanTransition(from: JobStatus, to: JobStatus) {
    from == to ||
    match from
    case Queued => to.Running? || to.Failed? || to.Blocked? || to.Canceled?
    case Running => to.Succeeded? || to.Failed? || to.Blocked? || to.Canceled?
    case _ => false
  }

  /** A job record as a value; events are known by number. */
  datatype Job = Job(
    createdAt: int,
    updatedAt: int,
    startedAt: Option<int>,
    completedAt: Option<int>,
    status: JobStatus,
    policySummary: Option<nat>,
    cancelRequested: bool,
    latestEvent: Option<nat>)

  /** created <= started <= completed <= updated; completed exactly if terminal; started if running. */
  predicate WellTimed(j: Job) {
    && j.createdAt <= j.updatedAt
    && (j.startedAt.Some? ==> j.createdAt <= j.startedAt.value <= j.updatedAt)
    && (j.completedAt.Some? ==> j.createdAt <= j.completedAt.value <= j.updatedAt)
    && (j.startedAt.Some? && j.completedAt.Some? ==> j.startedAt.value <= j.completedAt.value)
    && (j.completedAt.Some? <==> Terminal(j.status))
    && (j.status.Running? ==> j.startedAt.Some?)
  }

  function Later(a: int, b: Option<int>): int {
    if b.Some? && b.value > a then b.value else a
  }

  /** The newest timestamp a record carries. */
  function LatestTime(j: Job): int {
    Later(Later(j.updatedAt, j.startedAt), j.completedAt)
  }

  function Transition(j: Job, next: JobStatus, at: int): Option<Job> {
    if !CanTransition(j.status, next) || at < LatestTime(j) then None
    else Some(j.(status := next, updatedAt := at,
                 startedAt := if next.Running? && j.startedAt.None? then Some(at) else j.startedAt,
                 completedAt := if Terminal(next) && j.completedAt.None? then Some(at) else j.completedAt))
  }

  /** A transition succeeds exactly if the table allows it and time does not run backwards; it keeps the timestamps
      in order. */
  lemma TransitionKeepsTimes(j: Job, next: JobStatus, at: int)
    requires WellTimed(j)
    ensures Transition(j, next, at).Some? <==> CanTransition(j.status, next) && j.updatedAt <= at
    ensures Transition(j, next, at).Some? ==>
              var k := Transition(j, next, at).value;
              && WellTimed(k) && k.status == next && k.updatedAt == at && k.createdAt == j.createdAt
              && (j.startedAt.Some? ==> k.startedAt == j.startedAt)
  {
  }

  /** A record moved through a list of attempted transitions; refused ones leave it alone. */
  function Attempts(j: Job, steps: seq<(JobStatus, int)>): Job
    decreases |steps|
  {
    if steps == [] then j
    else
      var before := Attempts(j, steps[..|steps| - 1]);
      var step := steps[|steps| - 1];
      match Transition(before, step.0, step.1)
      case None => before
      case Some(k) => k
  }

  /** Whatever is attempted: times stay in order, and a terminal status with its times never changes again. */
  lemma {:induction false} LifecycleHolds(j: Job, steps: seq<(JobStatus, int)>)
    requires WellTimed(j)
    ensures var k := Attempts(j, steps);
            && WellTimed(k) && j.updatedAt <= k.updatedAt
            && (j.startedAt.Some? ==> k.startedAt == j.startedAt)
            && (Terminal(j.status) ==>
                  k.status == j.status && k.completedAt == j.completedAt && k.startedAt == j.startedAt)
    decreases |steps|
  {
    if steps == [] {
    } else {
      var n := |steps| - 1;
      LifecycleHolds(j, steps[..n]);
      TransitionKeepsTimes(Attempts(j, steps[..n]), steps[n].0, steps[n].1);
    }
  }

  /** A job record as the runtime holds and changes it. */
  class JobRecord {
    const createdAt: int
    var updatedAt: int
    var startedAt: Option<int>
    var completedAt: Option<int>
    var status: JobStatus
    var policySummary: Option<nat>
    var cancelRequested: bool
    var latestEvent: Option<nat>

    constructor (at: int)
      ensures Value() == Job(at, at, None, None, Queued, None, false, None)
    {
      createdAt, updatedAt, startedAt, completedAt := at, at, None, None;
      status, policySummary, cancelRequested, latestEvent := Queued, None, false, None;
    }

    function Value(): Job
      reads this
    {
      Job(createdAt, updatedAt, startedAt, completedAt, status, policySummary, cancelRequested, latestEvent)
    }

    method TransitionStatus(next: JobStatus, at: int) returns (ok: bool)
      modifies this
      ensures ok <==> Transition(old(Value()), next, at).Some?
      ensures Value() == if ok then Transition(old(Value()), next, at).value else old(Value())
    {
      if !CanTransition(status, next) { return false; }
      var latest := updatedAt;
      if startedAt.Some? && startedAt.value > latest { latest := startedAt.value; }
      if completedAt.Some? && completedAt.value > latest { latest := completedAt.value; }
      if at < latest { return false; }
      status := next;
      updatedAt := at;
      if next.Running? && startedAt.None? { startedAt := Some(at); }
      if Terminal(next) && completedAt.None? { completedAt := Some(at); }
      return true;
    }
  }
}
