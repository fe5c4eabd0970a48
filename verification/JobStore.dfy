/** What the store keeps of one job: the materialized record, its event log, and its idempotency receipt. */
module JobStore {
  import opened Prelude
  import opened JobLifecycle
  import opened ToolResults

  datatype PolicyOutcome = Allowed | Audited | NeedsApproval | BlockedByPolicy

  datatype Kind =
    | Submitted
    | Decided(outcome: PolicyOutcome)
    | Changed(from: JobStatus, to: JobStatus)
    | Invoked
    | ResultRecorded(status: ResultStatus)
    | AuditRecorded
    | CancelRequested

  datatype Event = Event(id: nat, kind: Kind)

  // ---- what the store checks

  predicate LifecycleOk(existing: Job, record: Job, kind: Kind) {
    && existing.updatedAt <= record.updatedAt
    && (if record.status != existing.status then
          && kind == Changed(existing.status, record.status)
          && var expected := Transition(existing, record.status, record.updatedAt);
             expected.Some? && record.startedAt == expected.value.startedAt &&
               record.completedAt == expected.value.completedAt
        else
          !kind.Changed? && record.startedAt == existing.startedAt && record.completedAt == existing.completedAt)
    && (record.status.Running? ==> record.startedAt.Some?)
    && (Terminal(record.status) <==> record.completedAt.Some?)
  }

  predicate CancellationOk(existing: Job, record: Job, kind: Kind) {
    if record.cancelRequested == existing.cancelRequested then !kind.CancelRequested?
    else !existing.cancelRequested && kind.CancelRequested?
  }

  predicate PolicyOk(existing: Job, record: Job, kind: Kind) {
    record.policySummary == existing.policySummary || kind.Decided?
  }

  predicate FieldsOk(existing: Job, record: Job, kind: Kind) {
    && record.createdAt == existing.createdAt
    && LifecycleOk(existing, record, kind) && CancellationOk(existing, record, kind) && PolicyOk(existing, record, kind)
  }

  /** An update must be based on the newest event and be a legal step from the stored record. */
  predicate UpdateOk(stored: Option<Job>, record: Job, kind: Kind) {
    stored.Some? && record.latestEvent == stored.value.latestEvent && FieldsOk(stored.value, record, kind)
  }

  // ---- what an event log says

  /** The status a log adds up to; none if some change does not start from the status reached. */
  function StatusOf(events: seq<Event>): Option<JobStatus> {
    var n := |events| - 1;
    if events == [] then None
    else if n == 0 then if events[0].kind.Submitted? then Some(Queued) else None
    else
      var before := StatusOf(events[..n]);
      if before.None? || events[n].kind.Submitted? then None
      else if !events[n].kind.Changed? then before
      else if events[n].kind.from == before.value && events[n].kind.from != events[n].kind.to
              && CanTransition(events[n].kind.from, events[n].kind.to)
      then Some(events[n].kind.to) else None
  }

  /** How many events end the job. */
  function Endings(events: seq<Event>): nat {
    var n := |events| - 1;
    if events == [] then 0
    else Endings(events[..n]) + if events[n].kind.Changed? && Terminal(events[n].kind.to) then 1 else 0
  }

  /** The stored record is what its log says, and is well timed. */
  predicate Agrees(job: Job, events: seq<Event>) {
    && WellTimed(job)
    && events != [] && job.latestEvent == Some(events[|events| - 1].id)
    && StatusOf(events) == Some(job.status)
  }

  /** A log that adds up ends the job once if its status is terminal, and otherwise not at all. */
  lemma {:induction false} OneEnding(events: seq<Event>)
    requires StatusOf(events).Some?
    ensures Endings(events) == if Terminal(StatusOf(events).value) then 1 else 0
  {
    if |events| > 1 { OneEnding(events[..|events| - 1]); }
    else { assert Endings(events[..0]) == 0; }
  }

  /** Every update the store accepts keeps record and log in agreement. */
  lemma UpdateKeepsAgreement(job: Job, events: seq<Event>, record: Job, e: Event)
    requires Agrees(job, events) && UpdateOk(Some(job), record, e.kind) && !e.kind.Submitted?
    ensures Agrees(record.(latestEvent := Some(e.id)), events + [e])
  {
    assert (events + [e])[..|events|] == events;
    if record.status != job.status {
      TransitionKeepsTimes(job, record.status, record.updatedAt);
    }
  }

  function TerminalOf(status: ResultStatus): JobStatus {
    match status
    case Succeeded => JobStatus.Succeeded
    case Failed => JobStatus.Failed
    case TimedOut => JobStatus.Failed
    case Canceled => JobStatus.Canceled
  }

  /** The record a tool result ends with. */
  function Ended(record: Job, status: ResultStatus, at: int): Option<Job> { Transition(record, TerminalOf(status), at) }

  predicate ResultOk(stored: Option<Job>, record: Job, status: ResultStatus, at: int, end: Kind) {
    && UpdateOk(stored, record, ResultRecorded(status)) && UpdateOk(stored, record, AuditRecorded)
    && Ended(record, status, at).Some? && FieldsOk(record, Ended(record, status, at).value, end)
  }

  lemma ResultKeepsAgreement(job: Job, events: seq<Event>, record: Job, e: Event, f: Event, g: Event,
    status: ResultStatus, at: int)
    requires Agrees(job, events) && ResultOk(Some(job), record, status, at, g.kind)
    requires e.kind == ResultRecorded(status) && f.kind == AuditRecorded && !g.kind.Submitted?
    ensures Agrees(Ended(record, status, at).value.(latestEvent := Some(g.id)), events + [e, f, g])
  {
    hide StatusOf;
    var first := record.(latestEvent := Some(e.id));
    UpdateKeepsAgreement(job, events, record, e);
    UpdateKeepsAgreement(first, events + [e], first, f);
    var second := record.(latestEvent := Some(f.id));
    var final := Ended(record, status, at).value.(latestEvent := Some(f.id));
    UpdateKeepsAgreement(second, events + [e] + [f], final, g);
    assert events + [e] + [f] + [g] == events + [e, f, g];
  }

  /** A cancellation: the request and the change it causes. */
  predicate Cancelable(job: Job) { (job.status.Queued? || job.status.Running?) && !job.cancelRequested }

  function CanceledJob(job: Job, at: int): Option<Job> {
    Transition(job.(cancelRequested := true), JobStatus.Canceled, at)
  }

  lemma CancelKeepsAgreement(job: Job, events: seq<Event>, at: int, e: Event, f: Event)
    requires Agrees(job, events) && Cancelable(job) && job.updatedAt <= at
    requires e.kind == CancelRequested && f.kind == Changed(job.status, JobStatus.Canceled)
    ensures CanceledJob(job, at).Some?
    ensures Agrees(CanceledJob(job, at).value.(latestEvent := Some(f.id)), events + [e, f])
  {
    hide StatusOf;
    var asked := job.(cancelRequested := true);
    UpdateKeepsAgreement(job, events, asked, e);
    var first := asked.(latestEvent := Some(e.id));
    var final := CanceledJob(job, at).value.(latestEvent := Some(e.id));
    UpdateKeepsAgreement(first, events + [e], final, f);
    assert events + [e] + [f] == events + [e, f];
  }

  /** What a cancellation leaves of the record: it is over as of now, and everything else is kept. */
  lemma CanceledSays(job: Job, at: int)
    requires WellTimed(job) && Cancelable(job) && job.updatedAt <= at
    ensures CanceledJob(job, at) ==
            Some(job.(status := JobStatus.Canceled, cancelRequested := true, updatedAt := at, completedAt := Some(at)))
  {
  }

  datatype Reply = Stored | Conflict | IoError

  class JobStore {
    var job: Option<Job>
    var events: seq<Event>
    var invocations: nat
    /** Whether an idempotency receipt was stored with the job. */
    var receipt: bool
    /** The source of fresh event ids, and a clock that never runs backwards. */
    var nextId: nat
    var clock: int
    /** Whether some disk step failed, and whether another client canceled the job. */
    ghost var ioFailed: bool
    ghost var canceled: bool

    constructor (now: int)
      ensures Valid() && job == None && events == [] && invocations == 0 && !receipt && !ioFailed && !canceled
    {
      job, events, invocations, receipt, nextId, clock, ioFailed, canceled := None, [], 0, false, 0, now, false, false;
    }

    ghost predicate Valid()
      reads this
    {
      && (job.None? ==> events == [] && !canceled)
      && (job.Some? ==> Agrees(job.value, events) && job.value.updatedAt <= clock)
      && (forall i | 0 <= i < |events| :: events[i].id < nextId)
      && (canceled ==> job.Some? && job.value.status == JobStatus.Canceled)
      && (receipt ==> job.Some? && job.value.status == JobStatus.Succeeded)
    }

    method Now() returns (t: int)
      modifies this`clock
      ensures t == clock && old(clock) <= clock
    {
      var reading: int := *;
      if reading > clock { clock := reading; }
      return clock;
    }

    method NewEvent(kind: Kind) returns (e: Event)
      modifies this`nextId
      ensures e == Event(old(nextId), kind) && nextId == old(nextId) + 1
    {
      e := Event(nextId, kind);
      nextId := nextId + 1;
    }

    /** A write to the disk may fail. */
    method Persist() returns (ok: bool)
      modifies this`ioFailed
      ensures ok ==> ioFailed == old(ioFailed)
      ensures !ok ==> ioFailed
    {
      if * {
        ioFailed := true;
        return false;
      }
      return true;
    }

    method CreateJob(record: Job, e: Event) returns (r: Reply)
      requires Valid() && job == None && WellTimed(record) && record.status == Queued && e.kind == Submitted
      requires e.id < nextId && record.updatedAt <= clock
      modifies this
      ensures Valid()
      ensures nextId == old(nextId) && clock == old(clock) && canceled == old(canceled)
      ensures receipt == old(receipt) && invocations == old(invocations)
      ensures r != Conflict
      ensures r == Stored ==>
        job == Some(record.(latestEvent := Some(e.id))) && events == [e] && ioFailed == old(ioFailed)
      ensures r != Stored ==> job == None && events == [] && ioFailed
    {
      var ok := Persist();
      if !ok { return IoError; }
      job, events := Some(record.(latestEvent := Some(e.id))), [e];
      return Stored;
    }

    method CreateInvocation() returns (r: Reply)
      requires Valid()
      modifies this`invocations, this`ioFailed
      ensures Valid() && r != Conflict
      ensures invocations == if r == Stored then old(invocations) + 1 else old(invocations)
      ensures if r == Stored then ioFailed == old(ioFailed) else ioFailed
    {
      var ok := Persist();
      if !ok { return IoError; }
      invocations := invocations + 1;
      return Stored;
    }

    /** Appends one event and replaces the record, if the update is current and legal. */
    method Append(record: Job, e: Event) returns (r: Reply)
      requires Valid() && e.id < nextId && record.updatedAt <= clock && !e.kind.Submitted?
      modifies this
      ensures Valid()
      ensures nextId == old(nextId) && clock == old(clock) && canceled == old(canceled)
      ensures receipt == old(receipt) && invocations == old(invocations)
      ensures r == Conflict <==> !UpdateOk(old(job), record, e.kind)
      ensures r == Stored ==> job == Some(record.(latestEvent := Some(e.id))) && events == old(events) + [e]
      ensures r != Stored ==> job == old(job) && events == old(events)
      ensures if r == IoError then ioFailed else ioFailed == old(ioFailed)
    {
      if !UpdateOk(job, record, e.kind) { return Conflict; }
      var ok := Persist();
      if !ok { return IoError; }
      UpdateKeepsAgreement(job.value, events, record, e);
      job, events := Some(record.(latestEvent := Some(e.id))), events + [e];
      return Stored;
    }

    /** Appends the result, the audit and the final change in one step, or nothing. */
    method RecordResult(record: Job, e: Event, f: Event, g: Event, status: ResultStatus, at: int, withReceipt: bool)
      returns (r: Reply)
      requires Valid() && e.id < nextId && f.id < nextId && g.id < nextId && at <= clock
      requires e.kind == ResultRecorded(status) && f.kind == AuditRecorded && !g.kind.Submitted?
      requires withReceipt ==> status.Succeeded?
      modifies this
      ensures Valid()
      ensures nextId == old(nextId) && clock == old(clock) && canceled == old(canceled) &&
        invocations == old(invocations)
      ensures r == Conflict <==> !ResultOk(old(job), record, status, at, g.kind)
      ensures r == Stored ==>
        && job == Some(Ended(record, status, at).value.(latestEvent := Some(g.id)))
        && events == old(events) + [e, f, g] && receipt == (old(receipt) || withReceipt)
      ensures r != Stored ==> job == old(job) && events == old(events) && receipt == old(receipt)
      ensures if r == IoError then ioFailed else ioFailed == old(ioFailed)
    {
      hide StatusOf;
      hide WellTimed;
      if !ResultOk(job, record, status, at, g.kind) { return Conflict; }
      var ok := Persist();
      if !ok { return IoError; }
      ResultKeepsAgreement(job.value, events, record, e, f, g, status, at);
      job, events := Some(Ended(record, status, at).value.(latestEvent := Some(g.id))), events + [e, f, g];
      receipt := receipt || withReceipt;
      return Stored;
    }

    /** Another client may cancel the job here, if it can still be canceled. */
    method MaybeCancel()
      requires Valid()
      modifies this
      ensures Valid() && old(nextId) <= nextId && old(clock) <= clock && ioFailed == old(ioFailed)
      ensures invocations == old(invocations) && receipt == old(receipt)
      ensures canceled == old(canceled) ==> job == old(job) && events == old(events)
      ensures canceled != old(canceled) ==>
        && canceled && old(job).Some? && Cancelable(old(job).value)
        && job == Some(old(job).value.(status := JobStatus.Canceled, cancelRequested := true, updatedAt := clock,
                                       completedAt := Some(clock), latestEvent := Some(nextId - 1)))
        && old(nextId) < nextId
        && events == old(events) + [Event(nextId - 2, CancelRequested),
                                    Event(nextId - 1, Changed(old(job).value.status, JobStatus.Canceled))]
    {
      hide StatusOf;
      hide WellTimed;
      var wanted: bool := *;
      if !wanted || job.None? || !Cancelable(job.value) { return; }
      var e := NewEvent(CancelRequested);
      var at := Now();
      var f := NewEvent(Changed(job.value.status, JobStatus.Canceled));
      CancelKeepsAgreement(job.value, events, at, e, f);
      CanceledSays(job.value, at);
      var final := CanceledJob(job.value, at);
      job, events, canceled := Some(final.value.(latestEvent := Some(f.id))), events + [e, f], true;
    }
  }
}
