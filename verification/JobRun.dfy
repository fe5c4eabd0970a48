/** Running one tool job: the steps of the runtime against a store that other clients share. */
module JobRun {
  import opened Prelude
  import opened JobLifecycle
  import opened JobScript
  import opened JobStore
  import opened ToolResults

  import ArtifactSpill
  import ArtifactStore
  import FieldBudget
  import RenderSelection
  import Settings

  /** The events of an undisturbed run, grouped as they are persisted. */
  function Batches(s: Script): seq<seq<Kind>> {
    if !Runs(s) then [[Submitted], [Decided(s.outcome)], [Changed(Queued, Blocked)]]
    else
      [[Submitted], [Decided(s.outcome)], [Changed(Queued, Running)], [Invoked]] +
      if FailsEarly(s) then [[Changed(Running, JobStatus.Failed)]]
      else if Strands(s) then []
      else [[ResultRecorded(s.status), AuditRecorded, Changed(Running, TerminalOf(s.status))]]
  }

  function Flat(batches: seq<seq<Kind>>): seq<Kind> {
    var n := |batches| - 1;
    if batches == [] then [] else Flat(batches[..n]) + batches[n]
  }

  function Kinds(events: seq<Event>): (r: seq<Kind>)
    ensures |r| == |events|
  {
    seq(|events|, i requires 0 <= i < |events| => events[i].kind)
  }

  function CancelPair(status: JobStatus): seq<Kind> { [CancelRequested, Changed(status, JobStatus.Canceled)] }

  /** What the log of a run is when the run stops after k batches: that much, and perhaps a cancellation on top. */
  ghost predicate Stopped(store: JobStore, s: Script, k: nat)
    reads store
  {
    && 1 <= k <= |Batches(s)| && store.Valid() && store.job.Some?
    && (if store.canceled then
          exists status :: !Terminal(status) && Kinds(store.events) == Flat(Batches(s)[..k]) + CancelPair(status)
        else Kinds(store.events) == Flat(Batches(s)[..k]))
  }

  /** The run and the store are in step: the local copy is the stored record. */
  ghost predicate Holds(store: JobStore, job: Job, events: seq<Event>, s: Script, k: nat)
    reads store
  {
    && store.Valid() && !store.canceled && !store.ioFailed
    && store.job == Some(job) && store.events == events
    && 1 <= k <= |Batches(s)| && Kinds(events) == Flat(Batches(s)[..k])
  }

  ghost predicate InStep(store: JobStore, job: Job, events: seq<Event>, s: Script, k: nat)
    reads store
  {
    Holds(store, job, events, s, k) && !store.receipt
  }

  lemma KindsMore(events: seq<Event>, more: seq<Event>)
    ensures Kinds(events + more) == Kinds(events) + Kinds(more)
  {
  }

  lemma FlatMore(batches: seq<seq<Kind>>, k: nat)
    requires k < |batches|
    ensures Flat(batches[..k + 1]) == Flat(batches[..k]) + batches[k]
  {
    assert batches[..k + 1][..k] == batches[..k];
  }

  /** A run that is in step, or that another client has just canceled, has stopped legally. */
  method Interfere(store: JobStore, ghost job: Job, ghost events: seq<Event>, ghost s: Script, ghost k: nat)
    requires InStep(store, job, events, s, k)
    modifies store
    ensures store.nextId >= old(store.nextId) && store.clock >= old(store.clock) &&
      store.invocations == old(store.invocations)
    ensures !store.ioFailed && !store.receipt && store.Valid() && Stopped(store, s, k)
    ensures !store.canceled ==> InStep(store, job, events, s, k)
    ensures store.canceled ==>
      store.job.Some? && store.job.value.latestEvent == Some(store.nextId - 1) && old(store.nextId) < store.nextId
  {
    hide Batches;
    hide Agrees;
    hide Flat;
    store.MaybeCancel();
    KindsMore(events, store.events[|events|..]);
    assert store.events == events + store.events[|events|..];
    if store.canceled {
      assert Kinds(store.events) == Flat(Batches(s)[..k]) + CancelPair(job.status);
    }
  }

  lemma NewestEvent(store: JobStore, job: Job, events: seq<Event>, s: Script, k: nat)
    requires InStep(store, job, events, s, k)
    ensures job.latestEvent.Some? && job.latestEvent.value < store.nextId
    ensures WellTimed(job) && job.updatedAt <= store.clock
  {
    hide Batches;
    hide Flat;
    hide StatusOf;
  }

  lemma StillInStep(store: JobStore, job: Job, events: seq<Event>, s: Script, k: nat)
    requires InStep(store, job, events, s, k)
    ensures Stopped(store, s, k)
  {
  }

  /** Persists one event with the record as it now is, unless someone got in first. */
  method Step(
    store: JobStore, job: JobRecord, events: seq<Event>, kind: Kind, ghost base: Job, ghost s: Script, ghost k: nat)
    returns (ok: bool, all: seq<Event>)
    requires InStep(store, base, events, s, k) && k < |Batches(s)| && Batches(s)[k] == [kind] && !kind.Submitted?
    requires job.latestEvent == base.latestEvent && FieldsOk(base, job.Value(), kind) && job.updatedAt <= store.clock
    modifies store, job
    ensures store.invocations == old(store.invocations) && !store.receipt && store.clock >= old(store.clock)
    ensures ok ==>
      && InStep(store, job.Value(), all, s, k + 1)
      && job.Value() == old(job.Value()).(latestEvent := job.latestEvent) && job.createdAt == base.createdAt
    ensures !ok ==> Stopped(store, s, k) && (store.ioFailed || store.canceled)
  {
    hide Batches;
    hide Flat;
    hide Agrees;
    hide LifecycleOk;
    NewestEvent(store, base, events, s, k);
    var e := store.NewEvent(kind);
    Interfere(store, base, events, s, k);
    var r := store.Append(job.Value(), e);
    if r != Stored { return false, events; }
    job.latestEvent := Some(e.id);
    all := events + [e];
    KindsMore(events, [e]);
    assert Kinds([e]) == [kind];
    FlatMore(Batches(s), k);
    ok := true;
  }

  /** How a run leaves: with nothing created, with an error, or with a receipt. */
  datatype Exit = Rejected | Error | Receipt(job: Job, events: seq<Event>, fields: seq<ResultField>)

  /** The fields a receipt carries. */
  function Reported(s: Script): seq<ResultField> { if Runs(s) then Recorded(s) else [] }

  /**
   * What holds of every exit after the job was created, when k batches were persisted: the log is
   * legal, and complete unless a disk step failed or another client canceled; the job is terminal
   * exactly unless the script strands it; a receipt is what the store holds.
   */
  ghost predicate Exits(store: JobStore, s: Script, r: Exit, k: nat)
    reads store
  {
    && Stopped(store, s, k)
    && (!store.ioFailed && !store.canceled ==> k == |Batches(s)|)
    && (!store.ioFailed ==> (Terminal(store.job.value.status) <==> store.canceled || !Strands(s)))
    && (r.Receipt? <==> !store.ioFailed && !store.canceled && Completes(s))
    && (r.Receipt? ==> store.job == Some(r.job) && store.events == r.events && r.fields == Reported(s))
    && !r.Rejected?
  }

  lemma DisturbedExit(store: JobStore, s: Script, k: nat)
    requires Stopped(store, s, k) && (store.ioFailed || store.canceled)
    ensures Exits(store, s, Error, k)
  {
    hide Batches;
    hide Flat;
    hide Agrees;
  }

  lemma FinishedExit(store: JobStore, job: Job, events: seq<Event>, s: Script, r: Exit)
    requires Holds(store, job, events, s, |Batches(s)|)
    requires Terminal(job.status) <==> !Strands(s)
    requires r == if Completes(s) then Receipt(job, events, Reported(s)) else Error
    ensures Exits(store, s, r, |Batches(s)|)
  {
    hide Batches;
    hide Flat;
    hide Agrees;
  }

  /** Marks the job failed. A record that is not based on the newest event is refused. */
  method AppendFailed(
    store: JobStore, job: JobRecord, events: seq<Event>, ghost base: Job, ghost s: Script, ghost k: nat)
    returns (all: seq<Event>)
    requires InStep(store, base, events, s, k) && base.status == Running
    requires job.Value() == base.(latestEvent := job.latestEvent)
    requires job.latestEvent.Some? && job.latestEvent.value < store.nextId
    requires if job.latestEvent == base.latestEvent
             then k + 1 == |Batches(s)| && Batches(s)[k] == [Changed(Running, JobStatus.Failed)] && !Completes(s) &&
               !Strands(s)
             else k == |Batches(s)| && !Completes(s) && Strands(s)
    modifies store, job
    ensures store.invocations == old(store.invocations) && !store.receipt
    ensures Exits(store, s, Error, if store.ioFailed || store.canceled then k else |Batches(s)|)
  {
    hide Batches;
    hide Flat;
    hide Agrees;
    hide FailsEarly;
    hide Strands;
    hide Completes;
    hide Exits;
    NewestEvent(store, base, events, s, k);
    var at := store.Now();
    var moved := job.TransitionStatus(JobStatus.Failed, at);
    TransitionKeepsTimes(base, JobStatus.Failed, at);
    assert moved && FieldsOk(base, job.Value(), Changed(Running, JobStatus.Failed));
    ghost var stale := job.latestEvent != base.latestEvent;
    var e := store.NewEvent(Changed(Running, JobStatus.Failed));
    Interfere(store, base, events, s, k);
    var r := store.Append(job.Value(), e);
    all := events;
    if r == Stored {
      job.latestEvent := Some(e.id);
      all := events + [e];
      KindsMore(events, [e]);
      assert Kinds([e]) == [e.kind];
      FlatMore(Batches(s), k);
      FinishedExit(store, job.Value(), all, s, Error);
    } else if stale && !store.canceled {
      assert r == Conflict;
      FinishedExit(store, base, events, s, Error);
    } else {
      DisturbedExit(store, s, k);
    }
  }

  /** Creates the job and persists the policy decision. */
  method Begin(store: JobStore, s: Script) returns (ok: bool, created: bool, job: JobRecord, events: seq<Event>)
    requires store.Valid() && store.job == None && !store.receipt && !store.ioFailed
    modifies store
    ensures fresh(job)
    ensures store.invocations == old(store.invocations) && !store.receipt && store.Valid()
    ensures ok ==> created && InStep(store, job.Value(), events, s, 2) && job.status == Queued
    ensures !created ==> store.job == None && store.events == [] && store.ioFailed
    ensures created && !ok ==> Exits(store, s, Error, 1)
  {
    hide Batches;
    hide Flat;
    hide Agrees;
    hide FieldsOk;
    hide Exits;
    FirstBatches(s);
    var at := store.Now();
    job := new JobRecord(at);
    var e := store.NewEvent(Submitted);
    var r := store.CreateJob(job.Value(), e);
    if r != Stored { return false, false, job, []; }
    job.latestEvent := Some(e.id);
    events := [e];
    assert Kinds(events) == [Submitted];
    ghost var base := job.Value();
    StillInStep(store, base, events, s, 1);
    NewestEvent(store, base, events, s, 1);
    DecisionFits(base, s.decision, s.outcome);
    var saved := store.Persist();
    if !saved {
      DisturbedExit(store, s, 1);
      return false, true, job, events;
    }
    job.policySummary := Some(s.decision);
    ok, events := Step(store, job, events, Decided(s.outcome), base, s, 1);
    if !ok { DisturbedExit(store, s, 1); }
    created := true;
  }

  lemma DecisionFits(base: Job, decision: nat, outcome: PolicyOutcome)
    requires WellTimed(base)
    ensures FieldsOk(base, base.(policySummary := Some(decision)), Decided(outcome))
  {
  }

  lemma FirstBatches(s: Script)
    ensures |Batches(s)| >= 3 && Batches(s)[0] == [Submitted] && Batches(s)[1] == [Decided(s.outcome)]
    ensures Flat(Batches(s)[..1]) == [Submitted]
  {
    assert Batches(s)[..1] == [[Submitted]];
    assert [[Submitted]][..0] == [];
  }

  /** A job the policy stops: blocked before any tool is touched. */
  method Block(store: JobStore, job: JobRecord, events: seq<Event>, ghost s: Script) returns (r: Exit, ghost k: nat)
    requires InStep(store, job.Value(), events, s, 2) && job.status == Queued && !Runs(s)
    modifies store, job
    ensures store.invocations == old(store.invocations) && !store.receipt
    ensures Exits(store, s, r, k)
  {
    hide Flat;
    hide Agrees;
    hide Exits;
    ghost var base := job.Value();
    NewestEvent(store, base, events, s, 2);
    var at := store.Now();
    var moved := job.TransitionStatus(Blocked, at);
    TransitionKeepsTimes(base, Blocked, at);
    assert moved && FieldsOk(base, job.Value(), Changed(Queued, Blocked));
    var ok, all := Step(store, job, events, Changed(Queued, Blocked), base, s, 2);
    if !ok {
      DisturbedExit(store, s, 2);
      return Error, 2;
    }
    r, k := Receipt(job.Value(), all, []), 3;
    FinishedExit(store, job.Value(), all, s, r);
  }

  lemma RunningBatches(s: Script)
    requires Runs(s)
    ensures |Batches(s)| >= 4 && Batches(s)[2] == [Changed(Queued, Running)] && Batches(s)[3] == [Invoked]
    ensures FailsEarly(s) ==> |Batches(s)| == 5 && Batches(s)[4] == [Changed(Running, JobStatus.Failed)] && !Strands(s)
    ensures Strands(s) ==> |Batches(s)| == 4
    ensures !FailsEarly(s) && !Strands(s) ==>
      |Batches(s)| == 5 && Batches(s)[4] ==
        [ResultRecorded(s.status), AuditRecorded, Changed(Running, TerminalOf(s.status))]
  {
  }

  /** Moves the job to running and records the invocation. */
  method Invoke(store: JobStore, job: JobRecord, events: seq<Event>, ghost s: Script)
    returns (ok: bool, all: seq<Event>, ghost k: nat)
    requires InStep(store, job.Value(), events, s, 2) && job.status == Queued && Runs(s)
    modifies store, job
    ensures !store.receipt
    ensures ok ==>
      && k == 4 && InStep(store, job.Value(), all, s, 4) && job.status == Running
      && store.invocations == old(store.invocations) + 1
    ensures !ok ==> k < 4 && Exits(store, s, Error, k)
  {
    hide Batches;
    hide Flat;
    hide Agrees;
    hide Exits;
    RunningBatches(s);
    ghost var base := job.Value();
    NewestEvent(store, base, events, s, 2);
    var at := store.Now();
    var moved := job.TransitionStatus(Running, at);
    TransitionKeepsTimes(base, Running, at);
    assert moved && FieldsOk(base, job.Value(), Changed(Queued, Running));
    ok, all := Step(store, job, events, Changed(Queued, Running), base, s, 2);
    if !ok {
      DisturbedExit(store, s, 2);
      return false, all, 2;
    }
    ghost var running := job.Value();
    StillInStep(store, running, all, s, 3);
    NewestEvent(store, running, all, s, 3);
    var r := store.CreateInvocation();
    if r != Stored {
      DisturbedExit(store, s, 3);
      return false, all, 3;
    }
    ok, all := Step(store, job, all, Invoked, running, s, 3);
    if !ok {
      DisturbedExit(store, s, 3);
      return false, all, 3;
    }
    k := 4;
  }

  /** Turns the result away before anything of it is recorded. */
  method TurnAway(store: JobStore, job: JobRecord, events: seq<Event>, ghost s: Script) returns (ghost k: nat)
    requires InStep(store, job.Value(), events, s, 4) && job.status == Running && Runs(s) && FailsEarly(s)
    modifies store, job
    ensures store.invocations == old(store.invocations) && !store.receipt
    ensures Exits(store, s, Error, k) && k >= 4
  {
    hide Batches;
    hide Flat;
    hide Agrees;
    hide Exits;
    hide FailsEarly;
    hide Strands;
    RunningBatches(s);
    NewestEvent(store, job.Value(), events, s, 4);
    var _ := AppendFailed(store, job, events, job.Value(), s, 4);
    k := if store.ioFailed || store.canceled then 4 else |Batches(s)|;
  }

  lemma ResultFits(base: Job, status: ResultStatus, at: int)
    requires WellTimed(base) && base.status == Running && base.updatedAt <= at
    ensures ResultOk(Some(base), base, status, at, Changed(Running, TerminalOf(status)))
    ensures Terminal(Ended(base, status, at).value.status)
  {
    TransitionKeepsTimes(base, TerminalOf(status), at);
  }

  /** Records result, audit and final status together, after the finalizer has seen the receipt of a success. */
  method Record(
    store: JobStore, before: Job, final: Job, events: seq<Event>, e: Event, f: Event, g: Event, at: int,
    fields: seq<ResultField>, s: Script)
    returns (r: Exit, ghost k: nat, ghost finalizations: nat)
    requires InStep(store, before, events, s, 4) && before.status == Running && Runs(s) && !FailsEarly(s) && !Strands(s)
    requires e.id < store.nextId && f.id < store.nextId && g.id < store.nextId && before.updatedAt <= at <= store.clock
    requires e.kind == ResultRecorded(s.status) && f.kind == AuditRecorded &&
      g.kind == Changed(Running, TerminalOf(s.status))
    requires fields == Recorded(s)
    requires Ended(before, s.status, at) == Some(final.(latestEvent := before.latestEvent))
    modifies store
    ensures store.invocations == old(store.invocations)
    ensures Exits(store, s, r, k) && k >= 4
    ensures finalizations == if s.status.Succeeded? && s.finalizer.Some? then 1 else 0
    ensures store.receipt <==> r.Receipt? && s.status.Succeeded? && s.finalizer == Some(true)
  {
    hide Batches;
    hide Flat;
    hide Agrees;
    hide FailsEarly;
    hide Strands;
    RunningBatches(s);
    NewestEvent(store, before, events, s, 4);
    ResultFits(before, s.status, at);
    hide ResultOk;
    hide WellTimed;
    hide Transition;
    finalizations := 0;
    var withReceipt := false;
    if TerminalOf(s.status).Succeeded? && s.finalizer.Some? {
      finalizations := finalizations + 1;
      withReceipt := s.finalizer.value;
    }
    Interfere(store, before, events, s, 4);
    var reply := store.RecordResult(before, e, f, g, s.status, at, withReceipt);
    if reply != Stored {
      DisturbedExit(store, s, 4);
      return Error, 4, finalizations;
    }
    var all := events + [e, f, g];
    KindsMore(events, [e, f, g]);
    assert Kinds([e, f, g]) == Batches(s)[4];
    FlatMore(Batches(s), 4);
    r, k := Receipt(final.(latestEvent := Some(g.id)), all, fields), 5;
    FinishedExit(store, r.job, all, s, r);
  }

  /** The artifact store is in order, what it hands out is new, and lengths can be measured. */
  ghost predicate Ready(artifacts: ArtifactStore.LocalArtifactStore, s: Script)
    reads artifacts
  {
    && artifacts.Valid()
    && FieldBudget.Measurable(s.fields, s.Limit())
    && (SpillOf(s).Some? ==>
          ArtifactSpill.Unused(SpillOf(s).value, artifacts.files, artifacts.Rows(SpillOf(s).value.scope), s.Supply()))
  }

  /** Behind every reference of a spilled result is the whole content of its field. */
  ghost predicate ContentKept(artifacts: ArtifactStore.LocalArtifactStore, s: Script)
    reads artifacts
  {
    SpillOf(s).Some? ==>
      var q := SpillOf(s).value;
      forall i: nat | i < |s.fields| && Rewrites(s) && Oversized(s.fields[i], q.max) ::
        ArtifactSpill.ArtifactHolds(q, artifacts.files, artifacts.Rows(q.scope), s.fields[i], s.nextArtifact(i))
  }

  /** The size-limiting step: a spill, a second look at the sizes, or a cut. */
  method Adjust(work: array<ResultField>, artifacts: ArtifactStore.LocalArtifactStore, s: Script)
    returns (ok: bool, rewritten: bool)
    requires work[..] == s.fields && Ready(artifacts, s)
    requires !(s.Rejects() && FieldBudget.AnyOversized(s.fields, s.Limit()))
    modifies work, artifacts
    ensures artifacts.Valid()
    ensures ok <==> !SpillFails(s)
    ensures ok ==> rewritten == Rewrites(s) && work[..] == Recorded(s) && ContentKept(artifacts, s)
  {
    hide Oversized; hide FieldBudget.AnyOversized; hide ArtifactSpill.Unused; hide ArtifactSpill.ArtifactHolds;
    hide ArtifactSpill.Fails; hide ArtifactSpill.Plan; hide ArtifactSpill.SpilledFields; hide FieldBudget.RuntimeFields;
    hide ArtifactSpill.Leftovers; hide ArtifactSpill.LeavesFile; hide ArtifactSpill.LeavesRow;
    hide FieldBudget.CutTotals; hide ArtifactSpill.FailureFrom;
    var q := SpillOf(s);
    if q.Some? {
      assert forall i: nat | i < |s.fields| :: work[i] == s.fields[i];
      var outcome, _, _ := ArtifactSpill.SpillLargeFields(work, [], s.truncation, artifacts, q.value, s.Supply(),
        s.disk);
      assert outcome.Spilled? ==> ContentKept(artifacts, s);
      return !outcome.Failed?, outcome.Spilled?;
    }
    if s.Rejects() {
      var over := FieldBudget.RejectsOversized(work, s.Limit());
      assert !over;
      return true, false;
    }
    if !FieldBudget.AnyOversized(s.fields, s.Limit()) { FieldBudget.RuntimePassKeeps(s.fields, s.Limit()); }
    var report := FieldBudget.TruncateOversizedFields(work, s.Limit());
    return true, report.Some?;
  }

  /** After the tool: checks, the size-limiting step, and the record of the result. */
  method Conclude(
    store: JobStore, artifacts: ArtifactStore.LocalArtifactStore, job: JobRecord, events: seq<Event>, s: Script)
    returns (r: Exit, ghost k: nat, ghost finalizations: nat)
    requires InStep(store, job.Value(), events, s, 4) && job.status == Running && Runs(s)
    requires Ready(artifacts, s)
    modifies store, artifacts, job
    ensures store.invocations == old(store.invocations) && artifacts.Valid()
    ensures Exits(store, s, r, k) && k >= 4
    ensures r.Receipt? ==> ContentKept(artifacts, s)
    ensures finalizations <= 1
    ensures finalizations == 1 ==> s.status.Succeeded? && s.finalizer.Some? && Completes(s)
    ensures store.receipt <==> r.Receipt? && s.status.Succeeded? && s.finalizer == Some(true)
  {
    hide Batches; hide Flat; hide Agrees; hide Exits; hide SpillFails; hide Rewrites; hide Recorded;
    hide RenderSelection.Renders; hide FieldBudget.AnyOversized; hide ContentKept; hide ArtifactSpill.Unused;
    finalizations := 0;
    if !s.resultValid {
      k := TurnAway(store, job, events, s);
      return Error, k, 0;
    }
    var work := new ResultField[|s.fields|](i requires 0 <= i < |s.fields| => s.fields[i]);
    assert work[..] == s.fields;
    if s.Rejects() {
      var over := FieldBudget.RejectsOversized(work, s.Limit());
      if over {
        k := TurnAway(store, job, events, s);
        return Error, k, 0;
      }
    }
    var renders, _, _ := RenderSelection.Render(work[..], s.truncation, s.defaults, s.options);
    if !renders {
      k := TurnAway(store, job, events, s);
      return Error, k, 0;
    }
    var ok, rewritten := Adjust(work, artifacts, s);
    if !ok {
      k := TurnAway(store, job, events, s);
      return Error, k, 0;
    }
    r, k, finalizations := Finish(store, job, events, work[..], rewritten, s);
  }

  /** Builds the closing events, renders a rewritten result again, and records. */
  method Finish(
    store: JobStore, job: JobRecord, events: seq<Event>, fields: seq<ResultField>, rewritten: bool, s: Script)
    returns (r: Exit, ghost k: nat, ghost finalizations: nat)
    requires InStep(store, job.Value(), events, s, 4) && job.status == Running && Runs(s)
    requires !FailsEarly(s) && rewritten == Rewrites(s) && fields == Recorded(s)
    modifies store, job
    ensures store.invocations == old(store.invocations)
    ensures Exits(store, s, r, k) && k >= 4
    ensures finalizations == if s.status.Succeeded? && s.finalizer.Some? && Completes(s) then 1 else 0
    ensures store.receipt <==> r.Receipt? && s.status.Succeeded? && s.finalizer == Some(true)
  {
    hide Batches; hide Flat; hide Agrees; hide FailsEarly; hide Rewrites; hide Recorded; hide RenderSelection.Renders;
    hide Exits;
    RunningBatches(s);
    var before := job.Value();
    NewestEvent(store, before, events, s, 4);
    var e := store.NewEvent(ResultRecorded(s.status));
    var f := store.NewEvent(AuditRecorded);
    job.latestEvent := Some(f.id);
    var at := store.Now();
    var g := store.NewEvent(Changed(job.status, TerminalOf(s.status)));
    if rewritten {
      var rerenders, _, _ := RenderSelection.Render(fields, s.truncation, s.defaults, s.options);
      if !rerenders {
        var _ := AppendFailed(store, job, events, before, s, 4);
        return Error, 4, 0;
      }
    }
    TransitionKeepsTimes(before, TerminalOf(s.status), at);
    var moved := job.TransitionStatus(TerminalOf(s.status), at);
    assert moved && Ended(before, s.status, at) == Some(job.Value().(latestEvent := before.latestEvent));
    r, k, finalizations := Record(store, before, job.Value(), events, e, f, g, at, fields, s);
  }

  /**
   * Runs a tool job. `k` counts the batches persisted; `executions` holds the stored log at every
   * execution of the tool; `finalizations` counts the calls of the idempotency finalizer.
   */
  method RunToolJob(store: JobStore, artifacts: ArtifactStore.LocalArtifactStore, s: Script)
    returns (r: Exit, ghost k: nat, ghost executions: seq<seq<Event>>, ghost finalizations: nat)
    requires store.Valid() && store.job == None && store.invocations == 0 && !store.receipt && !store.ioFailed
    requires Ready(artifacts, s)
    modifies store, artifacts
    ensures store.Valid() && artifacts.Valid()
    ensures k == 0 ==> r == Rejected && store.job == None && store.events == [] && (!s.requestOk || store.ioFailed)
    ensures k > 0 ==> s.requestOk && Exits(store, s, r, k)
    ensures |executions| <= 1
    ensures forall log | log in executions ::
      Runs(s) && store.invocations == 1 && k >= 4 &&
      Kinds(log) == [Submitted, Decided(s.outcome), Changed(Queued, Running), Invoked]
    ensures |executions| == 1 <==> Runs(s) && k >= 4
    ensures executions != [] ==> s.outcome == Allowed || s.outcome == Audited
    ensures finalizations <= 1
    ensures finalizations == 1 ==> |executions| == 1 && s.status.Succeeded? && s.finalizer.Some? && Completes(s)
    ensures store.receipt <==> r.Receipt? && Runs(s) && s.status.Succeeded? && s.finalizer == Some(true)
    ensures r.Receipt? && Runs(s) ==> ContentKept(artifacts, s)
    ensures k > 0 && !store.ioFailed && !store.canceled ==>
      && (Terminal(store.job.value.status) <==> !OverflowsOnSpill(s))
      && EndsAs(store, s, r, |executions|)
  {
    hide Batches; hide Flat; hide Agrees; hide FailsEarly; hide Strands; hide OverflowsOnSpill;
    hide Recorded; hide ContentKept; hide Ready; hide EndsAs;
    StrandsIff(s);
    ReadyIsValid(artifacts, s);
    CompleteLog(s);
    k, executions, finalizations := 0, [], 0;
    if !s.requestOk { return Rejected, 0, [], 0; }
    var ok, created, job, events := Begin(store, s);
    if !created { return Rejected, 0, [], 0; }
    if !ok { return Error, 1, [], 0; }
    if !Runs(s) {
      r, k := Block(store, job, events, s);
      if !store.ioFailed && !store.canceled { UndisturbedExit(store, s, r, k); }
      return;
    }
    ok, events, k := Invoke(store, job, events, s);
    if !ok { return Error, k, [], 0; }
    executions := executions + [store.events];
    InvokedLog(s);
    r, k, finalizations := Conclude(store, artifacts, job, events, s);
    if !store.ioFailed && !store.canceled { UndisturbedExit(store, s, r, k); }
  }

  lemma ReadyIsValid(artifacts: ArtifactStore.LocalArtifactStore, s: Script)
    requires Ready(artifacts, s)
    ensures artifacts.Valid()
  {
  }

  lemma InvokedLog(s: Script)
    requires Runs(s)
    ensures Flat(Batches(s)[..4]) == [Submitted, Decided(s.outcome), Changed(Queued, Running), Invoked]
  {
    FirstBatches(s);
    RunningBatches(s);
    hide Batches;
    hide Flat;
    FlatMore(Batches(s), 1);
    FlatMore(Batches(s), 2);
    FlatMore(Batches(s), 3);
  }

  // ---- how an undisturbed run ends

  /** The tool's result is turned away: not its own, too large to be accepted, or not to be spilled. */
  ghost predicate TurnedAway(s: Script) {
    || !s.resultValid
    || (s.defaults.oversizePolicy == Settings.RejectOversize &&
        exists i | 0 <= i < |s.fields| :: Oversized(s.fields[i], s.defaults.maxInlineBytes))
    || SpillFails(s)
  }

  /** How a run that nothing disturbs ends, by the policy's outcome and the tool's result. */
  ghost predicate EndsAs(store: JobStore, s: Script, r: Exit, executions: nat)
    reads store
  {
    var status := if store.job.Some? then store.job.value.status else Queued;
    var begun := [Submitted, Decided(s.outcome)];
    var invoked := begun + [Changed(Queued, Running), Invoked];
    if s.outcome == NeedsApproval || s.outcome == BlockedByPolicy then
      && r.Receipt? && r.fields == [] && executions == 0 && store.invocations == 0 && status == Blocked
      && Kinds(store.events) == begun + [Changed(Queued, Blocked)]
    else
      && executions == 1 && store.invocations == 1
      && (if TurnedAway(s) then
            r == Error && status == JobStatus.Failed
            && Kinds(store.events) == invoked + [Changed(Running, JobStatus.Failed)]
          else if OverflowsOnSpill(s) then
            r == Error && status == Running && Kinds(store.events) == invoked
          else
            && r.Receipt? && r.fields == Recorded(s)
            && (s.status == ResultStatus.Succeeded ==> status == JobStatus.Succeeded)
            && (s.status == ResultStatus.Failed || s.status == ResultStatus.TimedOut ==> status == JobStatus.Failed)
            && (s.status == ResultStatus.Canceled ==> status == JobStatus.Canceled)
            && Kinds(store.events) == invoked + [ResultRecorded(s.status), AuditRecorded, Changed(Running, status)])
  }

  lemma TurnedAwayIff(s: Script)
    ensures FailsEarly(s) <==> TurnedAway(s)
  {
    hide SpillFails; hide RenderSelection.Renders; hide Oversized;
    if !(s.Rejects() && FieldBudget.AnyOversized(s.fields, s.Limit())) { FirstRenderingWorks(s); }
  }

  lemma CompleteLog(s: Script)
    ensures !Runs(s) ==>
              Flat(Batches(s)) == [Submitted, Decided(s.outcome), Changed(Queued, Blocked)] && |Batches(s)| == 3
    ensures Runs(s) ==>
              Flat(Batches(s)) ==
              [Submitted, Decided(s.outcome), Changed(Queued, Running), Invoked] +
              if FailsEarly(s) then [Changed(Running, JobStatus.Failed)]
              else if Strands(s) then []
              else [ResultRecorded(s.status), AuditRecorded, Changed(Running, TerminalOf(s.status))]
    ensures Runs(s) ==> (|Batches(s)| == if Strands(s) then 4 else 5) && !(FailsEarly(s) && Strands(s))
  {
    hide FailsEarly; hide Strands; hide Flat;
    FirstBatches(s);
    assert Batches(s)[..|Batches(s)|] == Batches(s);
    if Runs(s) {
      RunningBatches(s);
      InvokedLog(s);
      assert !Strands(s) ==> |Batches(s)| == 5;
      if !Strands(s) { FlatMore(Batches(s), 4); }
    } else {
      FlatMore(Batches(s), 1);
      FlatMore(Batches(s), 2);
    }
  }

  lemma UndisturbedExit(store: JobStore, s: Script, r: Exit, k: nat)
    requires Exits(store, s, r, k) && !store.ioFailed && !store.canceled
    requires store.invocations == if Runs(s) then 1 else 0
    ensures EndsAs(store, s, r, if Runs(s) then 1 else 0)
  {
    hide Batches; hide Flat; hide FailsEarly; hide Strands; hide TurnedAway; hide OverflowsOnSpill; hide Recorded;
    hide StatusOf; hide WellTimed;
    CompleteLog(s);
    TurnedAwayIff(s);
    StrandsIff(s);
    assert Batches(s)[..|Batches(s)|] == Batches(s);
    LogAddsUp(store.events, s, |Batches(s)|);
    var begun := [Submitted, Decided(s.outcome)];
    assert [Submitted, Decided(s.outcome), Changed(Queued, Running), Invoked] ==
           begun + [Changed(Queued, Running), Invoked];
    assert [Submitted, Decided(s.outcome), Changed(Queued, Blocked)] == begun + [Changed(Queued, Blocked)];
  }

  // ---- what the legal logs add up to

  /** The status after k batches. */
  function StatusAt(s: Script, k: nat): JobStatus {
    if k <= 2 then Queued
    else if !Runs(s) then Blocked
    else if k <= 4 then Running
    else if FailsEarly(s) then JobStatus.Failed
    else TerminalOf(s.status)
  }

  lemma StatusNext(events: seq<Event>, e: Event)
    requires events != [] && StatusOf(events).Some? && !e.kind.Submitted?
    ensures StatusOf(events + [e]) ==
            if !e.kind.Changed? then StatusOf(events)
            else if e.kind.from == StatusOf(events).value && e.kind.from != e.kind.to &&
              CanTransition(e.kind.from, e.kind.to)
            then Some(e.kind.to) else None
  {
    assert (events + [e])[..|events|] == events;
  }

  /** Each batch takes a log that adds up to the status before it to one that adds up to the status after it. */
  lemma BatchAddsUp(events: seq<Event>, more: seq<Event>, s: Script, k: nat)
    requires 1 <= k < |Batches(s)| && events != [] && StatusOf(events) == Some(StatusAt(s, k)) &&
      Kinds(more) == Batches(s)[k]
    ensures StatusOf(events + more) == Some(StatusAt(s, k + 1))
  {
    hide StatusOf;
    assert forall i | 0 <= i < |more| :: more[i].kind == Kinds(more)[i];
    StatusNext(events, more[0]);
    if |more| == 1 {
      assert more == [more[0]];
    } else {
      StatusNext(events + [more[0]], more[1]);
      StatusNext(events + [more[0]] + [more[1]], more[2]);
      assert events + more == events + [more[0]] + [more[1]] + [more[2]];
    }
  }

  lemma {:induction false} LogAddsUp(events: seq<Event>, s: Script, k: nat)
    requires 1 <= k <= |Batches(s)| && Kinds(events) == Flat(Batches(s)[..k])
    ensures StatusOf(events) == Some(StatusAt(s, k))
    decreases k
  {
    if k == 1 {
      FirstBatches(s);
      assert events[0].kind == Kinds(events)[0];
    } else {
      var n := |Flat(Batches(s)[..k - 1])|;
      FlatMore(Batches(s), k - 1);
      var first, more := events[..n], events[n..];
      KindsMore(first, more);
      assert events == first + more;
      assert Kinds(first) == Kinds(events)[..n] && Kinds(more) == Kinds(events)[n..];
      LogAddsUp(first, s, k - 1);
      hide Batches;
      BatchAddsUp(first, more, s, k - 1);
    }
  }

  /** A run ends the job once if it is complete and not stranded, and otherwise not at all. */
  lemma RunsEndOnce(events: seq<Event>, s: Script, k: nat)
    requires 1 <= k <= |Batches(s)| && Kinds(events) == Flat(Batches(s)[..k])
    ensures Endings(events) == if k == |Batches(s)| && !Strands(s) then 1 else 0
  {
    LogAddsUp(events, s, k);
    OneEnding(events);
  }

  /** A canceled run was canceled from the status it had reached, before it ended, and ends once, as canceled. */
  lemma CanceledRunsEndOnce(events: seq<Event>, s: Script, k: nat, status: JobStatus)
    requires 1 <= k <= |Batches(s)| && Kinds(events) == Flat(Batches(s)[..k]) + CancelPair(status)
    requires StatusOf(events).Some?
    ensures status == StatusAt(s, k) && (k < |Batches(s)| || Strands(s))
    ensures StatusOf(events) == Some(JobStatus.Canceled) && Endings(events) == 1
  {
    var n := |Flat(Batches(s)[..k])|;
    var first, e, f := events[..n], events[n], events[n + 1];
    assert Kinds(first) == Kinds(events)[..n];
    assert e.kind == Kinds(events)[n] && f.kind == Kinds(events)[n + 1];
    assert events == first + [e] + [f];
    LogAddsUp(first, s, k);
    StatusNext(first, e);
    StatusNext(first + [e], f);
    OneEnding(events);
  }

  /** How a stranded script exits when nothing disturbs it. */
  lemma StrandedExit(store: JobStore, s: Script, r: Exit, k: nat)
    requires Strands(s) && Exits(store, s, r, k) && !store.ioFailed && !store.canceled
    ensures r == Error && k == 4 && store.job.value.status == Running
    ensures Kinds(store.events) == [Submitted, Decided(s.outcome), Changed(Queued, Running), Invoked]
  {
    assert Runs(s) && !Completes(s);
    hide Batches; hide Flat; hide FailsEarly; hide Strands; hide Completes; hide StatusOf; hide WellTimed;
    RunningBatches(s);
    InvokedLog(s);
    LogAddsUp(store.events, s, 4);
  }

  /** The stranded script, run: unless a disk step fails or someone cancels, the job is left running. */
  method RunStranded(store: JobStore, artifacts: ArtifactStore.LocalArtifactStore)
    returns (r: Exit, ghost executions: seq<seq<Event>>)
    requires store.Valid() && store.job == None && store.invocations == 0 && !store.receipt && !store.ioFailed
    requires artifacts.Valid() && artifacts.files == map[] && artifacts.index == map[]
    modifies store, artifacts
    ensures !store.ioFailed && !store.canceled ==>
      && r == Error && store.job.Some? && store.job.value.status == Running && |executions| == 1
      && Kinds(store.events) == [Submitted, Decided(Allowed), Changed(Queued, Running), Invoked]
  {
    hide *;
    StrandedRunExists();
    StrandedReady(artifacts);
    StrandedFlags();
    ghost var k, finalizations;
    r, k, executions, finalizations := RunToolJob(store, artifacts, STRANDED);
    if !store.ioFailed && !store.canceled { StrandedExit(store, STRANDED, r, k); }
    ExitHasJob(store, STRANDED, r, k);
  }

  lemma ExitHasJob(store: JobStore, s: Script, r: Exit, k: nat)
    ensures Exits(store, s, r, k) ==> store.job.Some?
  {
  }

  lemma StrandedFlags()
    ensures STRANDED.requestOk && STRANDED.outcome == Allowed && Runs(STRANDED)
  {
  }

  lemma StrandedReady(artifacts: ArtifactStore.LocalArtifactStore)
    requires artifacts.Valid() && artifacts.files == map[] && artifacts.index == map[]
    ensures Ready(artifacts, STRANDED)
  {
  }
}
