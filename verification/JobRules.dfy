/** What the job machinery accepts and records, stated without the functions that decide it. */
module JobRules {
  import opened Prelude
  import opened Utf8
  import Settings
  import opened ToolResults
  import opened FieldBudget
  import opened ArtifactStore
  import opened ArtifactSpill
  import opened JobLifecycle
  import opened JobStore
  import opened JobScript

  // ---- status changes

  /** A queued job may go anywhere but to success, a running one anywhere but back, an ended one nowhere. */
  predicate MayMove(from: JobStatus, to: JobStatus) {
    || from == to
    || (from == Queued && to != JobStatus.Succeeded)
    || (from == Running && to != Queued)
  }

  predicate Over(s: JobStatus) { s != Queued && s != Running }

  lemma MovesIff(from: JobStatus, to: JobStatus)
    ensures CanTransition(from, to) <==> MayMove(from, to)
    ensures Terminal(to) <==> Over(to)
  {
  }

  /** No time the record carries is later. */
  predicate NotBefore(j: Job, at: int) {
    && j.updatedAt <= at && (j.startedAt.Some? ==> j.startedAt.value <= at)
    && (j.completedAt.Some? ==> j.completedAt.value <= at)
  }

  /** The record a change leaves: first start and first end are stamped, and nothing else is touched. */
  predicate Moved(j: Job, k: Job, to: JobStatus, at: int) {
    && k == j.(status := to, updatedAt := at, startedAt := k.startedAt, completedAt := k.completedAt)
    && (k.startedAt == if to == Running && j.startedAt == None then Some(at) else j.startedAt)
    && (k.completedAt == if Over(to) && j.completedAt == None then Some(at) else j.completedAt)
  }

  /** A change goes through exactly if the move is allowed and no time runs backwards. */
  lemma TransitionSays(j: Job, to: JobStatus, at: int)
    ensures Transition(j, to, at).Some? <==> MayMove(j.status, to) && NotBefore(j, at)
    ensures Transition(j, to, at).Some? ==> Moved(j, Transition(j, to, at).value, to, at)
  {
    MovesIff(j.status, to);
  }

  // ---- what the store accepts

  /**
   * An update is accepted exactly if it builds on the newest event, rewrites neither the creation time nor,
   * without a decision, the policy summary, asks for a cancellation once and only with that event, and
   * changes status and times only together with the event that says so.
   */
  predicate Acceptable(j: Job, k: Job, kind: Kind) {
    && k.latestEvent == j.latestEvent && k.createdAt == j.createdAt && j.updatedAt <= k.updatedAt
    && (k.policySummary != j.policySummary ==> kind.Decided?)
    && (k.cancelRequested != j.cancelRequested <==> kind == CancelRequested)
    && (j.cancelRequested ==> k.cancelRequested)
    && (k.status != j.status <==> kind.Changed?)
    && (if kind.Changed? then
          && kind == Changed(j.status, k.status) && MayMove(j.status, k.status) && NotBefore(j, k.updatedAt)
          && k.startedAt == (if k.status == Running && j.startedAt == None then Some(k.updatedAt) else j.startedAt)
          && k.completedAt == (if Over(k.status) && j.completedAt == None then Some(k.updatedAt) else j.completedAt)
        else k.startedAt == j.startedAt && k.completedAt == j.completedAt)
    && (k.status == Running ==> k.startedAt.Some?) && (Over(k.status) <==> k.completedAt.Some?)
  }

  lemma StoreAcceptsIff(j: Job, k: Job, kind: Kind)
    ensures UpdateOk(Some(j), k, kind) <==> Acceptable(j, k, kind)
    ensures !UpdateOk(None, k, kind)
  {
    hide Transition; hide Terminal;
    MovesIff(j.status, k.status);
    TransitionSays(j, k.status, k.updatedAt);
  }

  /** Of two updates built on the same record, the store takes one: the other is stale from then on. */
  lemma StaleUpdateRefused(j: Job, first: Job, second: Job, e: Event, kind: Kind)
    requires UpdateOk(Some(j), first, e.kind) && second.latestEvent == j.latestEvent && Some(e.id) != j.latestEvent
    ensures !UpdateOk(Some(first.(latestEvent := Some(e.id))), second, kind)
  {
  }

  /** A cancellation is taken while the job is queued or running, once. */
  lemma CancelableIff(job: Job)
    ensures Cancelable(job) <==> !Over(job.status) && !job.cancelRequested
  {
  }

  // ---- what a run records

  /** The limit and media type of the spill that is due, if one is. */
  lemma SpillAskedIff(s: Script)
    ensures SpillOf(s) == None <==>
            s.explicitSpill == None && s.defaults.oversizePolicy != Settings.SpillToArtifactRef
    ensures SpillOf(s).Some? ==>
      var q := SpillOf(s).value;
      && q.scope == s.scope && q.toolId == s.toolId
      && (s.explicitSpill.Some? ==>
            q.max == s.explicitSpill.value.max && q.mediaType == s.explicitSpill.value.mediaType)
      && (s.explicitSpill.None? ==> q.max == s.defaults.maxInlineBytes && q.mediaType == "text/plain; charset=utf-8")
  {
  }

  /** What becomes of one field of a result that is recorded. */
  ghost predicate RecordedAs(s: Script, i: nat, f: ResultField)
    requires i < |s.fields|
  {
    var was := s.fields[i];
    var limit := if s.explicitSpill.Some? then s.explicitSpill.value.max else s.defaults.maxInlineBytes;
    var spills := s.explicitSpill.Some? || s.defaults.oversizePolicy == Settings.SpillToArtifactRef;
    var cuts := s.explicitSpill == None && s.defaults.oversizePolicy == Settings.TruncateWithMetadata;
    if spills && limit > 0 && Oversized(was, limit) then
      f == ResultField(was.key, Str("artifact_ref " + s.nextArtifact(i).uri))
    else if cuts && Oversized(was, limit) then
      && f.key == was.key
      && (was.value.Str? ==> f.value.Str? && LongestPart(was.value.s, f.value.s, limit))
      && (was.value.StrList? ==>
            && f.value.StrList? && Join(f.value.items) <= Join(was.value.items)
            && limit - 4 <= ByteLen(Join(f.value.items)) <= limit)
    else f == was
  }

  /** A result counts as rewritten exactly if some field of it is due for a spill or a cut. */
  lemma RewritesIff(s: Script)
    ensures Rewrites(s) <==>
            exists i | 0 <= i < |s.fields| ::
              if s.explicitSpill.Some? then
                s.explicitSpill.value.max > 0 && Oversized(s.fields[i], s.explicitSpill.value.max)
              else
                && Oversized(s.fields[i], s.defaults.maxInlineBytes)
                && match s.defaults.oversizePolicy
                   case TruncateWithMetadata => true
                   case SpillToArtifactRef => s.defaults.maxInlineBytes > 0
                   case RejectOversize => false
  {
    hide Oversized;
  }

  /** A recorded result has the same fields, each as it was, cut, or replaced by its artifact. */
  lemma RecordedSays(s: Script, i: nat)
    requires i < |s.fields|
    ensures |Recorded(s)| == |s.fields| && RecordedAs(s, i, Recorded(s)[i])
  {
    hide Oversized; hide RuntimeField; hide LongestPart; hide ByteLen; hide Join;
    assert s.Supply()[i] == s.nextArtifact(i);
    if SpillOf(s).None? && s.defaults.oversizePolicy == Settings.TruncateWithMetadata {
      RuntimeFieldKeeps(s.fields[i], s.Limit());
      if Oversized(s.fields[i], s.Limit()) { CutSays(s.fields[i], s.Limit()); }
    }
  }

  /** Why a tool's result is turned away, down to the writes of its artifacts. */
  lemma SpillFailsIff(s: Script)
    ensures SpillFails(s) <==>
            && (s.explicitSpill.Some? || s.defaults.oversizePolicy == Settings.SpillToArtifactRef)
            && var limit := if s.explicitSpill.Some? then s.explicitSpill.value.max else s.defaults.maxInlineBytes;
               limit > 0 && exists i | 0 <= i < |s.fields| && Oversized(s.fields[i], limit) ::
                              var fate := s.disk(s.nextArtifact(i).id);
                              !(fate.write == Indexed && fate.updated)
  {
    hide Oversized; hide Fails;
    if SpillOf(s).Some? {
      FailsIff(SpillOf(s).value, s.fields, s.Supply(), s.disk);
    }
  }
}
