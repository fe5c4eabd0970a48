/** The registry as the program keeps it: five collections updated in place. Each method is proved
    to do to the snapshot exactly what the corresponding function of `RegistrySpec` does. */
module ExtensionRegistry {
  import opened Prelude
  import opened ExtensionManifest
  import opened RollbackGraph
  import opened RegistrySpec
  import opened RegistryServices

  import RegistryTheorems

  class ExtensionRegistry {
    const checks: FieldChecks
    const policy: Policy
    var manifests: map<string, map<string, Manifest>>
    var records: map<string, map<string, InstallRecord>>
    var activeVersions: map<string, string>
    var blocklist: seq<BlocklistEntry>
    var auditRecords: seq<AuditRecord>

    function Snapshot(): RegistryState
      reads this
    {
      RegistryState(manifests, records, activeVersions, blocklist, auditRecords)
    }

    /** In order: saving and loading it gives it back, and every operation keeps it so. */
    ghost predicate Valid()
      reads this
    {
      RegistryTheorems.Sound(checks, policy, Snapshot())
    }

    constructor (checks: FieldChecks, policy: Policy)
      ensures this.checks == checks && this.policy == policy
      ensures Snapshot() == EMPTY
      ensures IdentityTrimmed(checks, policy) && Idempotent(checks.trim) ==> Valid()
    {
      RegistryTheorems.EmptyIsValid(checks, policy);
      this.checks, this.policy := checks, policy;
      manifests, records, activeVersions, blocklist, auditRecords := map[], map[], map[], [], [];
    }

    constructor Restore(checks: FieldChecks, policy: Policy, s: RegistryState)
      ensures this.checks == checks && this.policy == policy
      ensures Snapshot() == s
      ensures RegistryTheorems.Sound(checks, policy, s) ==> Valid()
    {
      hide RegistryTheorems.Sound;
      this.checks, this.policy := checks, policy;
      manifests, records, activeVersions := s.manifests, s.records, s.active;
      blocklist, auditRecords := s.blocklist, s.audits;
    }

    method FindBlocklistHit(m: Manifest) returns (hit: Option<BlocklistEntry>)
      ensures hit == BlocklistHit(checks, blocklist, m)
    {
      hide MatchesManifest;
      for i := 0 to |blocklist|
        invariant BlocklistHit(checks, blocklist, m) == BlocklistHit(checks, blocklist[i..], m)
      {
        if MatchesManifest(checks, blocklist[i], m) {
          return Some(blocklist[i]);
        }
      }
      return None;
    }

    /** The checks `install` and `validate` share. */
    method RunValidationChecks(m: Manifest, o: InstallOptions) returns (result: Result<Boundary, RegistryError>)
      ensures result.Ok? ==>
                && PreflightError(checks, policy, Snapshot(), m, o).None?
                && Validate(checks, m, EffectivePolicy(policy, o)) == Some(result.value)
      ensures result.Err? ==> PreflightError(checks, policy, Snapshot(), m, o) == Some(result.error)
    {
      hide Validate; hide BlocklistHit; hide MatchesAuthority;
      var boundary := ValidateManifest(checks, m, EffectivePolicy(policy, o));
      if boundary.None? {
        return Err(Validation);
      }
      var hit := FindBlocklistHit(m);
      if hit.Some? {
        return Err(Blocked(hit.value));
      }
      if Has(records, m.id, m.version) {
        var existing := records[m.id][m.version];
        if || existing.manifestDigest != m.provenance.manifestDigest
           || existing.artifactDigest != m.provenance.artifactDigest
        {
          return Err(DigestConflict);
        }
      }
      if m.id in activeVersions && Has(records, m.id, activeVersions[m.id]) {
        var current := records[m.id][activeVersions[m.id]];
        if && !MatchesAuthority(checks, current.source, FromProvenance(checks, m.provenance))
           && o.approveSourceChange != Some(true)
        {
          return Err(SourceChangeRequiresApproval);
        }
      }
      return Ok(boundary.value);
    }

    method Install(m: Manifest, o: InstallOptions) returns (reply: Reply)
      modifies this
      ensures Step(Snapshot(), reply) == RegistrySpec.Install(checks, policy, old(Snapshot()), m, o)
      ensures old(Valid()) ==> Valid()
    {
      hide RegistryTheorems.Sound;
      RegistryTheorems.StepKeepsSound(checks, policy, Snapshot(), RegistryTheorems.InstallOp(m, o));
      hide Validate; hide PreflightError; hide NewRecord; hide Reaches;
      var checked := RunValidationChecks(m, o);
      if checked.Err? {
        return Err(checked.error);
      }
      var active := if m.id in activeVersions then Some(activeVersions[m.id]) else None;
      if Has(records, m.id, m.version) && active.Some? && active.value != m.version {
        var closes := WouldCreateRollbackCycle(GraphOf(records, m.id), active, m.version);
        if closes {
          return Err(Validation);
        }
      }
      var previous := active;
      if active == Some(m.version) {
        previous := if Has(records, m.id, m.version) then records[m.id][m.version].previous else None;
      }
      var record := NewRecord(checks, m, checked.value, previous, EffectivePolicy(policy, o));
      manifests := Put(manifests, m.id, m.version, m);
      records := Put(records, m.id, m.version, record);
      activeVersions := activeVersions[m.id := m.version];
      return Ok(Some(record));
    }

    method Rollback(id: string) returns (reply: Reply)
      modifies this
      ensures Step(Snapshot(), reply) == RegistrySpec.Rollback(checks, old(Snapshot()), id)
      ensures old(Valid()) ==> Valid()
    {
      hide RegistryTheorems.Sound;
      RegistryTheorems.StepKeepsSound(checks, policy, Snapshot(), RegistryTheorems.RollbackOp(id));
      hide BlocklistHit; hide Put;
      if id !in activeVersions || !Has(records, id, activeVersions[id]) {
        return Err(NotInstalled);
      }
      var previous := records[id][activeVersions[id]].previous;
      if previous.None? || !Has(manifests, id, previous.value) {
        return Err(RollbackUnavailable);
      }
      var hit := FindBlocklistHit(manifests[id][previous.value]);
      if hit.Some? {
        return Err(Blocked(hit.value));
      }
      if !Has(records, id, previous.value) {
        return Err(RollbackUnavailable);
      }
      activeVersions := activeVersions[id := previous.value];
      reply := StoreRecord(id, previous.value, records[id][previous.value].(status := InstalledPreviousVersion));
    }

    method StoreRecord(id: string, v: string, r: InstallRecord) returns (reply: Reply)
      modifies this`records
      ensures Step(Snapshot(), reply) == SetRecord(old(Snapshot()), id, v, r)
    {
      records := Put(records, id, v, r);
      return Ok(Some(r));
    }

    method Disable(id: string) returns (reply: Reply)
      modifies this
      ensures Step(Snapshot(), reply) == RegistrySpec.Disable(old(Snapshot()), id)
      ensures old(Valid()) ==> Valid()
    {
      hide RegistryTheorems.Sound;
      RegistryTheorems.StepKeepsSound(checks, policy, Snapshot(), RegistryTheorems.DisableOp(id));
      if id !in activeVersions || !Has(records, id, activeVersions[id]) {
        return Err(NotInstalled);
      }
      reply := StoreRecord(id, activeVersions[id], records[id][activeVersions[id]].(status := Disabled));
    }

    method Enable(id: string) returns (reply: Reply)
      modifies this
      ensures Step(Snapshot(), reply) == RegistrySpec.Enable(checks, old(Snapshot()), id)
      ensures old(Valid()) ==> Valid()
    {
      hide RegistryTheorems.Sound;
      RegistryTheorems.StepKeepsSound(checks, policy, Snapshot(), RegistryTheorems.EnableOp(id));
      hide BlocklistHit; hide Put;
      if id !in activeVersions || !Has(manifests, id, activeVersions[id]) {
        return Err(NotInstalled);
      }
      var hit := FindBlocklistHit(manifests[id][activeVersions[id]]);
      if hit.Some? {
        return Err(Blocked(hit.value));
      }
      if !Has(records, id, activeVersions[id]) {
        return Err(NotInstalled);
      }
      reply := StoreRecord(id, activeVersions[id], records[id][activeVersions[id]].(status := Installed));
    }

    method Remove(id: string) returns (reply: Reply)
      modifies this
      ensures Step(Snapshot(), reply) == RegistrySpec.Remove(old(Snapshot()), id)
      ensures old(Valid()) ==> Valid()
    {
      hide RegistryTheorems.Sound;
      RegistryTheorems.StepKeepsSound(checks, policy, Snapshot(), RegistryTheorems.RemoveOp(id));
      if id !in activeVersions || !Has(records, id, activeVersions[id]) {
        return Err(NotInstalled);
      }
      var v := activeVersions[id];
      activeVersions := activeVersions - {id};
      reply := StoreRecord(id, v, records[id][v].(status := Disabled));
    }

    method CheckRepublished(r: InstallRecord, m: Manifest) returns (error: Option<RegistryError>)
      ensures error == RepublishError(checks, policy, Snapshot(), r, m)
    {
      hide Validate; hide BlocklistHit;
      var boundary := ValidateManifest(checks, m, WithRecordApprovals(policy, r));
      if boundary.None? {
        return Some(Validation);
      }
      var hit := FindBlocklistHit(m);
      return if hit.Some? then Some(Blocked(hit.value)) else None;
    }

    method UpdatePublication(id: string, publication: Publication) returns (reply: Reply)
      modifies this
      ensures Step(Snapshot(), reply) ==
              RegistrySpec.UpdatePublication(checks, policy, old(Snapshot()), id, publication)
      ensures old(Valid()) ==> Valid()
    {
      hide RegistryTheorems.Sound;
      RegistryTheorems.StepKeepsSound(checks, policy, Snapshot(), RegistryTheorems.PublicationOp(id, publication));
      hide RepublishError; hide Put;
      if || id !in activeVersions
         || !Has(manifests, id, activeVersions[id]) || !Has(records, id, activeVersions[id])
      {
        return Err(NotInstalled);
      }
      var v := activeVersions[id];
      var r := records[id][v];
      var kept := publication;
      if r.source.publication.Some? && r.source.publication.value.submission in {Submitted, Accepted, Rejected} {
        kept := kept.(submission := r.source.publication.value.submission);
      }
      var m := Republish(manifests[id][v], Some(kept), manifests[id][v].provenance.registryIdentity);
      var error := CheckRepublished(r, m);
      if error.Some? {
        return Err(error.value);
      }
      manifests := Put(manifests, id, v, m);
      reply := StoreRecord(id, v, r.(source := r.source.(publication := Some(kept))));
    }

    /** The identity to submit under, unless the requested one contradicts the stored one. */
    method ChooseIdentity(m: Manifest, identity: Option<string>) returns (conflict: bool, chosen: Option<string>)
      ensures var existing := checks.TrimOptional(m.provenance.registryIdentity);
              var requested := checks.TrimOptional(identity);
              conflict <==> existing.Some? && requested.Some? && existing != requested
      ensures chosen == SubmissionIdentity(checks, m, identity)
    {
      var existing := checks.TrimOptional(m.provenance.registryIdentity);
      var requested := checks.TrimOptional(identity);
      conflict := existing.Some? && requested.Some? && existing != requested;
      chosen := m.provenance.registryIdentity;
      if existing.None? { chosen := requested; }
    }

    method UpdateRegistrySubmission(id: string, submission: Submission, identity: Option<string>)
      returns (reply: Reply)
      modifies this
      ensures Step(Snapshot(), reply) ==
              RegistrySpec.UpdateSubmission(checks, policy, old(Snapshot()), id, submission, identity)
      ensures old(Valid()) ==> Valid()
    {
      hide RegistryTheorems.Sound;
      RegistryTheorems.StepKeepsSound(checks, policy, Snapshot(),
        RegistryTheorems.SubmissionOp(id, submission, identity));
      hide RepublishError; hide Put; hide FromProvenance; hide SubmissionIdentity;
      if id !in activeVersions || !Has(records, id, activeVersions[id]) {
        return Err(NotInstalled);
      }
      var v := activeVersions[id];
      var r := records[id][v];
      if r.source.publication.None? {
        return Err(Validation);
      }
      if !Has(manifests, id, v) {
        return Err(NotInstalled);
      }
      var m := manifests[id][v];
      var conflict, identity' := ChooseIdentity(m, identity);
      if conflict {
        return Err(SourceChangeRequiresApproval);
      }
      var publication := Some(r.source.publication.value.(submission := submission));
      var republished := Republish(m, publication, identity');
      var error := CheckRepublished(r, republished);
      if error.Some? {
        return Err(error.value);
      }
      var stored := Republish(m, publication, checks.TrimOptional(identity'));
      manifests := Put(manifests, id, v, stored);
      reply := StoreRecord(id, v, r.(source := FromProvenance(checks, stored.provenance)));
    }

    method AddBlocklistEntry(entry: BlocklistEntry) returns (reply: Reply)
      modifies this`blocklist
      ensures Step(Snapshot(), reply) == RegistrySpec.AddBlocklistEntry(old(Snapshot()), entry)
      ensures old(Valid()) ==> Valid()
    {
      hide RegistryTheorems.Sound;
      RegistryTheorems.StepKeepsSound(checks, policy, Snapshot(), RegistryTheorems.BlockOp(entry));
      if entry.key.VulnerabilityId? {
        return Err(UnsupportedBlocklistKey);
      }
      blocklist := blocklist + [entry];
      return Ok(None);
    }

    method AppendAuditRecord(a: AuditRecord) returns (reply: Reply)
      modifies this`auditRecords
      ensures Step(Snapshot(), reply) == RegistrySpec.AppendAudit(checks, old(Snapshot()), a)
      ensures old(Valid()) ==> Valid()
    {
      hide RegistryTheorems.Sound;
      RegistryTheorems.StepKeepsSound(checks, policy, Snapshot(), RegistryTheorems.AuditOp(a));
      hide AuditShapeOk; hide AuditTargetsOk;
      var seen := AuditIds(auditRecords);
      if !AuditShapeOk(checks, a) || a.id in seen || !AuditTargetsOk(a, records, true) {
        return Err(Validation);
      }
      auditRecords := auditRecords + [a];
      return Ok(None);
    }

    method AuthorizeServiceCall(q: ServiceRequest) returns (result: Result<Grant, RegistryError>)
      ensures result == Authorize(checks, Snapshot(), q)
    {
      hide BlocklistHit; hide Negotiate;
      var error := RecordError(Snapshot(), q.caller);
      if error.Some? {
        return Err(error.value);
      }
      error := RecordError(Snapshot(), q.callee);
      if error.Some? {
        return Err(error.value);
      }
      var v, w := activeVersions[q.caller], activeVersions[q.callee];
      if !Has(manifests, q.caller, v) || !Has(manifests, q.callee, w) {
        return Err(NotInstalled);
      }
      var hit := FindBlocklistHit(manifests[q.caller][v]);
      if hit.Some? {
        return Err(Blocked(hit.value));
      }
      hit := FindBlocklistHit(manifests[q.callee][w]);
      if hit.Some? {
        return Err(Blocked(hit.value));
      }
      match Negotiate(manifests[q.caller][v], manifests[q.callee][w], q)
      case Err(e) => return Err(e);
      case Ok(required) =>
        return Ok(Grant(q.caller, v, q.callee, w, q.service, q.operation, q.schemaVersion, required));
    }
  }

  // ---- loading a snapshot

  ghost predicate VersionsOk(c: FieldChecks, p: Policy, s: RegistryState, id: string)
    requires id in s.records
  {
    && (forall v | v in s.records[id] ::
          Has(s.manifests, id, v) && EntryOk(c, p, id, v, s.records[id][v], s.manifests[id][v]))
    && GraphOk(GraphOf(s.records, id))
  }

  lemma ValidVersions(c: FieldChecks, p: Policy, s: RegistryState, id: string)
    requires id in s.records
    ensures SnapshotOk(c, p, s) ==> VersionsOk(c, p, s, id)
  {
    hide EntryOk; hide GraphOk; hide AuditsOk;
    if SnapshotOk(c, p, s) {
      forall v | v in s.records[id]
        ensures Has(s.manifests, id, v) && EntryOk(c, p, id, v, s.records[id][v], s.manifests[id][v])
      {
        assert Has(s.records, id, v);
      }
    }
  }

  /** Checks the versions of one extension, record by record, as the loader does. */
  method ValidateVersions(c: FieldChecks, p: Policy, s: RegistryState, id: string) returns (ok: bool)
    requires id in s.records
    ensures ok <==> VersionsOk(c, p, s, id)
  {
    hide EntryOk;
    var g := GraphOf(s.records, id);
    var todo := s.records[id].Keys;
    while todo != {}
      invariant todo <= s.records[id].Keys
      invariant forall v | v in s.records[id] && v !in todo ::
                  && Has(s.manifests, id, v) && EntryOk(c, p, id, v, s.records[id][v], s.manifests[id][v])
                  && (g[v].Some? ==> g[v].value in g) && Ends(g, v)
    {
      var v :| v in todo;
      if !Has(s.manifests, id, v) || !EntryOk(c, p, id, v, s.records[id][v], s.manifests[id][v]) {
        return false;
      }
      if g[v].Some? && g[v].value !in g {
        return false;
      }
      var repeated := DetectRollbackCycle(g, v);
      if repeated.Some? {
        return false;
      }
      todo := todo - {v};
    }
    return true;
  }

  method ValidateAudits(c: FieldChecks, s: RegistryState) returns (ok: bool)
    ensures ok <==> AuditsOk(c, s)
  {
    hide AuditShapeOk; hide AuditTargetsOk;
    var seen: set<string> := {};
    for i := 0 to |s.audits|
      invariant seen == set j | 0 <= j < i :: s.audits[j].id
      invariant forall j | 0 <= j < i :: AuditShapeOk(c, s.audits[j]) && AuditTargetsOk(s.audits[j], s.records, false)
      invariant forall j, k | 0 <= j < k < i :: s.audits[j].id != s.audits[k].id
    {
      var a := s.audits[i];
      if !AuditShapeOk(c, a) || !AuditTargetsOk(a, s.records, false) || a.id in seen {
        return false;
      }
      seen := seen + {a.id};
    }
    return true;
  }

  /** The reload checker accepts exactly the valid states. */
  method ValidateSnapshot(c: FieldChecks, p: Policy, s: RegistryState) returns (ok: bool)
    ensures ok <==> SnapshotOk(c, p, s)
  {
    hide EntryOk; hide GraphOk; hide AuditsOk; hide GraphOf;
    var todo := s.records.Keys;
    while todo != {}
      invariant todo <= s.records.Keys
      invariant forall id, v | Has(s.records, id, v) && id !in todo ::
                  Has(s.manifests, id, v) && EntryOk(c, p, id, v, s.records[id][v], s.manifests[id][v])
      invariant forall id | id in s.records && id !in todo :: GraphOk(GraphOf(s.records, id))
    {
      var id :| id in todo;
      var versionsOk := ValidateVersions(c, p, s, id);
      if !versionsOk {
        ValidVersions(c, p, s, id);
        return false;
      }
      todo := todo - {id};
    }
    if exists id | id in s.manifests :: exists v | v in s.manifests[id] :: !Has(s.records, id, v) {
      return false;
    }
    if !ActiveOk(s) || !BlocklistOk(s) {
      return false;
    }
    ok := ValidateAudits(c, s);
  }

  /** Builds a registry from a snapshot if the checker accepts it. */
  method FromSnapshot(c: FieldChecks, p: Policy, s: RegistryState) returns (r: ExtensionRegistry?)
    ensures r != null <==> SnapshotOk(c, p, s)
    ensures r != null ==> fresh(r) && r.checks == c && r.policy == p && r.Snapshot() == s
    ensures r != null && IdentityTrimmed(c, p) && Idempotent(c.trim) ==> r.Valid()
  {
    var ok := ValidateSnapshot(c, p, s);
    if ok {
      r := new ExtensionRegistry.Restore(c, p, s);
    } else {
      r := null;
    }
  }
}
