/** Properties of every run of the extension registry. */
module RegistryTheorems {
  import opened Prelude
  import opened ExtensionManifest
  import opened RollbackGraph
  import opened RegistrySpec

  datatype Op =
    | InstallOp(manifest: Manifest, options: InstallOptions)
    | RollbackOp(id: string)
    | DisableOp(id: string)
    | EnableOp(id: string)
    | RemoveOp(id: string)
    | PublicationOp(id: string, publication: Publication)
    | SubmissionOp(id: string, submission: Submission, identity: Option<string>)
    | BlockOp(entry: BlocklistEntry)
    | AuditOp(audit: AuditRecord)

  ghost function Apply(c: FieldChecks, p: Policy, s: RegistryState, op: Op): Step {
    match op
    case InstallOp(m, o) => Install(c, p, s, m, o)
    case RollbackOp(id) => Rollback(c, s, id)
    case DisableOp(id) => Disable(s, id)
    case EnableOp(id) => Enable(c, s, id)
    case RemoveOp(id) => Remove(s, id)
    case PublicationOp(id, publication) => UpdatePublication(c, p, s, id, publication)
    case SubmissionOp(id, submission, identity) => UpdateSubmission(c, p, s, id, submission, identity)
    case BlockOp(entry) => AddBlocklistEntry(s, entry)
    case AuditOp(audit) => AppendAudit(c, s, audit)
  }

  ghost function Run(c: FieldChecks, p: Policy, s: RegistryState, ops: seq<Op>): RegistryState
    decreases |ops|
  {
    if ops == [] then s else Run(c, p, Apply(c, p, s, ops[0]).state, ops[1..])
  }

  /** Every failed operation leaves the registry as it was. */
  lemma FailureLeavesStateUnchanged(c: FieldChecks, p: Policy, s: RegistryState, op: Op)
    ensures Apply(c, p, s, op).reply.Err? ==> Apply(c, p, s, op).state == s
  {
  }

  // ---- replacing one entry of a valid state

  lemma GraphPut(records: map<string, map<string, InstallRecord>>, id: string, v: string, r: InstallRecord)
    ensures GraphOf(Put(records, id, v, r), id) == GraphOf(records, id)[v := r.previous]
    ensures forall other | other != id :: GraphOf(Put(records, id, v, r), other) == GraphOf(records, other)
  {
  }

  lemma PutFacts<T>(m: map<string, map<string, T>>, id: string, v: string, x: T)
    ensures forall y, w :: Has(Put(m, id, v, x), y, w) <==> Has(m, y, w) || (y == id && w == v)
    ensures Put(m, id, v, x)[id][v] == x
    ensures forall y, w | Has(m, y, w) && (y != id || w != v) :: Put(m, id, v, x)[y][w] == m[y][w]
  {
  }

  lemma PutSame<T>(m: map<string, map<string, T>>, id: string, v: string)
    requires Has(m, id, v)
    ensures Put(m, id, v, m[id][v]) == m
  {
    assert m[id][v := m[id][v]] == m[id];
  }

  /** Recorded versions stay recorded with the same two digests. */
  ghost predicate DigestsKept(s: RegistryState, t: RegistryState) {
    forall id, v | Has(s.records, id, v) ::
      && Has(t.records, id, v)
      && t.records[id][v].manifestDigest == s.records[id][v].manifestDigest
      && t.records[id][v].artifactDigest == s.records[id][v].artifactDigest
  }

  lemma AuditsSurvive(c: FieldChecks, s: RegistryState, t: RegistryState)
    requires AuditsOk(c, s) && DigestsKept(s, t) && t.audits == s.audits
    ensures AuditsOk(c, t)
  {
    forall i | 0 <= i < |t.audits|
      ensures AuditTargetsOk(t.audits[i], t.records, false)
    {
      assert AuditTargetsOk(s.audits[i], s.records, false);
    }
  }

  function WithEntry(
    s: RegistryState, id: string, v: string, r: InstallRecord, m: Manifest, active: map<string, string>): RegistryState
  {
    s.(manifests := Put(s.manifests, id, v, m), records := Put(s.records, id, v, r), active := active)
  }

  lemma WithEntryEntries(
    c: FieldChecks, q: Policy, s: RegistryState, id: string, v: string, r: InstallRecord, m: Manifest,
    active: map<string, string>)
    requires Paired(s) && EntriesOk(c, q, s) && EntryOk(c, q, id, v, r, m)
    ensures var t := WithEntry(s, id, v, r, m, active); Paired(t) && EntriesOk(c, q, t)
  {
    hide EntryOk; hide Put;
    PutFacts(s.records, id, v, r);
    PutFacts(s.manifests, id, v, m);
  }

  lemma WithEntryGraphs(
    s: RegistryState, id: string, v: string, r: InstallRecord, m: Manifest, active: map<string, string>)
    requires GraphsOk(s) && GraphOk(GraphOf(s.records, id)[v := r.previous])
    ensures GraphsOk(WithEntry(s, id, v, r, m, active))
  {
    hide GraphOk; hide GraphOf;
    GraphPut(s.records, id, v, r);
  }

  ghost predicate SameDigests(s: RegistryState, id: string, v: string, r: InstallRecord) {
    Has(s.records, id, v) ==>
      && r.manifestDigest == s.records[id][v].manifestDigest
      && r.artifactDigest == s.records[id][v].artifactDigest
  }

  /** Replacing one entry keeps a state valid. */
  lemma ReplaceEntry(
    c: FieldChecks, q: Policy, s: RegistryState, id: string, v: string, r: InstallRecord, m: Manifest,
    active: map<string, string>)
    requires SnapshotOk(c, q, s) && EntryOk(c, q, id, v, r, m)
    requires SameDigests(s, id, v, r)
    requires GraphOk(GraphOf(s.records, id)[v := r.previous])
    requires forall x | x in active :: (x == id && active[x] == v) || (x in s.active && active[x] == s.active[x])
    ensures SnapshotOk(c, q, WithEntry(s, id, v, r, m, active))
    ensures DigestsKept(s, WithEntry(s, id, v, r, m, active))
  {
    hide Paired; hide EntriesOk; hide EntryOk; hide GraphsOk; hide AuditsOk; hide GraphOf; hide GraphOk;
    hide Put;
    PutFacts(s.records, id, v, r);
    var t := WithEntry(s, id, v, r, m, active);
    WithEntryEntries(c, q, s, id, v, r, m, active);
    WithEntryGraphs(s, id, v, r, m, active);
    assert DigestsKept(s, t);
    AuditsSurvive(c, s, t);
  }

  /** The special case where the version was recorded before and keeps its rollback pointer. */
  lemma RewriteEntry(
    c: FieldChecks, q: Policy, s: RegistryState, id: string, v: string, r: InstallRecord, m: Manifest,
    active: map<string, string>)
    requires SnapshotOk(c, q, s) && Has(s.records, id, v)
    requires EntryOk(c, q, id, v, r, m)
    requires SameDigests(s, id, v, r) && r.previous == s.records[id][v].previous
    requires forall x | x in active :: (x == id && active[x] == v) || (x in s.active && active[x] == s.active[x])
    ensures SnapshotOk(c, q, WithEntry(s, id, v, r, m, active))
    ensures DigestsKept(s, WithEntry(s, id, v, r, m, active))
  {
    hide Paired; hide EntriesOk; hide EntryOk; hide AuditsOk; hide GraphOk; hide WithEntry;
    var g := GraphOf(s.records, id);
    assert g[v := r.previous] == g;
    ReplaceEntry(c, q, s, id, v, r, m, active);
  }

  lemma RewriteStatus(
    c: FieldChecks, q: Policy, s: RegistryState, id: string, v: string, status: InstallStatus,
    active: map<string, string>)
    requires SnapshotOk(c, q, s) && Has(s.records, id, v)
    requires forall x | x in active :: (x == id && active[x] == v) || (x in s.active && active[x] == s.active[x])
    ensures
      var t := s.(records := Put(s.records, id, v, s.records[id][v].(status := status)), active := active);
      SnapshotOk(c, q, t) && DigestsKept(s, t)
  {
    hide GraphsOk; hide AuditsOk; hide Validate; hide Put;
    var r := s.records[id][v].(status := status);
    assert Has(s.manifests, id, v);
    assert EntryOk(c, q, id, v, s.records[id][v], s.manifests[id][v]);
    PutSame(s.manifests, id, v);
    assert WithRecordApprovals(q, r) == WithRecordApprovals(q, s.records[id][v]);
    RewriteEntry(c, q, s, id, v, r, s.manifests[id][v], active);
  }

  // ---- each operation keeps a valid state valid

  /** Every rollback pointer `install` stores keeps the graph closed and acyclic, and the one case it
      refuses is exactly the case in which storing the pointer would close a cycle. */
  lemma InstallPointerIsSafe(s: RegistryState, id: string, version: string)
    requires GraphsOk(s) && ActiveOk(s)
    ensures
      var g := GraphOf(s.records, id);
      var h := g[version := InstallPrevious(s, id, version)];
      Closed(h) && (Acyclic(h) <==> !ClosesCycle(s, id, version))
  {
    var g := GraphOf(s.records, id);
    var previous := InstallPrevious(s, id, version);
    assert Closed(g) && Acyclic(g);
    if id !in s.active {
      UnpointAcyclic(g, version);
    } else {
      assert Has(s.records, id, s.active[id]);
      if s.active[id] == version {
        assert g[version := previous] == g;
      } else {
        RepointAcyclicIff(g, version, s.active[id]);
        if version !in g && Reaches(g, s.active[id], version) {
          var n: nat :| Walk(g, s.active[id], n) == Some(version);
          WalkStays(g, g.Keys, s.active[id], n);
        }
      }
    }
  }

  lemma NewEntryOk(
    c: FieldChecks, q: Policy, p: Policy, m: Manifest, o: InstallOptions, previous: Option<string>)
    requires NoLaxer(q, p) && Validate(c, m, EffectivePolicy(p, o)).Some?
    ensures
      var effective := EffectivePolicy(p, o);
      EntryOk(c, q, m.id, m.version, NewRecord(c, m, Validate(c, m, effective).value, previous, effective), m)
  {
    hide Validate;
    var effective := EffectivePolicy(p, o);
    var r := NewRecord(c, m, Validate(c, m, effective).value, previous, effective);
    ValidateMonotone(c, m, effective, WithRecordApprovals(q, r));
  }

  lemma InstallKeepsValid(c: FieldChecks, q: Policy, p: Policy, s: RegistryState, m: Manifest, o: InstallOptions)
    requires SnapshotOk(c, q, s) && NoLaxer(q, p)
    ensures SnapshotOk(c, q, Install(c, p, s, m, o).state)
    ensures DigestsKept(s, Install(c, p, s, m, o).state)
  {
    hide EntryOk; hide AuditsOk; hide Validate; hide BlocklistHit; hide MatchesAuthority; hide Put; hide GraphOf;
    hide ClosesCycle; hide InstallPrevious;
    if Install(c, p, s, m, o).reply.Ok? {
      InstallPointerIsSafe(s, m.id, m.version);
      NewEntryOk(c, q, p, m, o, InstallPrevious(s, m.id, m.version));
      ReplaceEntry(
        c, q, s, m.id, m.version, Install(c, p, s, m, o).reply.value.value, m, s.active[m.id := m.version]);
    }
  }

  lemma PublicationKeepsValid(c: FieldChecks, q: Policy, p: Policy, s: RegistryState, id: string,
    publication: Publication)
    requires SnapshotOk(c, q, s) && NoLaxer(q, p)
    ensures SnapshotOk(c, q, UpdatePublication(c, p, s, id, publication).state)
    ensures DigestsKept(s, UpdatePublication(c, p, s, id, publication).state)
  {
    hide GraphsOk; hide AuditsOk; hide Validate; hide BlocklistHit; hide Put;
    if UpdatePublication(c, p, s, id, publication).reply.Ok? {
      var v := s.active[id];
      var (m, r) := (s.manifests[id][v], s.records[id][v]);
      var kept := Some(StickySubmission(r, publication));
      assert EntryOk(c, q, id, v, r, m);
      var republished := Republish(m, kept, m.provenance.registryIdentity);
      RepublishKeepsBoundary(c, m, q, p, r, kept, m.provenance.registryIdentity);
      var r' := r.(source := r.source.(publication := kept));
      assert WithRecordApprovals(q, r') == WithRecordApprovals(q, r);
      assert EntryOk(c, q, id, v, r', republished);
      RewriteEntry(c, q, s, id, v, r', republished, s.active);
    }
  }

  lemma RepublishKeepsBoundary(
    c: FieldChecks, m: Manifest, q: Policy, p: Policy, r: InstallRecord,
    publication: Option<Publication>, identity: Option<string>)
    requires NoLaxer(q, p)
    requires Validate(c, m, WithRecordApprovals(q, r)) == Some(r.boundary)
    requires Validate(c, Republish(m, publication, identity), WithRecordApprovals(p, r)).Some?
    ensures Validate(c, Republish(m, publication, identity), WithRecordApprovals(q, r)) == Some(r.boundary)
  {
    RepublishKeepsApprovals(c, m, WithRecordApprovals(q, r), WithRecordApprovals(p, r), publication, identity);
  }

  /** A successful submission update keeps a valid state valid exactly when the package is not
      official or the policy's official identity carries no surrounding whitespace: the identity is
      trimmed after it has been validated, and official packages are matched against it verbatim. */
  lemma SubmissionKeepsValidIff(
    c: FieldChecks, q: Policy, p: Policy, s: RegistryState, id: string, submission: Submission,
    identity: Option<string>)
    requires SnapshotOk(c, q, s) && NoLaxer(q, p) && Idempotent(c.trim)
    requires UpdateSubmission(c, p, s, id, submission, identity).reply.Ok?
    ensures
      SnapshotOk(c, q, UpdateSubmission(c, p, s, id, submission, identity).state) ==
      (s.records[id][s.active[id]].boundary == Official ==> IdentityTrimmed(c, p))
    ensures DigestsKept(s, UpdateSubmission(c, p, s, id, submission, identity).state)
  {
    hide SnapshotOk; hide Validate; hide UpdateSubmission; hide EntryOk; hide Put; hide FromProvenance;
    var publication, identity', stored, r' := SubmissionShape(c, p, s, id, submission, identity);
    var v := s.active[id];
    var t := WithEntry(s, id, v, r', stored, s.active);
    EntryOf(c, q, s, id, v);
    SubmissionEntryIff(c, q, p, id, v, s.records[id][v], s.manifests[id][v], publication, identity');
    PutFacts(s.records, id, v, r');
    PutFacts(s.manifests, id, v, stored);
    if EntryOk(c, q, id, v, r', stored) {
      RewriteEntry(c, q, s, id, v, r', stored, s.active);
    } else if SnapshotOk(c, q, t) {
      EntryOf(c, q, t, id, v);
    }
  }

  /** What a successful submission update writes. */
  lemma SubmissionShape(
    c: FieldChecks, p: Policy, s: RegistryState, id: string, submission: Submission, identity: Option<string>)
    returns (publication: Option<Publication>, identity': Option<string>, stored: Manifest, r': InstallRecord)
    requires Idempotent(c.trim)
    requires UpdateSubmission(c, p, s, id, submission, identity).reply.Ok?
    ensures id in s.active && Has(s.records, id, s.active[id]) && Has(s.manifests, id, s.active[id])
    ensures c.HasText(identity') || identity'.None?
    ensures stored == Republish(s.manifests[id][s.active[id]], publication, c.TrimOptional(identity'))
    ensures r' == s.records[id][s.active[id]].(source := FromProvenance(c, stored.provenance))
    ensures UpdateSubmission(c, p, s, id, submission, identity).state ==
            WithEntry(s, id, s.active[id], r', stored, s.active)
    ensures Validate(
        c, Republish(s.manifests[id][s.active[id]], publication, identity'),
        WithRecordApprovals(p, s.records[id][s.active[id]])).Some?
  {
    hide Validate; hide BlocklistHit; hide Put; hide FromProvenance;
    var (m, r) := (s.manifests[id][s.active[id]], s.records[id][s.active[id]]);
    publication := Some(r.source.publication.value.(submission := submission));
    identity' := SubmissionIdentity(c, m, identity);
    stored := Republish(m, publication, c.TrimOptional(identity'));
    r' := r.(source := FromProvenance(c, stored.provenance));
  }

  lemma SubmissionEntryIff(
    c: FieldChecks, q: Policy, p: Policy, id: string, v: string, r: InstallRecord, m: Manifest,
    publication: Option<Publication>, identity: Option<string>)
    requires NoLaxer(q, p) && Idempotent(c.trim) && EntryOk(c, q, id, v, r, m)
    requires Validate(c, Republish(m, publication, identity), WithRecordApprovals(p, r)).Some?
    requires c.HasText(identity) || identity.None?
    ensures
      var stored := Republish(m, publication, c.TrimOptional(identity));
      EntryOk(c, q, id, v, r.(source := FromProvenance(c, stored.provenance)), stored) ==
      (r.boundary == Official ==> IdentityTrimmed(c, p))
  {
    hide Validate;
    var republished := Republish(m, publication, identity);
    RepublishKeepsBoundary(c, m, q, p, r, publication, identity);
    TrimmingIdentityIsSafeIff(c, republished, WithRecordApprovals(q, r));
    assert Republish(m, publication, c.TrimOptional(identity)) ==
           Republish(republished, republished.provenance.publication, c.TrimOptional(identity));
  }

  /** One step of any operation keeps a valid state valid when the official identity is trimmed. */
  lemma StepKeepsValid(c: FieldChecks, q: Policy, p: Policy, s: RegistryState, op: Op)
    requires SnapshotOk(c, q, s) && NoLaxer(q, p) && Idempotent(c.trim) && IdentityTrimmed(c, p)
    ensures SnapshotOk(c, q, Apply(c, p, s, op).state)
    ensures DigestsKept(s, Apply(c, p, s, op).state)
  {
    hide Paired; hide EntriesOk; hide GraphsOk; hide BlocklistHit; hide Put;
    hide Install; hide UpdatePublication; hide UpdateSubmission;
    if Apply(c, p, s, op).reply.Ok? {
      match op
      case InstallOp(m, o) => InstallKeepsValid(c, q, p, s, m, o);
      case RollbackOp(id) =>
        var v := s.records[id][s.active[id]].previous.value;
        RewriteStatus(c, q, s, id, v, InstalledPreviousVersion, s.active[id := v]);
      case DisableOp(id) => RewriteStatus(c, q, s, id, s.active[id], Disabled, s.active);
      case EnableOp(id) => RewriteStatus(c, q, s, id, s.active[id], Installed, s.active);
      case RemoveOp(id) => RewriteStatus(c, q, s, id, s.active[id], Disabled, s.active - {id});
      case PublicationOp(id, publication) => PublicationKeepsValid(c, q, p, s, id, publication);
      case SubmissionOp(id, submission, identity) => SubmissionKeepsValidIff(c, q, p, s, id, submission, identity);
      case BlockOp(entry) => BlockKeepsValid(c, q, s, entry);
      case AuditOp(audit) => AppendAuditKeepsValid(c, q, s, audit);
    } else {
      FailureLeavesStateUnchanged(c, p, s, op);
    }
  }

  lemma BlockKeepsValid(c: FieldChecks, q: Policy, s: RegistryState, entry: BlocklistEntry)
    requires SnapshotOk(c, q, s)
    ensures SnapshotOk(c, q, AddBlocklistEntry(s, entry).state)
    ensures DigestsKept(s, AddBlocklistEntry(s, entry).state)
  {
    hide EntryOk; hide GraphOk; hide AuditShapeOk; hide AuditTargetsOk;
    var t := AddBlocklistEntry(s, entry).state;
    assert Paired(t) && EntriesOk(c, q, t) && GraphsOk(t) && ActiveOk(t) && AuditsOk(c, t);
  }

  lemma AppendAuditKeepsValid(c: FieldChecks, q: Policy, s: RegistryState, a: AuditRecord)
    requires SnapshotOk(c, q, s)
    ensures SnapshotOk(c, q, AppendAudit(c, s, a).state)
    ensures DigestsKept(s, AppendAudit(c, s, a).state)
  {
    hide EntryOk; hide GraphOk; hide AuditShapeOk;
    if AppendAudit(c, s, a).reply.Ok? {
      var t := AppendAudit(c, s, a).state;
      assert Paired(t) && EntriesOk(c, q, t) && GraphsOk(t) && ActiveOk(t);
      forall i, j | 0 <= i < j < |t.audits|
        ensures t.audits[i].id != t.audits[j].id
      {
        assert t.audits[i] == s.audits[i];
        assert s.audits[i].id in AuditIds(s.audits);
      }
    }
  }

  /** A registry in order: its state passes the reload check, and its policy cannot lead it astray. */
  ghost predicate Sound(c: FieldChecks, p: Policy, s: RegistryState) {
    SnapshotOk(c, p, s) && IdentityTrimmed(c, p) && Idempotent(c.trim)
  }

  lemma StepKeepsSound(c: FieldChecks, p: Policy, s: RegistryState, op: Op)
    ensures Sound(c, p, s) ==> Sound(c, p, Apply(c, p, s, op).state)
  {
    hide SnapshotOk; hide Apply;
    if Sound(c, p, s) { StepKeepsValid(c, p, p, s, op); }
  }

  // ---- every run

  lemma {:induction false} RunKeepsValid(c: FieldChecks, q: Policy, p: Policy, s: RegistryState, ops: seq<Op>)
    requires SnapshotOk(c, q, s) && NoLaxer(q, p) && Idempotent(c.trim) && IdentityTrimmed(c, p)
    ensures SnapshotOk(c, q, Run(c, p, s, ops))
    ensures DigestsKept(s, Run(c, p, s, ops))
    decreases |ops|
  {
    hide SnapshotOk; hide Apply;
    if ops == [] {
    } else {
      var t := Apply(c, p, s, ops[0]).state;
      StepKeepsValid(c, q, p, s, ops[0]);
      RunKeepsValid(c, q, p, t, ops[1..]);
    }
  }

  /** Loading a saved state: accepted as it is, or refused. */
  ghost function Load(c: FieldChecks, p: Policy, s: RegistryState): Option<RegistryState> {
    if SnapshotOk(c, p, s) then Some(s) else None
  }

  lemma EmptyIsValid(c: FieldChecks, p: Policy)
    ensures SnapshotOk(c, p, EMPTY)
  {
  }

  /** Whatever sequence of operations a registry goes through, from empty or from any state it was
      willing to load, saving it and loading it again gives back the same registry. */
  lemma ReloadIsIdentity(c: FieldChecks, p: Policy, s: RegistryState, ops: seq<Op>)
    requires Idempotent(c.trim) && IdentityTrimmed(c, p)
    requires s == EMPTY || Load(c, p, s).Some?
    ensures Load(c, p, Run(c, p, s, ops)) == Some(Run(c, p, s, ops))
  {
    hide SnapshotOk;
    EmptyIsValid(c, p);
    RunKeepsValid(c, p, p, s, ops);
  }

  function WithoutApprovals(p: Policy): Policy {
    p.(allowUnsigned := false, allowProcess := false)
  }

  /** Approvals travel with the install records: a registry built from empty under a permissive
      policy can be loaded under the same policy with both approvals switched off. */
  lemma ReloadNeedsNoApprovals(c: FieldChecks, p: Policy, ops: seq<Op>)
    requires Idempotent(c.trim) && IdentityTrimmed(c, p)
    ensures Load(c, WithoutApprovals(p), Run(c, p, EMPTY, ops)) == Some(Run(c, p, EMPTY, ops))
  {
    hide SnapshotOk;
    EmptyIsValid(c, WithoutApprovals(p));
    RunKeepsValid(c, WithoutApprovals(p), p, EMPTY, ops);
  }

  /** Recorded versions never disappear and never change digests, and the audit log only grows, so a
      reference that was accepted once resolves to a matching install record for ever. */
  lemma AuditRefsResolveForever(
    c: FieldChecks, p: Policy, s: RegistryState, ops: seq<Op>, i: nat)
    requires Idempotent(c.trim) && IdentityTrimmed(c, p)
    requires Load(c, p, s).Some?
    requires i < |s.audits|
    ensures
      var t := Run(c, p, s, ops);
      && s.audits <= t.audits && s.blocklist <= t.blocklist
      && DigestsKept(s, t)
      && RefResolves(s.audits[i].previousRecord, t.records, false)
      && RefResolves(s.audits[i].newRecord, t.records, false)
      && (forall j, k | 0 <= j < k < |t.audits| :: t.audits[j].id != t.audits[k].id)
  {
    hide Paired; hide EntriesOk; hide GraphsOk; hide AuditShapeOk;
    RunKeepsValid(c, p, p, s, ops);
    LogsGrow(c, p, s, ops);
    var t := Run(c, p, s, ops);
    assert t.audits[i] == s.audits[i];
    assert AuditTargetsOk(t.audits[i], t.records, false);
  }

  lemma {:induction false} LogsGrow(c: FieldChecks, p: Policy, s: RegistryState, ops: seq<Op>)
    ensures s.audits <= Run(c, p, s, ops).audits && s.blocklist <= Run(c, p, s, ops).blocklist
    decreases |ops|
  {
    hide Apply;
    if ops == [] {
    } else {
      var t := Apply(c, p, s, ops[0]).state;
      LogsGrowStep(c, p, s, ops[0]);
      LogsGrow(c, p, t, ops[1..]);
    }
  }

  lemma LogsGrowStep(c: FieldChecks, p: Policy, s: RegistryState, op: Op)
    ensures s.audits <= Apply(c, p, s, op).state.audits && s.blocklist <= Apply(c, p, s, op).state.blocklist
  {
    hide PreflightError; hide Validate; hide BlocklistHit; hide AuditShapeOk; hide AuditTargetsOk; hide Put;
  }

  // ---- rollback

  /** `k` rollbacks of one extension in a row, as far as they all succeed. */
  function Rollbacks(c: FieldChecks, s: RegistryState, id: string, k: nat): Option<RegistryState>
    decreases k
  {
    if k == 0 then Some(s)
    else if Rollback(c, s, id).reply.Err? then None
    else Rollbacks(c, Rollback(c, s, id).state, id, k - 1)
  }

  lemma RollbackTakesOneStep(c: FieldChecks, s: RegistryState, id: string)
    requires Rollback(c, s, id).reply.Ok?
    ensures
      var t := Rollback(c, s, id).state;
      var g := GraphOf(s.records, id);
      id in s.active && id in t.active && Prev(g, s.active[id]) == Some(t.active[id]) && GraphOf(t.records, id) == g
  {
    hide BlocklistHit;
    var v := s.records[id][s.active[id]].previous.value;
    GraphPut(s.records, id, v, s.records[id][v].(status := InstalledPreviousVersion));
    assert GraphOf(s.records, id)[v := s.records[id][v].previous] == GraphOf(s.records, id);
  }

  /** Consecutive rollbacks follow the chain below the active version one step at a time and never
      rewrite it, so fewer of them can succeed than the chain has versions. */
  lemma {:induction false} RollbacksFollowChain(c: FieldChecks, s: RegistryState, id: string, k: nat)
    requires id in s.active
    requires Rollbacks(c, s, id, k).Some?
    ensures
      var t := Rollbacks(c, s, id, k).value;
      var g := GraphOf(s.records, id);
      && id in t.active
      && Walk(g, s.active[id], k) == Some(t.active[id])
      && GraphOf(t.records, id) == g
      && (forall n: nat | Walk(g, s.active[id], n).None? :: k < n)
    decreases k
  {
    hide Rollback; hide GraphOf;
    var g := GraphOf(s.records, id);
    if k > 0 {
      RollbackTakesOneStep(c, s, id);
      RollbacksFollowChain(c, Rollback(c, s, id).state, id, k - 1);
    }
    forall n: nat | Walk(g, s.active[id], n).None?
      ensures k < n
    {
      if n <= k { WalkSplit(g, s.active[id], n, k - n); }
    }
  }

  // ---- publication

  /** In a valid state manifest and record agree on the publication, it satisfies the table of
      visibilities, and a rejected submission is never stored. */
  lemma StoredPublications(c: FieldChecks, p: Policy, s: RegistryState, id: string, v: string)
    requires SnapshotOk(c, p, s) && Has(s.records, id, v)
    ensures Has(s.manifests, id, v)
    ensures s.records[id][v].source.publication == s.manifests[id][v].provenance.publication
    ensures PublicationOk(c, s.manifests[id][v], s.records[id][v].boundary, p)
    ensures s.records[id][v].source.publication.Some? ==>
              s.records[id][v].source.publication.value.submission != Rejected
  {
    hide SnapshotOk; hide HeaderOk; hide EntrypointOk; hide PermissionsOk; hide ServicesOk;
    EntryOf(c, p, s, id, v);
    RejectedNeverValidates(c, s.manifests[id][v], WithRecordApprovals(p, s.records[id][v]));
  }

  predicate Settled(s: RegistryState, id: string, v: string, submission: Submission) {
    && Has(s.records, id, v)
    && s.records[id][v].source.publication.Some?
    && s.records[id][v].source.publication.value.submission == submission
    && submission in {Submitted, Accepted}
  }

  /** The two operations that may change a version's submission state. */
  predicate MayResubmit(op: Op, id: string, v: string) {
    match op
    case InstallOp(m, _) => m.id == id && m.version == v
    case SubmissionOp(x, _, _) => x == id
    case _ => false
  }

  /** A submitted or accepted submission changes only through a submission update or a reinstall of
      that very version; in particular no sequence of publication updates can change it. */
  lemma {:induction false} SettledSubmissionsAreSticky(
    c: FieldChecks, p: Policy, s: RegistryState, ops: seq<Op>, id: string, v: string, submission: Submission)
    requires Settled(s, id, v, submission)
    requires forall i | 0 <= i < |ops| :: !MayResubmit(ops[i], id, v)
    ensures Settled(Run(c, p, s, ops), id, v, submission)
    decreases |ops|
  {
    hide Apply;
    if ops == [] {
    } else {
      var t := Apply(c, p, s, ops[0]).state;
      SettledStep(c, p, s, ops[0], id, v, submission);
      SettledSubmissionsAreSticky(c, p, t, ops[1..], id, v, submission);
    }
  }

  lemma SettledStep(
    c: FieldChecks, p: Policy, s: RegistryState, op: Op, id: string, v: string, submission: Submission)
    requires Settled(s, id, v, submission) && !MayResubmit(op, id, v)
    ensures Settled(Apply(c, p, s, op).state, id, v, submission)
  {
    hide PreflightError; hide Validate; hide BlocklistHit; hide AuditShapeOk; hide AuditTargetsOk; hide Put;
    var step := Apply(c, p, s, op);
    if step.reply.Ok? && step.reply.value.Some? {
      var r := step.reply.value.value;
      if op.InstallOp? {
        PutFacts(s.records, op.manifest.id, op.manifest.version, r);
      } else if op.RollbackOp? {
        PutFacts(s.records, op.id, step.state.active[op.id], r);
      } else {
        PutFacts(s.records, op.id, s.active[op.id], r);
      }
    } else {
      FailureLeavesStateUnchanged(c, p, s, op);
    }
  }

  // ---- the exception to reloading

  const OFFICIAL_ID := "ai.atelia.x"
  const OFFICIAL_IDENTITY := "atelia-official"
  const PADDED_IDENTITY := " " + OFFICIAL_IDENTITY
  const PADDED_DIGEST: string := "sha256:" + seq(64, (i: nat) => 'a')

  /** The default policy, but for a blank in front of the official identity. */
  const PADDED_POLICY := Policy(false, false, "ai.atelia.", "local.", PADDED_IDENTITY)

  /** An official memory strategy, listed under the padded identity the policy asks for. */
  const PADDED_MANIFEST := Manifest(
    "atelia.extension.v1", OFFICIAL_ID, "X", "1.0.0", "Atelia", "Strategy", ">=0.1", ">=0.1",
    [OtherKind("memory_strategy")],
    Entrypoints(Backend, Wasm, None, Some("x.wasm"), "atelia-extension-rpc.v1"), map[], [], [],
    Provenance(Registry, None, None, None, None, Some(PADDED_IDENTITY), None,
               Some(Publication(UnlistedShare, NotSubmitted)), PADDED_DIGEST, PADDED_DIGEST, Some("signature"),
               Some(OFFICIAL_IDENTITY)),
    [])

  const NO_OPTIONS := InstallOptions(None, None, None)

  const PADDED_RUN := [InstallOp(PADDED_MANIFEST, NO_OPTIONS), SubmissionOp(OFFICIAL_ID, AwaitingSubmission, None)]

  /** Checks that trim as Unicode does and accept this id, version, digest and absence of declarations. */
  ghost predicate AcceptsParts(c: FieldChecks) {
    && (forall s :: c.trim(s) == Trim(s))
    && c.reverseDns(OFFICIAL_ID) && c.semver("1.0.0") && c.digest(PADDED_DIGEST)
    && c.declarations([], [OtherKind("memory_strategy")], map[], Official)
  }

  lemma PaddedHeader(c: FieldChecks)
    requires AcceptsParts(c)
    ensures !c.Blank(OFFICIAL_ID) && !c.Blank("X") && !c.Blank("1.0.0") && !c.Blank("Atelia") && !c.Blank("Strategy")
    ensures !c.Blank(">=0.1")
  {
    hide TrimStart; hide TrimEnd; hide Trim;
    TrimKeeps(OFFICIAL_ID);
    TrimKeeps("X");
    TrimKeeps("1.0.0");
    TrimKeeps("Atelia");
    TrimKeeps("Strategy");
    TrimKeeps(">=0.1");
  }

  lemma PaddedOrigin(c: FieldChecks)
    requires AcceptsParts(c)
    ensures c.trim(PADDED_IDENTITY) == OFFICIAL_IDENTITY != PADDED_IDENTITY
    ensures !c.Blank("x.wasm") && !c.Blank("signature") && !c.Blank(OFFICIAL_IDENTITY)
  {
    hide TrimStart; hide TrimEnd; hide Trim;
    TrimKeeps(OFFICIAL_IDENTITY);
    assert |PADDED_IDENTITY| == |OFFICIAL_IDENTITY| + 1;
    TrimKeeps("x.wasm");
    TrimKeeps("signature");
  }

  lemma PaddedManifestValidates(c: FieldChecks, publication: Publication)
    requires AcceptsParts(c) && publication.visibility == UnlistedShare
    requires publication.submission == NotSubmitted || publication.submission == AwaitingSubmission
    ensures Validate(c, Republish(PADDED_MANIFEST, Some(publication), Some(PADDED_IDENTITY)), PADDED_POLICY) ==
            Some(Official)
    ensures c.trim(PADDED_IDENTITY) == OFFICIAL_IDENTITY != PADDED_IDENTITY
  {
    hide TrimStart; hide TrimEnd; hide Trim;
    PaddedHeader(c);
    PaddedOrigin(c);
  }

  lemma PaddedInstallSucceeds(c: FieldChecks) returns (s: RegistryState, r: InstallRecord)
    requires AcceptsParts(c)
    ensures s == Install(c, PADDED_POLICY, EMPTY, PADDED_MANIFEST, NO_OPTIONS).state
    ensures s.active == map[OFFICIAL_ID := "1.0.0"] && s.records == map[OFFICIAL_ID := map["1.0.0" := r]]
    ensures s.manifests == map[OFFICIAL_ID := map["1.0.0" := PADDED_MANIFEST]] && s.blocklist == []
    ensures r.boundary == Official && r.source.publication == PADDED_MANIFEST.provenance.publication
    ensures WithRecordApprovals(PADDED_POLICY, r) == PADDED_POLICY
  {
    hide Validate; hide TrimStart; hide TrimEnd; hide Trim;
    PaddedManifestValidates(c, Publication(UnlistedShare, NotSubmitted));
    assert Republish(PADDED_MANIFEST, PADDED_MANIFEST.provenance.publication, Some(PADDED_IDENTITY)) == PADDED_MANIFEST;
    assert EffectivePolicy(PADDED_POLICY, NO_OPTIONS) == PADDED_POLICY;
    var step := Install(c, PADDED_POLICY, EMPTY, PADDED_MANIFEST, NO_OPTIONS);
    s, r := step.state, step.reply.value.value;
  }

  /** With a blank in front of the official identity, installing an official package and updating its
      submission already lead to a state the registry refuses to load. */
  lemma PaddedIdentityBreaksReload(c: FieldChecks)
    requires AcceptsParts(c)
    ensures Idempotent(c.trim)
    ensures Load(c, PADDED_POLICY, Run(c, PADDED_POLICY, EMPTY, PADDED_RUN)).None?
  {
    hide SnapshotOk; hide Validate; hide Install; hide TrimStart; hide TrimEnd; hide Trim;
    var p := PADDED_POLICY;
    forall s: string ensures Trim(Trim(s)) == Trim(s) { TrimIdempotent(s); }
    var s, r := PaddedInstallSucceeds(c);
    EmptyIsValid(c, p);
    InstallKeepsValid(c, p, p, EMPTY, PADDED_MANIFEST, NO_OPTIONS);
    PaddedManifestValidates(c, Publication(UnlistedShare, AwaitingSubmission));
    SubmissionKeepsValidIff(c, p, p, s, OFFICIAL_ID, AwaitingSubmission, None);
    var t := Apply(c, p, s, PADDED_RUN[1]).state;
    assert PADDED_RUN[1..][1..] == [];
    assert Run(c, p, EMPTY, PADDED_RUN) == Run(c, p, s, PADDED_RUN[1..]) == Run(c, p, t, PADDED_RUN[1..][1..]);
  }
}
