/** What each registry operation does to the registry state, as functions of that state, and the
    checker a saved state must pass to be loaded again. */
module RegistrySpec {
  import opened Prelude
  import opened ExtensionManifest
  import opened RollbackGraph

  datatype InstallStatus =
    Installed | Disabled | BlockedStatus | Updating | RollbackInProgress | InstalledPreviousVersion

  datatype SourceSnapshot = SourceSnapshot(
    source: ProvenanceSource,
    repository: Option<string>,
    sourceRef: Option<string>,
    manifestPath: Option<string>,
    commit: Option<string>,
    registryIdentity: Option<string>,
    lineage: Option<Lineage>,
    publication: Option<Publication>)

  function FromProvenance(c: FieldChecks, v: Provenance): SourceSnapshot {
    SourceSnapshot(
      v.source, c.TrimOptional(v.repository), c.TrimOptional(v.sourceRef), c.TrimOptional(v.manifestPath),
      v.commit, c.TrimOptional(v.registryIdentity), v.lineage, v.publication)
  }

  predicate MatchesAuthority(c: FieldChecks, a: SourceSnapshot, b: SourceSnapshot) {
    && a.source == b.source
    && c.TrimOptional(a.repository) == c.TrimOptional(b.repository)
    && c.TrimOptional(a.sourceRef) == c.TrimOptional(b.sourceRef)
    && c.TrimOptional(a.manifestPath) == c.TrimOptional(b.manifestPath)
    && c.TrimOptional(a.registryIdentity) == c.TrimOptional(b.registryIdentity)
    && a.lineage == b.lineage
  }

  datatype RollbackSnapshot = RollbackSnapshot(manifestDigest: string, artifactDigest: string)

  datatype InstallRecord = InstallRecord(
    id: string,
    version: string,
    manifestDigest: string,
    artifactDigest: string,
    source: SourceSnapshot,
    boundary: Boundary,
    status: InstallStatus,
    previous: Option<string>,
    approvedPermissions: set<string>,
    approvedUnsigned: bool,
    approvedProcess: bool,
    rollbackSnapshot: Option<RollbackSnapshot>)

  datatype BlockKey =
    | ExtensionId(id: string)
    | ExtensionVersion(id: string, version: string)
    | ArtifactDigest(digest: string)
    | Signer(signer: string)
    | Publisher(publisher: string)
    | SourceRepository(repository: string)
    | PermissionPattern(pattern: string)
    | VulnerabilityId(vulnerability: string)

  datatype BlocklistEntry = BlocklistEntry(key: BlockKey, reason: string, note: Option<string>)

  predicate PermissionMatches(pattern: string, permission: string) {
    if pattern != "" && pattern[|pattern| - 1] == '*' then pattern[..|pattern| - 1] <= permission
    else pattern == permission
  }

  predicate MatchesManifest(c: FieldChecks, entry: BlocklistEntry, m: Manifest) {
    match entry.key
    case ExtensionId(id) => m.id == id
    case ExtensionVersion(id, version) => m.id == id && m.version == version
    case ArtifactDigest(digest) => m.provenance.artifactDigest == digest
    case Signer(signer) => m.provenance.signer.Some? && c.trim(m.provenance.signer.value) == c.trim(signer)
    case Publisher(publisher) => c.trim(m.publisher) == c.trim(publisher)
    case SourceRepository(repository) =>
      m.provenance.repository.Some? && c.trim(m.provenance.repository.value) == c.trim(repository)
    case PermissionPattern(pattern) => exists name | name in m.permissions :: PermissionMatches(pattern, name)
    case VulnerabilityId(_) => false
  }

  datatype AuditKind =
    | InstallAudit | UpdateAudit | RollbackAudit | DisableAudit | EnableAudit | RemoveAudit
    | PublicationAudit | SubmissionAudit | BlocklistAudit

  datatype RecordRef = RecordRef(
    packageId: string, version: string, manifestDigest: string, artifactDigest: string, status: InstallStatus)

  datatype AuditRecord = AuditRecord(
    id: string,
    schemaVersion: nat,
    kind: AuditKind,
    requestSource: string,
    reason: string,
    packageId: Option<string>,
    previousRecord: Option<RecordRef>,
    newRecord: Option<RecordRef>,
    provenance: Option<SourceSnapshot>,
    blocklistEntry: Option<BlocklistEntry>)

  /** The registry's state, which is also what a snapshot saves. */
  datatype RegistryState = RegistryState(
    manifests: map<string, map<string, Manifest>>,
    records: map<string, map<string, InstallRecord>>,
    active: map<string, string>,
    blocklist: seq<BlocklistEntry>,
    audits: seq<AuditRecord>)

  const EMPTY := RegistryState(map[], map[], map[], [], [])

  predicate Has<T>(m: map<string, map<string, T>>, id: string, v: string) {
    id in m && v in m[id]
  }

  function Put<T>(m: map<string, map<string, T>>, id: string, v: string, x: T): map<string, map<string, T>> {
    m[id := (if id in m then m[id] else map[])[v := x]]
  }

  function GraphOf(records: map<string, map<string, InstallRecord>>, id: string): Graph {
    if id in records then map v | v in records[id] :: records[id][v].previous else map[]
  }

  // ---- operations

  datatype RegistryError =
    | Validation
    | UnsupportedBlocklistKey
    | Blocked(entry: BlocklistEntry)
    | DigestConflict
    | SourceChangeRequiresApproval
    | NotInstalled
    | RollbackUnavailable
    | ServiceDenied
    | ServiceUnavailable

  type Reply = Result<Option<InstallRecord>, RegistryError>

  /** An operation's new state and reply. */
  datatype Step = Step(state: RegistryState, reply: Reply)

  datatype InstallOptions = InstallOptions(
    approveUnsigned: Option<bool>, allowProcess: Option<bool>, approveSourceChange: Option<bool>)

  function Fail(s: RegistryState, e: RegistryError): Step {
    Step(s, Err(e))
  }

  function BlocklistHit(c: FieldChecks, blocklist: seq<BlocklistEntry>, m: Manifest): Option<BlocklistEntry> {
    if blocklist == [] then None
    else if MatchesManifest(c, blocklist[0], m) then Some(blocklist[0])
    else BlocklistHit(c, blocklist[1..], m)
  }

  function EffectivePolicy(p: Policy, o: InstallOptions): Policy {
    p.(allowUnsigned := if o.approveUnsigned.Some? then o.approveUnsigned.value else p.allowUnsigned,
       allowProcess := if o.allowProcess.Some? then o.allowProcess.value else p.allowProcess)
  }

  function WithRecordApprovals(p: Policy, r: InstallRecord): Policy {
    p.(allowUnsigned := p.allowUnsigned || r.approvedUnsigned, allowProcess := p.allowProcess || r.approvedProcess)
  }

  function NewRecord(
    c: FieldChecks, m: Manifest, boundary: Boundary, previous: Option<string>, effective: Policy): InstallRecord
  {
    InstallRecord(
      m.id, m.version, m.provenance.manifestDigest, m.provenance.artifactDigest, FromProvenance(c, m.provenance),
      boundary, Installed, previous, m.permissions.Keys, effective.allowUnsigned, effective.allowProcess,
      Some(RollbackSnapshot(m.provenance.manifestDigest, m.provenance.artifactDigest)))
  }

  /** The checks shared by `validate` and `install`. */
  function PreflightError(c: FieldChecks, p: Policy, s: RegistryState, m: Manifest, o: InstallOptions)
    : Option<RegistryError>
  {
    if Validate(c, m, EffectivePolicy(p, o)).None? then Some(Validation)
    else if BlocklistHit(c, s.blocklist, m).Some? then Some(Blocked(BlocklistHit(c, s.blocklist, m).value))
    else if && Has(s.records, m.id, m.version)
            && (|| s.records[m.id][m.version].manifestDigest != m.provenance.manifestDigest
                || s.records[m.id][m.version].artifactDigest != m.provenance.artifactDigest)
    then Some(DigestConflict)
    else if && m.id in s.active && Has(s.records, m.id, s.active[m.id])
            && !MatchesAuthority(c, s.records[m.id][s.active[m.id]].source, FromProvenance(c, m.provenance))
            && o.approveSourceChange != Some(true)
    then Some(SourceChangeRequiresApproval)
    else None
  }

  /** The rollback pointer a newly installed version gets. */
  function InstallPrevious(s: RegistryState, id: string, version: string): Option<string> {
    if id !in s.active then None
    else if s.active[id] == version then Prev(GraphOf(s.records, id), version)
    else Some(s.active[id])
  }

  /** Installing over a recorded, inactive version that the active chain still leads to. */
  ghost predicate ClosesCycle(s: RegistryState, id: string, version: string) {
    && id in s.active
    && s.active[id] != version
    && Has(s.records, id, version)
    && Reaches(GraphOf(s.records, id), s.active[id], version)
  }

  ghost function Install(c: FieldChecks, p: Policy, s: RegistryState, m: Manifest, o: InstallOptions): Step {
    var error := PreflightError(c, p, s, m, o);
    if error.Some? then Fail(s, error.value)
    else if ClosesCycle(s, m.id, m.version) then Fail(s, Validation)
    else
      var effective := EffectivePolicy(p, o);
      var record := NewRecord(
        c, m, Validate(c, m, effective).value, InstallPrevious(s, m.id, m.version), effective);
      Step(s.(manifests := Put(s.manifests, m.id, m.version, m),
              records := Put(s.records, m.id, m.version, record),
              active := s.active[m.id := m.version]),
           Ok(Some(record)))
  }

  function SetRecord(s: RegistryState, id: string, v: string, r: InstallRecord): Step {
    Step(s.(records := Put(s.records, id, v, r)), Ok(Some(r)))
  }

  function Rollback(c: FieldChecks, s: RegistryState, id: string): Step {
    if id !in s.active || !Has(s.records, id, s.active[id]) then Fail(s, NotInstalled)
    else
      var previous := s.records[id][s.active[id]].previous;
      if previous.None? || !Has(s.manifests, id, previous.value) then Fail(s, RollbackUnavailable)
      else if BlocklistHit(c, s.blocklist, s.manifests[id][previous.value]).Some? then
        Fail(s, Blocked(BlocklistHit(c, s.blocklist, s.manifests[id][previous.value]).value))
      else if !Has(s.records, id, previous.value) then Fail(s, RollbackUnavailable)
      else
        SetRecord(s.(active := s.active[id := previous.value]), id, previous.value,
                  s.records[id][previous.value].(status := InstalledPreviousVersion))
  }

  function Disable(s: RegistryState, id: string): Step {
    if id !in s.active || !Has(s.records, id, s.active[id]) then Fail(s, NotInstalled)
    else SetRecord(s, id, s.active[id], s.records[id][s.active[id]].(status := Disabled))
  }

  function Enable(c: FieldChecks, s: RegistryState, id: string): Step {
    if id !in s.active || !Has(s.manifests, id, s.active[id]) then Fail(s, NotInstalled)
    else if BlocklistHit(c, s.blocklist, s.manifests[id][s.active[id]]).Some? then
      Fail(s, Blocked(BlocklistHit(c, s.blocklist, s.manifests[id][s.active[id]]).value))
    else if !Has(s.records, id, s.active[id]) then Fail(s, NotInstalled)
    else SetRecord(s, id, s.active[id], s.records[id][s.active[id]].(status := Installed))
  }

  function Remove(s: RegistryState, id: string): Step {
    if id !in s.active || !Has(s.records, id, s.active[id]) then Fail(s, NotInstalled)
    else
      SetRecord(s.(active := s.active - {id}), id, s.active[id], s.records[id][s.active[id]].(status := Disabled))
  }

  /** A submission the registry has already ruled on, or been asked to, is not the caller's to change. */
  function StickySubmission(r: InstallRecord, publication: Publication): Publication {
    if r.source.publication.Some? && r.source.publication.value.submission in {Submitted, Accepted, Rejected}
    then publication.(submission := r.source.publication.value.submission)
    else publication
  }

  /** Why a rewritten manifest may not replace the stored one. */
  function RepublishError(c: FieldChecks, p: Policy, s: RegistryState, r: InstallRecord, m: Manifest)
    : Option<RegistryError>
  {
    if Validate(c, m, WithRecordApprovals(p, r)).None? then Some(Validation)
    else if BlocklistHit(c, s.blocklist, m).Some? then Some(Blocked(BlocklistHit(c, s.blocklist, m).value))
    else None
  }

  function UpdatePublication(c: FieldChecks, p: Policy, s: RegistryState, id: string, publication: Publication): Step {
    if id !in s.active || !Has(s.manifests, id, s.active[id]) || !Has(s.records, id, s.active[id]) then
      Fail(s, NotInstalled)
    else
      var v := s.active[id];
      var (m, r) := (s.manifests[id][v], s.records[id][v]);
      var kept := Some(StickySubmission(r, publication));
      var republished := Republish(m, kept, m.provenance.registryIdentity);
      var error := RepublishError(c, p, s, r, republished);
      if error.Some? then Fail(s, error.value)
      else
        SetRecord(s.(manifests := Put(s.manifests, id, v, republished)), id, v,
                  r.(source := r.source.(publication := kept)))
  }

  /** The identity a submission update validates: the stored one, or the requested one if none is stored. */
  function SubmissionIdentity(c: FieldChecks, m: Manifest, requested: Option<string>): Option<string> {
    if c.HasText(m.provenance.registryIdentity) then m.provenance.registryIdentity else c.TrimOptional(requested)
  }

  function UpdateSubmission(
    c: FieldChecks, p: Policy, s: RegistryState, id: string, submission: Submission, identity: Option<string>): Step
  {
    if id !in s.active || !Has(s.records, id, s.active[id]) then Fail(s, NotInstalled)
    else
      var v := s.active[id];
      var r := s.records[id][v];
      if r.source.publication.None? then Fail(s, Validation)
      else if !Has(s.manifests, id, v) then Fail(s, NotInstalled)
      else
        var m := s.manifests[id][v];
        var existing := c.TrimOptional(m.provenance.registryIdentity);
        var requested := c.TrimOptional(identity);
        if existing.Some? && requested.Some? && existing != requested then Fail(s, SourceChangeRequiresApproval)
        else
          var publication := Some(r.source.publication.value.(submission := submission));
          var republished := Republish(m, publication, SubmissionIdentity(c, m, identity));
          var error := RepublishError(c, p, s, r, republished);
          if error.Some? then Fail(s, error.value)
          else
            var stored := Republish(m, publication, c.TrimOptional(SubmissionIdentity(c, m, identity)));
            SetRecord(s.(manifests := Put(s.manifests, id, v, stored)), id, v,
                      r.(source := FromProvenance(c, stored.provenance)))
  }

  function AddBlocklistEntry(s: RegistryState, entry: BlocklistEntry): Step {
    if entry.key.VulnerabilityId? then Fail(s, UnsupportedBlocklistKey)
    else Step(s.(blocklist := s.blocklist + [entry]), Ok(None))
  }

  function AppendAudit(c: FieldChecks, s: RegistryState, a: AuditRecord): Step {
    if !AuditShapeOk(c, a) || a.id in AuditIds(s.audits) || !AuditTargetsOk(a, s.records, true) then
      Fail(s, Validation)
    else Step(s.(audits := s.audits + [a]), Ok(None))
  }

  // ---- audit records

  function AuditIds(audits: seq<AuditRecord>): set<string> {
    set i | 0 <= i < |audits| :: audits[i].id
  }

  predicate RefShapeOk(c: FieldChecks, r: Option<RecordRef>) {
    r.Some? ==>
      && c.reverseDns(r.value.packageId) && c.semver(r.value.version)
      && c.digest(r.value.manifestDigest) && c.digest(r.value.artifactDigest)
  }

  predicate Trimmed(c: FieldChecks, o: Option<string>) {
    o.Some? ==> c.HasText(o) && c.trim(o.value) == o.value
  }

  predicate AuditProvenanceOk(c: FieldChecks, v: SourceSnapshot) {
    && Trimmed(c, v.repository) && Trimmed(c, v.sourceRef) && Trimmed(c, v.manifestPath)
    && Trimmed(c, v.commit) && Trimmed(c, v.registryIdentity)
    && (v.source == Github ==> v.repository.Some? && v.sourceRef.Some? && v.manifestPath.Some? && v.commit.Some?)
    && (v.source == Registry ==> v.registryIdentity.Some?)
  }

  predicate RefNames(r: Option<RecordRef>, id: string) {
    r.Some? ==> r.value.packageId == id
  }

  predicate RefNamesVersion(r: Option<RecordRef>, id: string, version: string) {
    RefNames(r, id) && (r.Some? ==> r.value.version == version)
  }

  /** Which references each kind of audit record must carry. */
  predicate AuditPayloadOk(a: AuditRecord) {
    match a.kind
    case InstallAudit => a.packageId.Some? && a.newRecord.Some? && a.provenance.Some?
    case RemoveAudit => a.packageId.Some? && a.previousRecord.Some? && a.provenance.Some?
    case BlocklistAudit =>
      a.blocklistEntry.Some? &&
      (match a.blocklistEntry.value.key
       case ExtensionId(id) =>
         a.packageId == Some(id) && RefNames(a.previousRecord, id) && RefNames(a.newRecord, id)
       case ExtensionVersion(id, version) =>
         && a.packageId == Some(id)
         && RefNamesVersion(a.previousRecord, id, version) && RefNamesVersion(a.newRecord, id, version)
       case VulnerabilityId(_) => false
       case _ => a.packageId.None? && a.previousRecord.None? && a.newRecord.None? && a.provenance.None?)
    case _ => a.packageId.Some? && a.previousRecord.Some? && a.newRecord.Some? && a.provenance.Some?
  }

  /** Everything checked of an audit record by itself. */
  predicate AuditShapeOk(c: FieldChecks, a: AuditRecord) {
    && a.schemaVersion == 1
    && !c.Blank(a.reason) && !c.Blank(a.requestSource)
    && (a.packageId.Some? ==> c.reverseDns(a.packageId.value))
    && RefShapeOk(c, a.previousRecord) && RefShapeOk(c, a.newRecord)
    && (a.provenance.Some? ==> AuditProvenanceOk(c, a.provenance.value))
    && AuditPayloadOk(a)
  }

  predicate RefResolves(
    r: Option<RecordRef>, records: map<string, map<string, InstallRecord>>, enforceStatus: bool)
  {
    r.Some? ==>
      && Has(records, r.value.packageId, r.value.version)
      && records[r.value.packageId][r.value.version].manifestDigest == r.value.manifestDigest
      && records[r.value.packageId][r.value.version].artifactDigest == r.value.artifactDigest
      && (enforceStatus ==> records[r.value.packageId][r.value.version].status == r.value.status)
  }

  predicate AuditTargetsOk(
    a: AuditRecord, records: map<string, map<string, InstallRecord>>, enforceStatus: bool)
  {
    && (a.packageId.Some? ==> RefNames(a.previousRecord, a.packageId.value) && RefNames(a.newRecord, a.packageId.value))
    && RefResolves(a.previousRecord, records, false)
    && RefResolves(a.newRecord, records, enforceStatus)
  }

  // ---- the checker run when a saved state is loaded

  predicate AuditsOk(c: FieldChecks, s: RegistryState) {
    && (forall i | 0 <= i < |s.audits| ::
          AuditShapeOk(c, s.audits[i]) && AuditTargetsOk(s.audits[i], s.records, false))
    && (forall i, j | 0 <= i < j < |s.audits| :: s.audits[i].id != s.audits[j].id)
  }

  /** What must hold between one install record and its manifest. */
  predicate EntryOk(c: FieldChecks, p: Policy, id: string, v: string, r: InstallRecord, m: Manifest) {
    && r.id == id && r.version == v && m.id == id && m.version == v
    && m.provenance.artifactDigest == r.artifactDigest
    && m.provenance.manifestDigest == r.manifestDigest
    && r.source == FromProvenance(c, m.provenance)
    && Validate(c, m, WithRecordApprovals(p, r)) == Some(r.boundary)
  }

  ghost predicate Paired(s: RegistryState) {
    && (forall id, v | Has(s.records, id, v) :: Has(s.manifests, id, v))
    && (forall id, v | Has(s.manifests, id, v) :: Has(s.records, id, v))
  }

  ghost predicate EntriesOk(c: FieldChecks, p: Policy, s: RegistryState) {
    forall id, v | Has(s.records, id, v) && Has(s.manifests, id, v) ::
      EntryOk(c, p, id, v, s.records[id][v], s.manifests[id][v])
  }

  ghost predicate GraphOk(g: Graph) {
    Closed(g) && Acyclic(g)
  }

  ghost predicate GraphsOk(s: RegistryState) {
    forall id | id in s.records :: GraphOk(GraphOf(s.records, id))
  }

  predicate ActiveOk(s: RegistryState) {
    forall id | id in s.active :: Has(s.records, id, s.active[id])
  }

  predicate BlocklistOk(s: RegistryState) {
    forall i | 0 <= i < |s.blocklist| :: !s.blocklist[i].key.VulnerabilityId?
  }

  ghost predicate SnapshotOk(c: FieldChecks, p: Policy, s: RegistryState) {
    Paired(s) && EntriesOk(c, p, s) && GraphsOk(s) && ActiveOk(s) && BlocklistOk(s) && AuditsOk(c, s)
  }

  lemma EntryOf(c: FieldChecks, q: Policy, s: RegistryState, id: string, v: string)
    requires SnapshotOk(c, q, s) && Has(s.records, id, v)
    ensures Has(s.manifests, id, v) && EntryOk(c, q, id, v, s.records[id][v], s.manifests[id][v])
  {
    hide EntryOk; hide GraphsOk; hide AuditsOk;
  }

  lemma ActiveEntry(c: FieldChecks, q: Policy, s: RegistryState, id: string)
    requires SnapshotOk(c, q, s) && id in s.active
    ensures Has(s.records, id, s.active[id]) && Has(s.manifests, id, s.active[id])
    ensures EntryOk(c, q, id, s.active[id], s.records[id][s.active[id]], s.manifests[id][s.active[id]])
  {
    hide EntryOk; hide GraphsOk; hide AuditsOk;
    assert Has(s.records, id, s.active[id]);
  }
}
