/** Extension manifests and their validation.

    Errors are collapsed: validation yields the package boundary or nothing. Character-level
    field checks (reverse-DNS ids, semver, digests, permission names) and the declarations that
    no registry operation reads (tools, tool output, hooks, webhooks, composition, migration)
    are parameters, so every result holds for whatever those checks are. */
module ExtensionManifest {
  import opened Prelude

  datatype ProvenanceSource = Github | Registry | Local
  datatype Boundary = Official | ThirdParty | LocalDevelopment
  datatype Visibility = PrivateRemix | UnlistedShare | PublicSearchable | OfficialListing
  datatype Submission = NotSubmitted | AwaitingSubmission | Submitted | Accepted | Rejected
  datatype Publication = Publication(visibility: Visibility, submission: Submission)
  datatype Relationship = Remix | Fork | Derived
  datatype Lineage = Lineage(
    parentId: string, parentVersion: Option<string>, parentDigest: Option<string>, relationship: Relationship)

  datatype Provenance = Provenance(
    source: ProvenanceSource,
    repository: Option<string>,
    sourceRef: Option<string>,
    manifestPath: Option<string>,
    commit: Option<string>,
    registryIdentity: Option<string>,
    lineage: Option<Lineage>,
    publication: Option<Publication>,
    artifactDigest: string,
    manifestDigest: string,
    signature: Option<string>,
    signer: Option<string>)

  datatype Realm = Backend | Client
  datatype Runtime = WasmRust | Wasm | Docker | Process | Remote | SwiftClient
  datatype Entrypoints = Entrypoints(
    realm: Realm, runtime: Runtime, command: Option<string>, wasm: Option<string>, protocol: string)

  datatype Kind = ServiceKind | OtherKind(name: string)
  datatype Permission = Permission(description: string, riskTier: Option<string>)
  datatype ServiceDefinition = ServiceDefinition(
    service: string, operation: string, schemaVersion: string, requiredPermission: string)
  datatype ServiceDependency = ServiceDependency(
    extensionId: string, service: string, operation: string, schemaVersion: string, requiredPermission: string)

  /** The declarations that only validation looks at, in serialised form. */
  type Declarations = seq<string>

  datatype Manifest = Manifest(
    schema: string,
    id: string,
    name: string,
    version: string,
    publisher: string,
    description: string,
    protocolRange: string,
    secretaryRange: string,
    kinds: seq<Kind>,
    entrypoints: Entrypoints,
    permissions: map<string, Permission>,
    providedServices: seq<ServiceDefinition>,
    consumedServices: seq<ServiceDependency>,
    provenance: Provenance,
    declarations: Declarations)

  datatype Policy = Policy(
    allowUnsigned: bool, allowProcess: bool, officialPrefix: string, localPrefix: string, officialIdentity: string)

  /** The field-level checks a manifest goes through, as arbitrary predicates. */
  datatype FieldChecks = FieldChecks(
    trim: string -> string,
    spaceFree: string -> bool,
    reverseDns: string -> bool,
    semver: string -> bool,
    digest: string -> bool,
    permissionName: string -> bool,
    declarations: (Declarations, seq<Kind>, map<string, Permission>, Boundary) -> bool)
  {
    predicate Blank(s: string) {
      trim(s) == ""
    }

    /** Present and not blank. */
    predicate HasText(o: Option<string>) {
      o.Some? && !Blank(o.value)
    }

    /** Trims an optional string; a blank one becomes absent. */
    function TrimOptional(o: Option<string>): Option<string> {
      if HasText(o) then Some(trim(o.value)) else None
    }
  }

  /** All that is used of trimming: doing it twice is doing it once. */
  ghost predicate Idempotent(trim: string -> string) {
    forall s :: trim(trim(s)) == trim(s)
  }


  predicate HeaderOk(c: FieldChecks, m: Manifest) {
    && m.schema == "atelia.extension.v1"
    && !c.Blank(m.id) && c.reverseDns(m.id)
    && !c.Blank(m.name)
    && !c.Blank(m.version) && c.semver(m.version)
    && !c.Blank(m.publisher) && !c.Blank(m.description)
    && !c.Blank(m.protocolRange) && !c.Blank(m.secretaryRange)
    && m.kinds != []
  }

  function ClassifyBoundary(m: Manifest, p: Policy): Option<Boundary> {
    match m.provenance.source
    case Local => if p.localPrefix <= m.id then Some(LocalDevelopment) else None
    case _ =>
      if p.officialPrefix <= m.id then
        if m.provenance.registryIdentity == Some(p.officialIdentity) then Some(Official) else None
      else if p.localPrefix <= m.id then None
      else Some(ThirdParty)
  }

  predicate EntrypointOk(c: FieldChecks, m: Manifest, b: Boundary, p: Policy) {
    var e := m.entrypoints;
    && e.realm == Backend
    && e.protocol == "atelia-extension-rpc.v1"
    && match e.runtime
       case WasmRust | Wasm => c.HasText(e.wasm)
       case Process => b == LocalDevelopment && p.allowProcess && c.HasText(e.command)
       case _ => false
  }

  predicate ProvenanceOk(c: FieldChecks, m: Manifest, b: Boundary, p: Policy) {
    var v := m.provenance;
    && c.digest(v.artifactDigest) && c.digest(v.manifestDigest)
    && ((c.HasText(v.signature) && c.HasText(v.signer)) || (b == LocalDevelopment && p.allowUnsigned))
    && (v.source == Github ==>
          c.HasText(v.repository) && c.HasText(v.sourceRef) && c.HasText(v.manifestPath) && c.HasText(v.commit))
    && (v.source == Registry ==> c.HasText(v.registryIdentity))
    && (v.lineage.Some? ==>
          && c.reverseDns(v.lineage.value.parentId)
          && (v.lineage.value.parentVersion.Some? ==> c.semver(v.lineage.value.parentVersion.value))
          && (v.lineage.value.parentDigest.Some? ==> c.digest(v.lineage.value.parentDigest.value)))
    && PublicationOk(c, m, b, p)
  }

  predicate PublicationOk(c: FieldChecks, m: Manifest, b: Boundary, p: Policy) {
    m.provenance.publication.None? ||
    var submission := m.provenance.publication.value.submission;
    var identified := c.HasText(m.provenance.registryIdentity);
    match m.provenance.publication.value.visibility
    case PrivateRemix => submission == NotSubmitted
    case UnlistedShare =>
      submission != Rejected && (submission == Submitted || submission == Accepted ==> identified)
    case PublicSearchable =>
      && b != LocalDevelopment
      && (submission == AwaitingSubmission || identified)
      && submission != NotSubmitted && submission != Rejected
    case OfficialListing =>
      && b == Official
      && m.provenance.registryIdentity == Some(p.officialIdentity)
      && submission == Accepted
  }

  predicate PermissionsOk(c: FieldChecks, permissions: map<string, Permission>) {
    forall name | name in permissions ::
      && c.permissionName(name)
      && !c.Blank(permissions[name].description)
      && (permissions[name].riskTier.Some? ==> permissions[name].riskTier.value in {"R0", "R1", "R2", "R3", "R4"})
  }

  predicate ServicePartsOk(c: FieldChecks, service: string, operation: string, schemaVersion: string) {
    && !c.Blank(service) && !c.Blank(operation) && !c.Blank(schemaVersion)
    && c.spaceFree(service) && c.spaceFree(operation) && c.spaceFree(schemaVersion)
  }

  function ServiceKey(service: string, operation: string, schemaVersion: string): string {
    service + ":" + operation + ":" + schemaVersion
  }

  function ProvideKey(d: ServiceDefinition): string {
    ServiceKey(d.service, d.operation, d.schemaVersion)
  }

  function ConsumeKey(d: ServiceDependency): string {
    d.extensionId + ":" + ServiceKey(d.service, d.operation, d.schemaVersion)
  }

  predicate ProvideOk(c: FieldChecks, permissions: map<string, Permission>, d: ServiceDefinition) {
    && ServicePartsOk(c, d.service, d.operation, d.schemaVersion)
    && c.permissionName(d.requiredPermission)
    && d.requiredPermission in permissions
  }

  predicate ConsumeOk(c: FieldChecks, permissions: map<string, Permission>, d: ServiceDependency) {
    && c.reverseDns(d.extensionId)
    && ServicePartsOk(c, d.service, d.operation, d.schemaVersion)
    && c.permissionName(d.requiredPermission)
    && d.requiredPermission in permissions
  }

  predicate ProvidesOk(c: FieldChecks, permissions: map<string, Permission>, ds: seq<ServiceDefinition>) {
    && (forall i | 0 <= i < |ds| :: ProvideOk(c, permissions, ds[i]))
    && (forall i, j | 0 <= i < j < |ds| :: ProvideKey(ds[i]) != ProvideKey(ds[j]))
  }

  predicate ConsumesOk(c: FieldChecks, permissions: map<string, Permission>, ds: seq<ServiceDependency>) {
    && (forall i | 0 <= i < |ds| :: ConsumeOk(c, permissions, ds[i]))
    && (forall i, j | 0 <= i < j < |ds| :: ConsumeKey(ds[i]) != ConsumeKey(ds[j]))
  }

  predicate ServicesOk(
    c: FieldChecks, kinds: seq<Kind>, permissions: map<string, Permission>,
    provided: seq<ServiceDefinition>, consumed: seq<ServiceDependency>)
  {
    && (provided != [] || consumed != [] <==> ServiceKind in kinds)
    && ProvidesOk(c, permissions, provided)
    && ConsumesOk(c, permissions, consumed)
  }

  /** One pass with the set of formatted keys seen so far. */
  method ValidateProvides(c: FieldChecks, permissions: map<string, Permission>, ds: seq<ServiceDefinition>)
    returns (ok: bool)
    ensures ok <==> ProvidesOk(c, permissions, ds)
  {
    var seen: set<string> := {};
    for i := 0 to |ds|
      invariant seen == set j | 0 <= j < i :: ProvideKey(ds[j])
      invariant ProvidesOk(c, permissions, ds[..i])
    {
      var key := ProvideKey(ds[i]);
      assert ds[..i + 1][i] == ds[i] && forall j | 0 <= j < i :: ds[..i][j] == ds[j];
      if !ProvideOk(c, permissions, ds[i]) || key in seen {
        return false;
      }
      seen := seen + {key};
    }
    assert ds[..|ds|] == ds;
    return true;
  }

  method ValidateConsumes(c: FieldChecks, permissions: map<string, Permission>, ds: seq<ServiceDependency>)
    returns (ok: bool)
    ensures ok <==> ConsumesOk(c, permissions, ds)
  {
    hide ConsumeOk; hide ConsumeKey;
    var seen: set<string> := {};
    for i := 0 to |ds|
      invariant seen == set j | 0 <= j < i :: ConsumeKey(ds[j])
      invariant ConsumesOk(c, permissions, ds[..i])
    {
      var key := ConsumeKey(ds[i]);
      assert ds[..i + 1][i] == ds[i] && forall j | 0 <= j < i :: ds[..i][j] == ds[j];
      if !ConsumeOk(c, permissions, ds[i]) || key in seen {
        return false;
      }
      seen := seen + {key};
    }
    assert ds[..|ds|] == ds;
    return true;
  }

  /** The boundary a manifest validates as under a policy, if it validates. */
  function Validate(c: FieldChecks, m: Manifest, p: Policy): Option<Boundary> {
    var boundary := ClassifyBoundary(m, p);
    if && HeaderOk(c, m)
       && boundary.Some?
       && EntrypointOk(c, m, boundary.value, p)
       && ProvenanceOk(c, m, boundary.value, p)
       && PermissionsOk(c, m.permissions)
       && ServicesOk(c, m.kinds, m.permissions, m.providedServices, m.consumedServices)
       && c.declarations(m.declarations, m.kinds, m.permissions, boundary.value)
    then boundary
    else None
  }

  method ValidateManifest(c: FieldChecks, m: Manifest, p: Policy) returns (boundary: Option<Boundary>)
    ensures boundary == Validate(c, m, p)
  {
    boundary := ClassifyBoundary(m, p);
    if !HeaderOk(c, m) || boundary.None? {
      return None;
    }
    var b := boundary.value;
    if !EntrypointOk(c, m, b, p) || !ProvenanceOk(c, m, b, p) || !PermissionsOk(c, m.permissions) {
      return None;
    }
    if (m.providedServices != [] || m.consumedServices != []) != (ServiceKind in m.kinds) {
      return None;
    }
    var providesOk := ValidateProvides(c, m.permissions, m.providedServices);
    var consumesOk := ValidateConsumes(c, m.permissions, m.consumedServices);
    if !providesOk || !consumesOk || !c.declarations(m.declarations, m.kinds, m.permissions, b) {
      return None;
    }
  }

  // ---- what validation depends on

  /** `q` grants no approval that `p` does not grant, and is otherwise the same policy. */
  predicate NoLaxer(q: Policy, p: Policy) {
    && q.officialPrefix == p.officialPrefix
    && q.localPrefix == p.localPrefix
    && q.officialIdentity == p.officialIdentity
    && (q.allowUnsigned ==> p.allowUnsigned)
    && (q.allowProcess ==> p.allowProcess)
  }

  /** Granting more approvals never rejects a manifest and never changes its boundary. */
  lemma ValidateMonotone(c: FieldChecks, m: Manifest, q: Policy, p: Policy)
    requires NoLaxer(q, p)
    requires Validate(c, m, q).Some?
    ensures Validate(c, m, p) == Validate(c, m, q)
  {
  }

  /** The part of a manifest the two publication operations may rewrite. */
  function Republish(m: Manifest, publication: Option<Publication>, identity: Option<string>): Manifest {
    m.(provenance := m.provenance.(publication := publication, registryIdentity := identity))
  }

  /** Approvals gate the signature and the runtime only, so a republished manifest that passes
      under a laxer policy passes under every policy that accepted the manifest before. */
  lemma RepublishKeepsApprovals(
    c: FieldChecks, m: Manifest, q: Policy, p: Policy, publication: Option<Publication>, identity: Option<string>)
    requires NoLaxer(q, p)
    requires Validate(c, m, q).Some?
    requires Validate(c, Republish(m, publication, identity), p) == Validate(c, m, q)
    ensures Validate(c, Republish(m, publication, identity), q) == Validate(c, m, q)
  {
  }

  predicate IdentityTrimmed(c: FieldChecks, p: Policy) {
    c.trim(p.officialIdentity) == p.officialIdentity
  }

  /** Trimming a stored registry identity after validation keeps the manifest valid exactly
      when the package is not official or the policy's own identity carries no padding. */
  lemma TrimmingIdentityIsSafeIff(c: FieldChecks, m: Manifest, p: Policy)
    requires Idempotent(c.trim)
    requires Validate(c, m, p).Some?
    requires c.HasText(m.provenance.registryIdentity) || m.provenance.registryIdentity.None?
    ensures
      var trimmed := Republish(m, m.provenance.publication, c.TrimOptional(m.provenance.registryIdentity));
      (Validate(c, trimmed, p) == Validate(c, m, p)) ==
      (Validate(c, m, p) == Some(Official) ==> IdentityTrimmed(c, p))
  {
    var identity := m.provenance.registryIdentity;
    var t := Republish(m, m.provenance.publication, c.TrimOptional(identity));
    var b := Validate(c, m, p).value;
    assert c.HasText(c.TrimOptional(identity)) == c.HasText(identity);
    assert HeaderOk(c, t) && EntrypointOk(c, t, b, p);
    if b == Official {
      assert ClassifyBoundary(t, p) == (if IdentityTrimmed(c, p) then Some(Official) else None);
    } else {
      assert ClassifyBoundary(t, p) == Some(b);
    }
    assert ClassifyBoundary(t, p).Some? ==> ProvenanceOk(c, t, b, p);
  }

  /** No visibility admits a rejected submission. */
  lemma RejectedNeverValidates(c: FieldChecks, m: Manifest, p: Policy)
    requires Validate(c, m, p).Some?
    ensures m.provenance.publication.Some? ==> m.provenance.publication.value.submission != Rejected
  {
  }
}
