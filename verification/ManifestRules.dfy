/** The rules a manifest must follow, one by one, and that validation checks exactly these. */
module ManifestRules {
  import opened Prelude
  import opened ExtensionManifest

  /** A text with something other than whitespace in it. */
  predicate Says(c: FieldChecks, s: string) { c.trim(s) != "" }

  predicate SaysSome(c: FieldChecks, o: Option<string>) { o.Some? && Says(c, o.value) }

  /** Where a package comes from and what it may call itself. */
  predicate BelongsTo(m: Manifest, p: Policy, b: Boundary) {
    match b
    case LocalDevelopment => m.provenance.source == Local && p.localPrefix <= m.id
    case Official =>
      && m.provenance.source != Local && p.officialPrefix <= m.id
      && m.provenance.registryIdentity == Some(p.officialIdentity)
    case ThirdParty =>
      m.provenance.source != Local && !(p.officialPrefix <= m.id) && !(p.localPrefix <= m.id)
  }

  /** Only local packages may run processes or go unsigned, and only with approval. */
  predicate RunsAndSignsOk(c: FieldChecks, m: Manifest, p: Policy, b: Boundary) {
    && m.entrypoints.realm == Backend && m.entrypoints.protocol == "atelia-extension-rpc.v1"
    && (m.entrypoints.runtime == Wasm || m.entrypoints.runtime == WasmRust || m.entrypoints.runtime == Process)
    && (m.entrypoints.runtime != Process ==> SaysSome(c, m.entrypoints.wasm))
    && (m.entrypoints.runtime == Process ==>
          b == LocalDevelopment && p.allowProcess && SaysSome(c, m.entrypoints.command))
    && (!SaysSome(c, m.provenance.signature) || !SaysSome(c, m.provenance.signer) ==>
          b == LocalDevelopment && p.allowUnsigned)
  }

  /** A package says enough about its origin to be found again. */
  predicate OriginOk(c: FieldChecks, v: Provenance) {
    && c.digest(v.artifactDigest) && c.digest(v.manifestDigest)
    && (v.source == Registry ==> SaysSome(c, v.registryIdentity))
    && (v.source == Github ==>
          SaysSome(c, v.repository) && SaysSome(c, v.sourceRef) && SaysSome(c, v.manifestPath) && SaysSome(c, v.commit))
    && (v.lineage.Some? ==> c.reverseDns(v.lineage.value.parentId))
    && (v.lineage.Some? && v.lineage.value.parentVersion.Some? ==> c.semver(v.lineage.value.parentVersion.value))
    && (v.lineage.Some? && v.lineage.value.parentDigest.Some? ==> c.digest(v.lineage.value.parentDigest.value))
  }

  /** Which submission state goes with which visibility: the table, by submission state. */
  predicate MayBe(c: FieldChecks, m: Manifest, p: Policy, b: Boundary, v: Visibility, submission: Submission) {
    match submission
    case NotSubmitted => v == PrivateRemix || v == UnlistedShare
    case AwaitingSubmission => v == UnlistedShare || (v == PublicSearchable && b != LocalDevelopment)
    case Submitted =>
      SaysSome(c, m.provenance.registryIdentity) &&
      (v == UnlistedShare || (v == PublicSearchable && b != LocalDevelopment))
    case Accepted =>
      || (SaysSome(c, m.provenance.registryIdentity) &&
          (v == UnlistedShare || (v == PublicSearchable && b != LocalDevelopment)))
      || (v == OfficialListing && b == Official && m.provenance.registryIdentity == Some(p.officialIdentity))
    case Rejected => false
  }

  lemma BoundaryIff(m: Manifest, p: Policy, b: Boundary)
    ensures ClassifyBoundary(m, p) == Some(b) <==> BelongsTo(m, p, b)
  {
  }

  lemma PublicationIff(c: FieldChecks, m: Manifest, p: Policy, b: Boundary)
    ensures PublicationOk(c, m, b, p) <==>
            (m.provenance.publication.Some? ==>
               MayBe(c, m, p, b, m.provenance.publication.value.visibility, m.provenance.publication.value.submission))
  {
  }

  /** Every permission is well named, described, and of a known risk tier if it has one. */
  predicate PermissionRules(c: FieldChecks, m: Manifest) {
    forall name | name in m.permissions ::
      && c.permissionName(name) && Says(c, m.permissions[name].description)
      && var tier := m.permissions[name].riskTier;
         tier.None? || tier == Some("R0") || tier == Some("R1") || tier == Some("R2") || tier == Some("R3") ||
         tier == Some("R4")
  }

  /** A service is fully named, in words without spaces, and guarded by a permission the manifest declares. */
  predicate ServiceRule(
    c: FieldChecks, m: Manifest, service: string, operation: string, schemaVersion: string, permission: string)
  {
    && (forall part | part in [service, operation, schemaVersion] :: Says(c, part) && c.spaceFree(part))
    && c.permissionName(permission) && permission in m.permissions
  }

  /** Services are declared exactly by service extensions, each well formed and none twice. */
  predicate ServiceRules(c: FieldChecks, m: Manifest) {
    && (ServiceKind in m.kinds <==> m.providedServices != [] || m.consumedServices != [])
    && (forall d | d in m.providedServices ::
          ServiceRule(c, m, d.service, d.operation, d.schemaVersion, d.requiredPermission))
    && (forall d | d in m.consumedServices ::
          && c.reverseDns(d.extensionId)
          && ServiceRule(c, m, d.service, d.operation, d.schemaVersion, d.requiredPermission))
    && (forall i, j | 0 <= i < j < |m.providedServices| ::
          var (d, e) := (m.providedServices[i], m.providedServices[j]);
          d.service + ":" + d.operation + ":" + d.schemaVersion !=
          e.service + ":" + e.operation + ":" + e.schemaVersion)
    && (forall i, j | 0 <= i < j < |m.consumedServices| ::
          var (d, e) := (m.consumedServices[i], m.consumedServices[j]);
          d.extensionId + ":" + (d.service + ":" + d.operation + ":" + d.schemaVersion) !=
          e.extensionId + ":" + (e.service + ":" + e.operation + ":" + e.schemaVersion))
  }

  predicate HeaderRules(c: FieldChecks, m: Manifest) {
    && m.schema == "atelia.extension.v1" && m.kinds != [] && c.reverseDns(m.id) && c.semver(m.version)
    && forall text | text in [m.id, m.name, m.version, m.publisher, m.description, m.protocolRange, m.secretaryRange] ::
         Says(c, text)
  }

  lemma HeaderIff(c: FieldChecks, m: Manifest)
    ensures HeaderOk(c, m) <==> HeaderRules(c, m)
  {
    var texts := [m.id, m.name, m.version, m.publisher, m.description, m.protocolRange, m.secretaryRange];
    if HeaderRules(c, m) {
      assert texts[0] in texts && texts[1] in texts && texts[2] in texts && texts[3] in texts;
      assert texts[4] in texts && texts[5] in texts && texts[6] in texts;
    }
  }

  lemma PartsIff(
    c: FieldChecks, m: Manifest, service: string, operation: string, schemaVersion: string, permission: string)
    ensures ServiceRule(c, m, service, operation, schemaVersion, permission) <==>
            && ServicePartsOk(c, service, operation, schemaVersion)
            && c.permissionName(permission) && permission in m.permissions
  {
    var parts := [service, operation, schemaVersion];
    assert parts[0] in parts && parts[1] in parts && parts[2] in parts;
  }

  lemma ServicesIff(c: FieldChecks, m: Manifest)
    ensures ServicesOk(c, m.kinds, m.permissions, m.providedServices, m.consumedServices) <==> ServiceRules(c, m)
  {
    hide ServicePartsOk; hide ServiceRule;
    forall d: ServiceDefinition
      ensures ProvideOk(c, m.permissions, d) <==>
              ServiceRule(c, m, d.service, d.operation, d.schemaVersion, d.requiredPermission)
    {
      PartsIff(c, m, d.service, d.operation, d.schemaVersion, d.requiredPermission);
    }
    forall d: ServiceDependency
      ensures ConsumeOk(c, m.permissions, d) <==>
              && c.reverseDns(d.extensionId)
              && ServiceRule(c, m, d.service, d.operation, d.schemaVersion, d.requiredPermission)
    {
      PartsIff(c, m, d.service, d.operation, d.schemaVersion, d.requiredPermission);
    }
    hide ProvideOk; hide ConsumeOk;
    assert forall i | 0 <= i < |m.providedServices| :: m.providedServices[i] in m.providedServices;
    assert forall i | 0 <= i < |m.consumedServices| :: m.consumedServices[i] in m.consumedServices;
  }

  /** A manifest validates as a boundary exactly if it follows every rule for that boundary. */
  lemma ValidatesIff(c: FieldChecks, m: Manifest, p: Policy, b: Boundary)
    ensures Validate(c, m, p) == Some(b) <==>
            && BelongsTo(m, p, b) && HeaderRules(c, m) && RunsAndSignsOk(c, m, p, b) && OriginOk(c, m.provenance)
            && (m.provenance.publication.Some? ==>
                  MayBe(c, m, p, b, m.provenance.publication.value.visibility,
                        m.provenance.publication.value.submission))
            && PermissionRules(c, m) && ServiceRules(c, m)
            && c.declarations(m.declarations, m.kinds, m.permissions, b)
  {
    hide HeaderOk; hide HeaderRules; hide PublicationOk; hide ServicesOk; hide ServiceRules; hide BelongsTo;
    hide ClassifyBoundary; hide MayBe;
    BoundaryIff(m, p, b);
    HeaderIff(c, m);
    PublicationIff(c, m, p, b);
    ServicesIff(c, m);
  }
}
