/** Service-call authorisation between two installed extensions. */
module RegistryServices {
  import opened Prelude
  import opened ExtensionManifest
  import opened RegistrySpec

  datatype ServiceRequest = ServiceRequest(
    caller: string, callee: string, service: string, operation: string, schemaVersion: string,
    permission: Option<string>)

  datatype Grant = Grant(
    caller: string, callerVersion: string, callee: string, calleeVersion: string,
    service: string, operation: string, schemaVersion: string, permission: string)

  predicate ConsumeMatches(d: ServiceDependency, q: ServiceRequest) {
    d.extensionId == q.callee && d.service == q.service && d.operation == q.operation &&
      d.schemaVersion == q.schemaVersion
  }

  predicate ProvideMatches(d: ServiceDefinition, q: ServiceRequest) {
    d.service == q.service && d.operation == q.operation && d.schemaVersion == q.schemaVersion
  }

  predicate Enabled(status: InstallStatus) {
    status == Installed || status == InstalledPreviousVersion
  }

  /** The active, enabled, unblocked version of an extension. */
  predicate Callable(c: FieldChecks, s: RegistryState, id: string) {
    && id in s.active && Has(s.records, id, s.active[id]) && Has(s.manifests, id, s.active[id])
    && Enabled(s.records[id][s.active[id]].status)
    && forall i | 0 <= i < |s.blocklist| :: !MatchesManifest(c, s.blocklist[i], s.manifests[id][s.active[id]])
  }

  /** A consume and a provide declaration that answer a request and agree on the permission. */
  predicate Agreed(caller: Manifest, callee: Manifest, q: ServiceRequest, i: nat, j: nat) {
    && i < |caller.consumedServices| && j < |callee.providedServices|
    && var consume := caller.consumedServices[i];
       var provide := callee.providedServices[j];
       && ConsumeMatches(consume, q) && ProvideMatches(provide, q)
       && consume.requiredPermission == provide.requiredPermission
       && (q.permission.Some? ==> q.permission.value == provide.requiredPermission)
       && provide.requiredPermission in caller.permissions
       && provide.requiredPermission in callee.permissions
       && caller.permissions[provide.requiredPermission] == callee.permissions[provide.requiredPermission]
  }

  /** In a valid manifest at most one declaration on each side can answer a request. */
  lemma DeclarationsAreUnambiguous(c: FieldChecks, m: Manifest, p: Policy, q: ServiceRequest)
    requires Validate(c, m, p).Some?
    ensures forall i, j | 0 <= i < |m.consumedServices| && 0 <= j < |m.consumedServices|
                          && ConsumeMatches(m.consumedServices[i], q) && ConsumeMatches(m.consumedServices[j], q) ::
                            i == j
    ensures forall i, j | 0 <= i < |m.providedServices| && 0 <= j < |m.providedServices|
                          && ProvideMatches(m.providedServices[i], q) && ProvideMatches(m.providedServices[j], q) ::
                            i == j
  {
    hide HeaderOk; hide EntrypointOk; hide ProvenanceOk; hide PermissionsOk; hide ConsumeOk; hide ProvideOk;
    forall i, j | 0 <= i < j < |m.consumedServices|
      ensures !(ConsumeMatches(m.consumedServices[i], q) && ConsumeMatches(m.consumedServices[j], q))
    {
      assert ConsumeKey(m.consumedServices[i]) != ConsumeKey(m.consumedServices[j]);
    }
    forall i, j | 0 <= i < j < |m.providedServices|
      ensures !(ProvideMatches(m.providedServices[i], q) && ProvideMatches(m.providedServices[j], q))
    {
      assert ProvideKey(m.providedServices[i]) != ProvideKey(m.providedServices[j]);
    }
  }

  function FirstConsume(ds: seq<ServiceDependency>, q: ServiceRequest): (r: Option<ServiceDependency>)
    ensures r.Some? ==> r.value in ds && ConsumeMatches(r.value, q)
    ensures r.None? ==> forall i | 0 <= i < |ds| :: !ConsumeMatches(ds[i], q)
  {
    if ds == [] then None else if ConsumeMatches(ds[0], q) then Some(ds[0]) else FirstConsume(ds[1..], q)
  }

  function FirstProvide(ds: seq<ServiceDefinition>, q: ServiceRequest): (r: Option<ServiceDefinition>)
    ensures r.Some? ==> r.value in ds && ProvideMatches(r.value, q)
    ensures r.None? ==> forall i | 0 <= i < |ds| :: !ProvideMatches(ds[i], q)
  {
    if ds == [] then None else if ProvideMatches(ds[0], q) then Some(ds[0]) else FirstProvide(ds[1..], q)
  }

  /** Whether one side of the call may take part, before any declaration is looked at. */
  function RecordError(s: RegistryState, id: string): Option<RegistryError> {
    if id !in s.active || !Has(s.records, id, s.active[id]) then Some(NotInstalled)
    else if !Enabled(s.records[id][s.active[id]].status) then Some(ServiceDenied)
    else None
  }

  function ManifestError(c: FieldChecks, s: RegistryState, id: string): Option<RegistryError>
    requires id in s.active && Has(s.manifests, id, s.active[id])
  {
    var hit := BlocklistHit(c, s.blocklist, s.manifests[id][s.active[id]]);
    if hit.Some? then Some(Blocked(hit.value)) else None
  }

  /** The permission checks, made on the first declaration found on each side. */
  function Negotiate(caller: Manifest, callee: Manifest, q: ServiceRequest): Result<string, RegistryError> {
    var consume := FirstConsume(caller.consumedServices, q);
    var provide := FirstProvide(callee.providedServices, q);
    if consume.None? then Err(ServiceDenied)
    else if provide.None? then Err(ServiceUnavailable)
    else
      var required := if q.permission.Some? then q.permission.value else provide.value.requiredPermission;
      if consume.value.requiredPermission != required || provide.value.requiredPermission != required then
        Err(ServiceDenied)
      else if required !in caller.permissions || required !in callee.permissions then Err(ServiceDenied)
      else if caller.permissions[required] != callee.permissions[required] then Err(ServiceDenied)
      else Ok(required)
  }

  function Authorize(c: FieldChecks, s: RegistryState, q: ServiceRequest): Result<Grant, RegistryError> {
    if RecordError(s, q.caller).Some? then Err(RecordError(s, q.caller).value)
    else if RecordError(s, q.callee).Some? then Err(RecordError(s, q.callee).value)
    else if !Has(s.manifests, q.caller, s.active[q.caller]) || !Has(s.manifests, q.callee, s.active[q.callee]) then
      Err(NotInstalled)
    else if ManifestError(c, s, q.caller).Some? then Err(ManifestError(c, s, q.caller).value)
    else if ManifestError(c, s, q.callee).Some? then Err(ManifestError(c, s, q.callee).value)
    else
      var (v, w) := (s.active[q.caller], s.active[q.callee]);
      match Negotiate(s.manifests[q.caller][v], s.manifests[q.callee][w], q)
      case Err(e) => Err(e)
      case Ok(required) =>
        Ok(Grant(q.caller, v, q.callee, w, q.service, q.operation, q.schemaVersion, required))
  }

  lemma {:induction false} HitMeansBlocked(c: FieldChecks, blocklist: seq<BlocklistEntry>, m: Manifest)
    ensures BlocklistHit(c, blocklist, m).None? <==>
            forall i | 0 <= i < |blocklist| :: !MatchesManifest(c, blocklist[i], m)
  {
    hide MatchesManifest;
    if blocklist == [] {
    } else {
      HitMeansBlocked(c, blocklist[1..], m);
      assert forall i | 0 < i < |blocklist| :: blocklist[i] == blocklist[1..][i - 1];
    }
  }

  /** Between two valid manifests, looking at the first declarations only is the same as asking
      whether any pair of declarations agrees. */
  lemma NegotiateIff(c: FieldChecks, caller: Manifest, callee: Manifest, p: Policy, p': Policy, q: ServiceRequest)
    requires Validate(c, caller, p).Some? && Validate(c, callee, p').Some?
    ensures Negotiate(caller, callee, q).Ok? <==> exists i: nat, j: nat :: Agreed(caller, callee, q, i, j)
  {
    hide Validate;
    DeclarationsAreUnambiguous(c, caller, p, q);
    DeclarationsAreUnambiguous(c, callee, p', q);
    if Negotiate(caller, callee, q).Ok? {
      var i :| 0 <= i < |caller.consumedServices| &&
               caller.consumedServices[i] == FirstConsume(caller.consumedServices, q).value;
      var j :| 0 <= j < |callee.providedServices| &&
               callee.providedServices[j] == FirstProvide(callee.providedServices, q).value;
      assert Agreed(caller, callee, q, i, j);
    }
  }

  /** In every valid registry state a grant is issued exactly when both sides are active, enabled and
      unblocked and some pair of their declarations agrees on the call and on its permission. */
  lemma GrantIff(c: FieldChecks, p: Policy, s: RegistryState, q: ServiceRequest)
    requires SnapshotOk(c, p, s)
    ensures Authorize(c, s, q).Ok? <==>
            && Callable(c, s, q.caller) && Callable(c, s, q.callee)
            && exists i: nat, j: nat ::
                 Agreed(s.manifests[q.caller][s.active[q.caller]], s.manifests[q.callee][s.active[q.callee]], q, i, j)
  {
    hide SnapshotOk; hide Validate; hide MatchesManifest; hide Negotiate; hide BlocklistHit; hide Agreed;
    if q.caller in s.active && q.callee in s.active {
      ActiveEntry(c, p, s, q.caller);
      ActiveEntry(c, p, s, q.callee);
      var (v, w) := (s.active[q.caller], s.active[q.callee]);
      HitMeansBlocked(c, s.blocklist, s.manifests[q.caller][v]);
      HitMeansBlocked(c, s.blocklist, s.manifests[q.callee][w]);
      NegotiateIff(c, s.manifests[q.caller][v], s.manifests[q.callee][w],
                   WithRecordApprovals(p, s.records[q.caller][v]), WithRecordApprovals(p, s.records[q.callee][w]), q);
    }
  }
}
