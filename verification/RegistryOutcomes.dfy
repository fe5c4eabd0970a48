/** When each registry operation succeeds, stated on the state and the request, and what the registry
    holds afterwards. */
module RegistryOutcomes {
  import opened Prelude
  import opened ExtensionManifest
  import opened RollbackGraph
  import opened RegistrySpec
  import opened RegistryServices

  import RegistryTheorems

  // ---- what the blocklist blocks

  /** A pattern ending in a star blocks the permissions it is a prefix of; any other only itself. */
  predicate Covers(pattern: string, name: string) {
    || (pattern == name && (name == "" || name[|name| - 1] != '*'))
    || exists k | 0 <= k <= |name| :: pattern == name[..k] + "*"
  }

  lemma PatternIff(pattern: string, name: string)
    ensures PermissionMatches(pattern, name) <==> Covers(pattern, name)
  {
    if pattern != "" && pattern[|pattern| - 1] == '*' {
      var prefix := pattern[..|pattern| - 1];
      assert pattern == prefix + "*";
      if prefix <= name { assert pattern == name[..|prefix|] + "*"; }
    }
    forall k | 0 <= k <= |name| && pattern == name[..k] + "*"
      ensures PermissionMatches(pattern, name)
    {
      assert pattern[..|pattern| - 1] == name[..k];
    }
  }

  /** No entry of the blocklist applies to a manifest: not to its id, version, digest, signer, publisher,
      repository or any permission it asks for. */
  ghost predicate Unblocked(c: FieldChecks, blocklist: seq<BlocklistEntry>, m: Manifest) {
    forall i | 0 <= i < |blocklist| ::
      var key := blocklist[i].key;
      && key != ExtensionId(m.id)
      && key != ExtensionVersion(m.id, m.version)
      && key != ArtifactDigest(m.provenance.artifactDigest)
      && (key.Publisher? ==> c.trim(key.publisher) != c.trim(m.publisher))
      && (key.Signer? ==> m.provenance.signer.None? || c.trim(key.signer) != c.trim(m.provenance.signer.value))
      && (key.SourceRepository? ==>
            m.provenance.repository.None? || c.trim(key.repository) != c.trim(m.provenance.repository.value))
      && (key.PermissionPattern? ==> forall name | name in m.permissions :: !Covers(key.pattern, name))
  }

  lemma UnblockedIff(c: FieldChecks, blocklist: seq<BlocklistEntry>, m: Manifest)
    ensures BlocklistHit(c, blocklist, m).None? <==> Unblocked(c, blocklist, m)
  {
    hide PermissionMatches; hide Covers;
    HitMeansBlocked(c, blocklist, m);
    forall pattern, name
      ensures PermissionMatches(pattern, name) <==> Covers(pattern, name)
    {
      PatternIff(pattern, name);
    }
  }

  /** The entry reported is the first that applies. */
  lemma {:induction false} HitIsFirst(c: FieldChecks, blocklist: seq<BlocklistEntry>, m: Manifest)
    requires BlocklistHit(c, blocklist, m).Some?
    ensures exists i | 0 <= i < |blocklist| ::
              && blocklist[i] == BlocklistHit(c, blocklist, m).value
              && !Unblocked(c, [blocklist[i]], m) && Unblocked(c, blocklist[..i], m)
  {
    hide MatchesManifest; hide Unblocked;
    if MatchesManifest(c, blocklist[0], m) {
      UnblockedIff(c, [blocklist[0]], m);
      UnblockedIff(c, [], m);
      assert blocklist[..0] == [];
    } else {
      HitIsFirst(c, blocklist[1..], m);
      var rest := blocklist[1..];
      var i :| 0 <= i < |rest| && rest[i] == BlocklistHit(c, rest, m).value
               && !Unblocked(c, [rest[i]], m) && Unblocked(c, rest[..i], m);
      UnblockedIff(c, rest[..i], m);
      UnblockedIff(c, blocklist[..i + 1], m);
      assert blocklist[..i + 1][1..] == rest[..i] && blocklist[i + 1] == rest[i];
    }
  }

  // ---- installing

  /** The policy an install is judged by: its own approvals where it gives them. */
  predicate Judges(p: Policy, o: InstallOptions, effective: Policy) {
    && effective.officialPrefix == p.officialPrefix && effective.localPrefix == p.localPrefix
    && effective.officialIdentity == p.officialIdentity
    && (effective.allowUnsigned <==> o.approveUnsigned == Some(true) || (o.approveUnsigned.None? && p.allowUnsigned))
    && (effective.allowProcess <==> o.allowProcess == Some(true) || (o.allowProcess.None? && p.allowProcess))
  }

  /** A manifest comes from where an installed version came from. */
  predicate SameOrigin(c: FieldChecks, r: SourceSnapshot, v: Provenance) {
    && r.source == v.source && r.lineage == v.lineage
    && c.TrimOptional(r.repository) == c.TrimOptional(v.repository)
    && c.TrimOptional(r.sourceRef) == c.TrimOptional(v.sourceRef)
    && c.TrimOptional(r.manifestPath) == c.TrimOptional(v.manifestPath)
    && c.TrimOptional(r.registryIdentity) == c.TrimOptional(v.registryIdentity)
  }

  /** A version once recorded can only be installed again with the same digests. */
  predicate DigestsAgree(s: RegistryState, m: Manifest) {
    Has(s.records, m.id, m.version) ==>
      && s.records[m.id][m.version].manifestDigest == m.provenance.manifestDigest
      && s.records[m.id][m.version].artifactDigest == m.provenance.artifactDigest
  }

  /** The origin may change only with approval. */
  predicate OriginSettled(c: FieldChecks, s: RegistryState, m: Manifest, o: InstallOptions) {
    || m.id !in s.active || !Has(s.records, m.id, s.active[m.id])
    || SameOrigin(c, s.records[m.id][s.active[m.id]].source, m.provenance)
    || o.approveSourceChange == Some(true)
  }

  /** The active version does not lead back to the one being installed. */
  ghost predicate KeepsChain(s: RegistryState, m: Manifest) {
    m.id in s.active && s.active[m.id] != m.version && Has(s.records, m.id, m.version) ==>
      forall n: nat :: Walk(GraphOf(s.records, m.id), s.active[m.id], n) != Some(m.version)
  }

  lemma TrimTwice(c: FieldChecks, o: Option<string>)
    requires Idempotent(c.trim)
    ensures c.TrimOptional(c.TrimOptional(o)) == c.TrimOptional(o)
  {
  }

  lemma SameOriginIff(c: FieldChecks, r: SourceSnapshot, v: Provenance)
    requires Idempotent(c.trim)
    ensures MatchesAuthority(c, r, FromProvenance(c, v)) <==> SameOrigin(c, r, v)
  {
    TrimTwice(c, v.repository);
    TrimTwice(c, v.sourceRef);
    TrimTwice(c, v.manifestPath);
    TrimTwice(c, v.registryIdentity);
  }

  /** An install succeeds exactly if the manifest validates under the approvals given, nothing on the
      blocklist applies, known digests and the origin are respected, and no rollback cycle is closed. */
  lemma InstallSucceedsIff(c: FieldChecks, p: Policy, s: RegistryState, m: Manifest, o: InstallOptions, e: Policy)
    requires Idempotent(c.trim) && Judges(p, o, e)
    ensures Install(c, p, s, m, o).reply.Ok? <==>
            && Validate(c, m, e).Some? && Unblocked(c, s.blocklist, m)
            && DigestsAgree(s, m) && OriginSettled(c, s, m, o) && KeepsChain(s, m)
  {
    hide Validate; hide Unblocked; hide MatchesAuthority; hide SameOrigin; hide NewRecord; hide Put; hide Walk;
    assert e == EffectivePolicy(p, o);
    UnblockedIff(c, s.blocklist, m);
    if m.id in s.active && Has(s.records, m.id, s.active[m.id]) {
      SameOriginIff(c, s.records[m.id][s.active[m.id]].source, m.provenance);
    }
  }

  /** Which refusal comes first: validity, the blocklist, digests, origin, and last the rollback chain. */
  lemma InstallRefusals(c: FieldChecks, p: Policy, s: RegistryState, m: Manifest, o: InstallOptions, e: Policy)
    requires Idempotent(c.trim) && Judges(p, o, e)
    ensures var reply := Install(c, p, s, m, o).reply;
            var valid := Validate(c, m, e).Some?;
            var unblocked := Unblocked(c, s.blocklist, m);
            && (reply.Err? && reply.error.Blocked? <==> valid && !unblocked)
            && (reply == Err(DigestConflict) <==> valid && unblocked && !DigestsAgree(s, m))
            && (reply == Err(SourceChangeRequiresApproval) <==>
                  valid && unblocked && DigestsAgree(s, m) && !OriginSettled(c, s, m, o))
            && (reply == Err(Validation) <==>
                  !valid || (unblocked && DigestsAgree(s, m) && OriginSettled(c, s, m, o) && !KeepsChain(s, m)))
            && (reply.Err? && reply.error.Blocked? ==> Some(reply.error.entry) == BlocklistHit(c, s.blocklist, m))
  {
    hide Validate; hide Unblocked; hide MatchesAuthority; hide SameOrigin; hide NewRecord; hide Put; hide Walk;
    assert e == EffectivePolicy(p, o);
    UnblockedIff(c, s.blocklist, m);
    if m.id in s.active && Has(s.records, m.id, s.active[m.id]) {
      SameOriginIff(c, s.records[m.id][s.active[m.id]].source, m.provenance);
    }
  }

  /** Two states agree on every version but one, on every other active version, and on the logs. */
  ghost predicate SameElsewhere(s: RegistryState, t: RegistryState, id: string, v: string) {
    && (forall i, w | i != id || w != v ::
          && (Has(t.records, i, w) <==> Has(s.records, i, w))
          && (Has(s.records, i, w) ==> t.records[i][w] == s.records[i][w])
          && (Has(t.manifests, i, w) <==> Has(s.manifests, i, w))
          && (Has(s.manifests, i, w) ==> t.manifests[i][w] == s.manifests[i][w]))
    && (forall i | i != id :: (i in t.active <==> i in s.active) && (i in s.active ==> t.active[i] == s.active[i]))
    && t.blocklist == s.blocklist && t.audits == s.audits
  }

  lemma PutElsewhere<T>(m: map<string, map<string, T>>, id: string, v: string, x: T)
    ensures Has(Put(m, id, v, x), id, v) && Put(m, id, v, x)[id][v] == x
    ensures forall i, w | i != id || w != v ::
              && (Has(Put(m, id, v, x), i, w) <==> Has(m, i, w))
              && (Has(m, i, w) ==> Put(m, id, v, x)[i][w] == m[i][w])
  {
  }

  /** What a new install record says. */
  ghost predicate Records(c: FieldChecks, s: RegistryState, m: Manifest, e: Policy, r: InstallRecord) {
    && r.id == m.id && r.version == m.version && Some(r.boundary) == Validate(c, m, e) && r.status == Installed
    && r.manifestDigest == m.provenance.manifestDigest && r.artifactDigest == m.provenance.artifactDigest
    && r.rollbackSnapshot == Some(RollbackSnapshot(r.manifestDigest, r.artifactDigest))
    && r.approvedPermissions == m.permissions.Keys
    && r.approvedUnsigned == e.allowUnsigned && r.approvedProcess == e.allowProcess
    && SameOrigin(c, r.source, m.provenance)
    && r.source.commit == m.provenance.commit && r.source.publication == m.provenance.publication
    && (m.id !in s.active ==> r.previous == None)
    && (m.id in s.active && s.active[m.id] != m.version ==> r.previous == Some(s.active[m.id]))
    && (m.id in s.active && s.active[m.id] == m.version && Has(s.records, m.id, m.version) ==>
          r.previous == s.records[m.id][m.version].previous)
  }

  lemma NewRecordSays(c: FieldChecks, s: RegistryState, m: Manifest, e: Policy)
    requires Idempotent(c.trim) && Validate(c, m, e).Some?
    ensures Records(c, s, m, e, NewRecord(c, m, Validate(c, m, e).value, InstallPrevious(s, m.id, m.version), e))
  {
    hide Validate;
    TrimTwice(c, m.provenance.repository);
    TrimTwice(c, m.provenance.sourceRef);
    TrimTwice(c, m.provenance.manifestPath);
    TrimTwice(c, m.provenance.registryIdentity);
    hide FieldChecks.TrimOptional;
  }

  /** After an install the version is active with its manifest and a record that says what was approved. */
  lemma InstallHolds(c: FieldChecks, p: Policy, s: RegistryState, m: Manifest, o: InstallOptions, e: Policy)
    requires Idempotent(c.trim) && Judges(p, o, e) && Install(c, p, s, m, o).reply.Ok?
    ensures var t := Install(c, p, s, m, o).state;
            && m.id in t.active && t.active[m.id] == m.version
            && Has(t.manifests, m.id, m.version) && t.manifests[m.id][m.version] == m
            && Has(t.records, m.id, m.version) && Records(c, s, m, e, t.records[m.id][m.version])
            && Install(c, p, s, m, o).reply == Ok(Some(t.records[m.id][m.version]))
            && SameElsewhere(s, t, m.id, m.version)
  {
    hide Validate; hide Reaches; hide MatchesAuthority; hide Put; hide NewRecord; hide Records; hide InstallPrevious;
    assert e == EffectivePolicy(p, o);
    var r := NewRecord(c, m, Validate(c, m, e).value, InstallPrevious(s, m.id, m.version), e);
    NewRecordSays(c, s, m, e);
    PutElsewhere(s.manifests, m.id, m.version, m);
    PutElsewhere(s.records, m.id, m.version, r);
  }

  // ---- the operations on the active version

  /** An extension with an active, recorded version. */
  predicate Active(s: RegistryState, id: string) {
    id in s.active && Has(s.records, id, s.active[id])
  }

  /** A state in which one record has a new status and nothing else has changed but which version is active. */
  ghost predicate Restated(s: RegistryState, t: RegistryState, id: string, v: string, status: InstallStatus) {
    && Has(s.records, id, v) && Has(t.records, id, v)
    && t.records[id][v] == s.records[id][v].(status := status)
    && t.manifests == s.manifests && SameElsewhere(s, t, id, v)
  }

  lemma PutStatus(s: RegistryState, id: string, v: string, status: InstallStatus)
    requires Has(s.records, id, v)
    ensures var r := s.records[id][v].(status := status);
            var records := Put(s.records, id, v, r);
            && Has(records, id, v) && records[id][v] == r
            && forall i, w | i != id || w != v ::
                 && (Has(records, i, w) <==> Has(s.records, i, w))
                 && (Has(s.records, i, w) ==> records[i][w] == s.records[i][w])
  {
    hide Put;
    PutElsewhere(s.records, id, v, s.records[id][v].(status := status));
  }

  lemma DisableOutcome(s: RegistryState, id: string)
    ensures Disable(s, id).reply.Ok? <==> Active(s, id)
    ensures Active(s, id) ==>
              var t := Disable(s, id).state;
              Restated(s, t, id, s.active[id], Disabled) && t.active == s.active
  {
    hide Put;
    if Active(s, id) { PutStatus(s, id, s.active[id], Disabled); }
  }

  lemma EnableOutcome(c: FieldChecks, s: RegistryState, id: string)
    ensures Enable(c, s, id).reply.Ok? <==>
            && Active(s, id) && Has(s.manifests, id, s.active[id])
            && Unblocked(c, s.blocklist, s.manifests[id][s.active[id]])
    ensures Enable(c, s, id).reply.Ok? ==>
              var t := Enable(c, s, id).state;
              Restated(s, t, id, s.active[id], Installed) && t.active == s.active
  {
    hide Unblocked; hide BlocklistHit; hide Put;
    if Active(s, id) { PutStatus(s, id, s.active[id], Installed); }
    if id in s.active && Has(s.manifests, id, s.active[id]) {
      UnblockedIff(c, s.blocklist, s.manifests[id][s.active[id]]);
    }
  }

  lemma RemoveOutcome(s: RegistryState, id: string)
    ensures Remove(s, id).reply.Ok? <==> Active(s, id)
    ensures Active(s, id) ==>
              var t := Remove(s, id).state;
              Restated(s, t, id, s.active[id], Disabled) && id !in t.active
  {
    hide Put;
    if Active(s, id) { PutStatus(s, id, s.active[id], Disabled); }
  }

  /** The version a rollback returns to: the one the active version was installed over, if it is still there. */
  predicate RollsBackTo(s: RegistryState, id: string, v: string) {
    && Active(s, id) && s.records[id][s.active[id]].previous == Some(v)
    && Has(s.manifests, id, v) && Has(s.records, id, v)
  }

  lemma RollbackOutcome(c: FieldChecks, s: RegistryState, id: string)
    ensures Rollback(c, s, id).reply.Ok? <==>
            exists v :: RollsBackTo(s, id, v) && Unblocked(c, s.blocklist, s.manifests[id][v])
    ensures Rollback(c, s, id).reply.Ok? ==>
              var t := Rollback(c, s, id).state;
              && id in t.active && RollsBackTo(s, id, t.active[id])
              && Restated(s, t, id, t.active[id], InstalledPreviousVersion)
  {
    hide Unblocked; hide BlocklistHit; hide Put;
    if Active(s, id) && s.records[id][s.active[id]].previous.Some? {
      var v := s.records[id][s.active[id]].previous.value;
      if Has(s.records, id, v) { PutStatus(s, id, v, InstalledPreviousVersion); }
      if Has(s.manifests, id, v) { UnblockedIff(c, s.blocklist, s.manifests[id][v]); }
    }
  }

  // ---- publishing

  /** The manifest with another publication and identity. */
  function Published(m: Manifest, publication: Publication, identity: Option<string>): Manifest {
    m.(provenance := m.provenance.(publication := Some(publication), registryIdentity := identity))
  }

  /** A manifest that may replace the active one: valid with the approvals on record, and not blocked. */
  ghost predicate MayReplace(c: FieldChecks, p: Policy, s: RegistryState, r: InstallRecord, m: Manifest) {
    && Validate(c, m, p.(allowUnsigned := p.allowUnsigned || r.approvedUnsigned,
                         allowProcess := p.allowProcess || r.approvedProcess)).Some?
    && Unblocked(c, s.blocklist, m)
  }

  /** What a publication update stores: the request, but for a submission already under way or decided. */
  predicate Stores(r: InstallRecord, request: Publication, stored: Publication) {
    && stored.visibility == request.visibility
    && var was := if r.source.publication.Some? then r.source.publication.value.submission else NotSubmitted;
       stored.submission == if was == Submitted || was == Accepted || was == Rejected then was else request.submission
  }

  ghost predicate Replaced(
    s: RegistryState, t: RegistryState, id: string, m: Manifest, publication: Publication, identity: Option<string>)
    requires id in s.active
  {
    var v := s.active[id];
    && Has(s.records, id, v) && Has(t.records, id, v) && Has(t.manifests, id, v)
    && t.manifests[id][v] == m && t.active == s.active
    && t.records[id][v].source.publication == Some(publication)
    && t.records[id][v].source.registryIdentity == identity
    && t.records[id][v].(source := s.records[id][v].source) == s.records[id][v]
    && SameElsewhere(s, t, id, v)
  }

  lemma PublicationOutcome(
    c: FieldChecks, p: Policy, s: RegistryState, id: string, request: Publication, stored: Publication)
    requires Active(s, id) && Stores(s.records[id][s.active[id]], request, stored)
    ensures var r := s.records[id][s.active[id]];
            UpdatePublication(c, p, s, id, request).reply.Ok? <==>
            && Has(s.manifests, id, s.active[id])
            && var m := s.manifests[id][s.active[id]];
               MayReplace(c, p, s, r, Published(m, stored, m.provenance.registryIdentity))
    ensures UpdatePublication(c, p, s, id, request).reply.Ok? ==>
              var m := s.manifests[id][s.active[id]];
              Replaced(s, UpdatePublication(c, p, s, id, request).state, id,
                       Published(m, stored, m.provenance.registryIdentity), stored,
                       s.records[id][s.active[id]].source.registryIdentity)
  {
    hide Validate; hide Unblocked; hide BlocklistHit; hide Put;
    if Has(s.manifests, id, s.active[id]) {
      var v := s.active[id];
      var (m, r) := (s.manifests[id][v], s.records[id][v]);
      assert StickySubmission(r, request) == stored;
      UnblockedIff(c, s.blocklist, Published(m, stored, m.provenance.registryIdentity));
      PutElsewhere(s.manifests, id, v, Published(m, stored, m.provenance.registryIdentity));
      PutElsewhere(s.records, id, v, r.(source := r.source.(publication := Some(stored))));
    }
  }

  /** The identity a submission is made under: the stored one, or else the requested one without padding. */
  function SubmitsUnder(c: FieldChecks, m: Manifest, requested: Option<string>): Option<string> {
    if m.provenance.registryIdentity.Some? && c.trim(m.provenance.registryIdentity.value) != ""
    then m.provenance.registryIdentity
    else if requested.Some? && c.trim(requested.value) != "" then Some(c.trim(requested.value))
    else None
  }

  /** A requested identity that names someone other than the stored one. */
  predicate Contradicts(c: FieldChecks, m: Manifest, requested: Option<string>) {
    && requested.Some? && c.trim(requested.value) != ""
    && m.provenance.registryIdentity.Some? && c.trim(m.provenance.registryIdentity.value) != ""
    && c.trim(requested.value) != c.trim(m.provenance.registryIdentity.value)
  }

  /** An optional text without padding, absent if nothing is left of it. */
  function Unpadded(c: FieldChecks, o: Option<string>): Option<string> {
    if o.Some? && c.trim(o.value) != "" then Some(c.trim(o.value)) else None
  }

  lemma SubmissionOutcome(
    c: FieldChecks, p: Policy, s: RegistryState, id: string, submission: Submission, requested: Option<string>)
    requires Active(s, id)
    ensures var r := s.records[id][s.active[id]];
            UpdateSubmission(c, p, s, id, submission, requested).reply.Ok? <==>
            && r.source.publication.Some? && Has(s.manifests, id, s.active[id])
            && var m := s.manifests[id][s.active[id]];
               && !Contradicts(c, m, requested)
               && MayReplace(c, p, s, r, Published(m, r.source.publication.value.(submission := submission),
                                                   SubmitsUnder(c, m, requested)))
  {
    hide Validate; hide Unblocked; hide BlocklistHit; hide Put; hide FromProvenance;
    if Has(s.manifests, id, s.active[id]) && s.records[id][s.active[id]].source.publication.Some? {
      var m := s.manifests[id][s.active[id]];
      var publication := s.records[id][s.active[id]].source.publication.value.(submission := submission);
      var identity := SubmitsUnder(c, m, requested);
      assert identity == SubmissionIdentity(c, m, requested);
      UnblockedIff(c, s.blocklist, Published(m, publication, identity));
    }
  }

  /** What a submission update stores: the new submission, under the identity without padding. */
  lemma SubmissionHolds(
    c: FieldChecks, p: Policy, s: RegistryState, id: string, submission: Submission, requested: Option<string>)
    requires Active(s, id) && Has(s.manifests, id, s.active[id]) && Idempotent(c.trim)
    requires UpdateSubmission(c, p, s, id, submission, requested).reply.Ok?
    requires s.records[id][s.active[id]].source.publication.Some?
    ensures var t := UpdateSubmission(c, p, s, id, submission, requested).state;
            var m := s.manifests[id][s.active[id]];
            var publication := s.records[id][s.active[id]].source.publication.value.(submission := submission);
            var identity := Unpadded(c, SubmitsUnder(c, m, requested));
            && Replaced(s, t, id, Published(m, publication, identity), publication, identity)
            && SameOrigin(c, t.records[id][s.active[id]].source, t.manifests[id][s.active[id]].provenance)
  {
    hide Validate; hide BlocklistHit; hide Put; hide RepublishError;
    var v := s.active[id];
    var (m, r) := (s.manifests[id][v], s.records[id][v]);
    var identity := SubmitsUnder(c, m, requested);
    assert identity == SubmissionIdentity(c, m, requested) && Unpadded(c, identity) == c.TrimOptional(identity);
    TrimTwice(c, m.provenance.repository);
    TrimTwice(c, m.provenance.sourceRef);
    TrimTwice(c, m.provenance.manifestPath);
    TrimTwice(c, identity);
    var stored := Published(m, r.source.publication.value.(submission := submission), c.TrimOptional(identity));
    PutElsewhere(s.manifests, id, v, stored);
    PutElsewhere(s.records, id, v, r.(source := FromProvenance(c, stored.provenance)));
  }

  // ---- the blocklist is respected

  /** The extension an operation activates, or leaves active with a new manifest or status. */
  function Activates(op: RegistryTheorems.Op): Option<string> {
    match op
    case InstallOp(m, _) => Some(m.id)
    case RollbackOp(id) => Some(id)
    case EnableOp(id) => Some(id)
    case PublicationOp(id, _) => Some(id)
    case SubmissionOp(id, _, _) => Some(id)
    case _ => None
  }

  lemma SameForBlocklist(c: FieldChecks, blocklist: seq<BlocklistEntry>, m: Manifest, n: Manifest)
    requires n == m.(provenance := m.provenance.(publication := n.provenance.publication,
                                                 registryIdentity := n.provenance.registryIdentity))
    ensures Unblocked(c, blocklist, m) <==> Unblocked(c, blocklist, n)
  {
  }

  /** However an extension was installed, rolled back, enabled or republished, nothing on the blocklist
      applies to the manifest that is active afterwards. */
  lemma ActivationRespectsBlocklist(c: FieldChecks, p: Policy, s: RegistryState, op: RegistryTheorems.Op)
    requires Activates(op).Some? && RegistryTheorems.Apply(c, p, s, op).reply.Ok?
    ensures var t := RegistryTheorems.Apply(c, p, s, op).state;
            var id := Activates(op).value;
            && id in t.active && Has(t.manifests, id, t.active[id])
            && Unblocked(c, t.blocklist, t.manifests[id][t.active[id]])
  {
    hide Unblocked; hide Validate; hide BlocklistHit; hide FromProvenance; hide MatchesAuthority; hide NewRecord;
    hide ClosesCycle;
    if op.InstallOp? {
      UnblockedIff(c, s.blocklist, op.manifest);
    } else if op.RollbackOp? {
      RollbackOutcome(c, s, op.id);
    } else if op.EnableOp? {
      EnableOutcome(c, s, op.id);
    } else {
      RepublishingRespectsBlocklist(c, p, s, op);
    }
  }

  lemma RepublishingRespectsBlocklist(c: FieldChecks, p: Policy, s: RegistryState, op: RegistryTheorems.Op)
    requires (op.PublicationOp? || op.SubmissionOp?) && RegistryTheorems.Apply(c, p, s, op).reply.Ok?
    ensures var t := RegistryTheorems.Apply(c, p, s, op).state;
            && op.id in t.active && Has(t.manifests, op.id, t.active[op.id])
            && Unblocked(c, t.blocklist, t.manifests[op.id][t.active[op.id]])
  {
    hide Unblocked; hide Validate; hide BlocklistHit; hide FromProvenance;
    var m := s.manifests[op.id][s.active[op.id]];
    var n := RegistryTheorems.Apply(c, p, s, op).state.manifests[op.id][s.active[op.id]];
    var checked :=
      if op.PublicationOp? then n else Republish(m, n.provenance.publication, SubmissionIdentity(c, m, op.identity));
    UnblockedIff(c, s.blocklist, checked);
    SameForBlocklist(c, s.blocklist, checked, n);
  }

  lemma BlocklistOutcome(s: RegistryState, entry: BlocklistEntry)
    ensures AddBlocklistEntry(s, entry).reply.Ok? <==> !entry.key.VulnerabilityId?
    ensures AddBlocklistEntry(s, entry).reply.Ok? ==>
              AddBlocklistEntry(s, entry).state == s.(blocklist := s.blocklist + [entry])
  {
  }

  // ---- service calls

  /** An active version that is switched on and that nothing on the blocklist applies to. */
  ghost predicate MayTakePart(c: FieldChecks, s: RegistryState, id: string) {
    && Active(s, id) && Has(s.manifests, id, s.active[id])
    && Unblocked(c, s.blocklist, s.manifests[id][s.active[id]])
    && var status := s.records[id][s.active[id]].status;
       status == Installed || status == InstalledPreviousVersion
  }

  /** The caller declares that it consumes the call, the callee that it provides it, both under one
      permission that both describe alike and that is the one asked for, if one is. */
  ghost predicate AgreesOn(caller: Manifest, callee: Manifest, q: ServiceRequest, permission: string) {
    && ServiceDependency(q.callee, q.service, q.operation, q.schemaVersion, permission) in caller.consumedServices
    && ServiceDefinition(q.service, q.operation, q.schemaVersion, permission) in callee.providedServices
    && (q.permission == None || q.permission == Some(permission))
    && permission in caller.permissions && permission in callee.permissions
    && caller.permissions[permission] == callee.permissions[permission]
  }

  lemma TakesPartIff(c: FieldChecks, s: RegistryState, id: string)
    ensures Callable(c, s, id) <==> MayTakePart(c, s, id)
  {
    hide Unblocked; hide BlocklistHit; hide MatchesManifest;
    if Active(s, id) && Has(s.manifests, id, s.active[id]) {
      UnblockedIff(c, s.blocklist, s.manifests[id][s.active[id]]);
      HitMeansBlocked(c, s.blocklist, s.manifests[id][s.active[id]]);
    }
  }

  lemma AgreesIff(caller: Manifest, callee: Manifest, q: ServiceRequest)
    ensures (exists i: nat, j: nat :: Agreed(caller, callee, q, i, j)) <==>
            exists permission :: AgreesOn(caller, callee, q, permission)
  {
    if i: nat, j: nat :| Agreed(caller, callee, q, i, j) {
      var permission := callee.providedServices[j].requiredPermission;
      assert caller.consumedServices[i] ==
             ServiceDependency(q.callee, q.service, q.operation, q.schemaVersion, permission);
      assert callee.providedServices[j] == ServiceDefinition(q.service, q.operation, q.schemaVersion, permission);
      assert AgreesOn(caller, callee, q, permission);
    }
    if permission :| AgreesOn(caller, callee, q, permission) {
      var i :| 0 <= i < |caller.consumedServices| && caller.consumedServices[i] ==
               ServiceDependency(q.callee, q.service, q.operation, q.schemaVersion, permission);
      var j :| 0 <= j < |callee.providedServices| && callee.providedServices[j] ==
               ServiceDefinition(q.service, q.operation, q.schemaVersion, permission);
      assert Agreed(caller, callee, q, i, j);
    }
  }

  /** In a registry in order a call is granted exactly if both sides may take part and agree on it, and
      the grant says who calls whom, at which versions, what, and under which permission. */
  lemma CallGrantedIff(c: FieldChecks, p: Policy, s: RegistryState, q: ServiceRequest)
    requires SnapshotOk(c, p, s)
    ensures Authorize(c, s, q).Ok? <==>
            && MayTakePart(c, s, q.caller) && MayTakePart(c, s, q.callee)
            && exists permission ::
                 AgreesOn(s.manifests[q.caller][s.active[q.caller]], s.manifests[q.callee][s.active[q.callee]], q,
                          permission)
  {
    hide SnapshotOk; hide Callable; hide MayTakePart; hide Agreed; hide AgreesOn; hide Authorize;
    GrantIff(c, p, s, q);
    TakesPartIff(c, s, q.caller);
    TakesPartIff(c, s, q.callee);
    if Callable(c, s, q.caller) && Callable(c, s, q.callee) {
      PartsArePresent(c, s, q.caller);
      PartsArePresent(c, s, q.callee);
      AgreesIff(s.manifests[q.caller][s.active[q.caller]], s.manifests[q.callee][s.active[q.callee]], q);
    }
  }

  lemma PartsArePresent(c: FieldChecks, s: RegistryState, id: string)
    requires Callable(c, s, id)
    ensures id in s.active && Has(s.manifests, id, s.active[id])
  {
  }

  lemma GrantSays(c: FieldChecks, s: RegistryState, q: ServiceRequest)
    requires Authorize(c, s, q).Ok?
    ensures var g := Authorize(c, s, q).value;
            && g.caller == q.caller && g.callee == q.callee && q.caller in s.active && q.callee in s.active
            && g.callerVersion == s.active[q.caller] && g.calleeVersion == s.active[q.callee]
            && g.service == q.service && g.operation == q.operation && g.schemaVersion == q.schemaVersion
            && Has(s.manifests, q.caller, g.callerVersion) && Has(s.manifests, q.callee, g.calleeVersion)
            && AgreesOn(s.manifests[q.caller][g.callerVersion], s.manifests[q.callee][g.calleeVersion], q, g.permission)
  {
    hide BlocklistHit;
    var (caller, callee) := (s.manifests[q.caller][s.active[q.caller]], s.manifests[q.callee][s.active[q.callee]]);
    var consume := FirstConsume(caller.consumedServices, q).value;
    var provide := FirstProvide(callee.providedServices, q).value;
    var permission := Authorize(c, s, q).value.permission;
    assert consume == ServiceDependency(q.callee, q.service, q.operation, q.schemaVersion, permission);
    assert provide == ServiceDefinition(q.service, q.operation, q.schemaVersion, permission);
  }

  // ---- audit records

  /** A reference to an install record with well-formed parts. */
  predicate RefRule(c: FieldChecks, r: RecordRef) {
    c.reverseDns(r.packageId) && c.semver(r.version) && c.digest(r.manifestDigest) && c.digest(r.artifactDigest)
  }

  /** A text that is there only without padding. */
  predicate Exact(c: FieldChecks, o: Option<string>) {
    o.Some? ==> o.value != "" && c.trim(o.value) == o.value
  }

  predicate ProvenanceRule(c: FieldChecks, v: SourceSnapshot) {
    && (forall o | o in [v.repository, v.sourceRef, v.manifestPath, v.commit, v.registryIdentity] :: Exact(c, o))
    && (v.source == Github ==> None !in [v.repository, v.sourceRef, v.manifestPath, v.commit])
    && (v.source == Registry ==> v.registryIdentity != None)
  }

  /** What each kind of audit record carries: which parts are required, and for a blocklist change which are barred. */
  predicate KindRule(a: AuditRecord) {
    if a.kind != BlocklistAudit then
      && a.packageId.Some? && a.provenance.Some?
      && (a.kind != InstallAudit ==> a.previousRecord.Some?)
      && (a.kind != RemoveAudit ==> a.newRecord.Some?)
    else
      && a.blocklistEntry.Some? && !a.blocklistEntry.value.key.VulnerabilityId?
      && var key := a.blocklistEntry.value.key;
         if key.ExtensionId? || key.ExtensionVersion? then
           && a.packageId == Some(key.id)
           && (forall r | r in [a.previousRecord, a.newRecord] && r.Some? ::
                 r.value.packageId == key.id && (key.ExtensionVersion? ==> r.value.version == key.version))
         else a.packageId.None? && a.previousRecord.None? && a.newRecord.None? && a.provenance.None?
  }

  predicate AuditRule(c: FieldChecks, a: AuditRecord) {
    && a.schemaVersion == 1 && c.trim(a.reason) != "" && c.trim(a.requestSource) != ""
    && (a.packageId.Some? ==> c.reverseDns(a.packageId.value))
    && (forall r | r in [a.previousRecord, a.newRecord] && r.Some? :: RefRule(c, r.value))
    && (a.provenance.Some? ==> ProvenanceRule(c, a.provenance.value))
    && KindRule(a)
  }

  lemma KindIff(a: AuditRecord)
    ensures AuditPayloadOk(a) <==> KindRule(a)
  {
    var refs := [a.previousRecord, a.newRecord];
    assert refs[0] in refs && refs[1] in refs;
  }

  lemma ProvenanceIff(c: FieldChecks, v: SourceSnapshot)
    requires c.trim("") == ""
    ensures AuditProvenanceOk(c, v) <==> ProvenanceRule(c, v)
  {
    var texts := [v.repository, v.sourceRef, v.manifestPath, v.commit, v.registryIdentity];
    assert texts[0] in texts && texts[1] in texts && texts[2] in texts && texts[3] in texts && texts[4] in texts;
    forall o: Option<string>
      ensures Trimmed(c, o) <==> Exact(c, o)
    {
    }
    var named := [v.repository, v.sourceRef, v.manifestPath, v.commit];
    assert named[0] in named && named[1] in named && named[2] in named && named[3] in named;
  }

  lemma AuditShapeIff(c: FieldChecks, a: AuditRecord)
    requires c.trim("") == ""
    ensures AuditShapeOk(c, a) <==> AuditRule(c, a)
  {
    hide AuditPayloadOk; hide KindRule; hide AuditProvenanceOk; hide ProvenanceRule;
    KindIff(a);
    if a.provenance.Some? { ProvenanceIff(c, a.provenance.value); }
    var refs := [a.previousRecord, a.newRecord];
    assert refs[0] in refs && refs[1] in refs;
  }

  /** A reference finds its install record, with the digests it names. */
  predicate Finds(records: map<string, map<string, InstallRecord>>, r: RecordRef) {
    && Has(records, r.packageId, r.version)
    && records[r.packageId][r.version].manifestDigest == r.manifestDigest
    && records[r.packageId][r.version].artifactDigest == r.artifactDigest
  }

  /** Both references of an audit record are about its package and find their records. */
  predicate Traceable(records: map<string, map<string, InstallRecord>>, a: AuditRecord) {
    forall r | r in [a.previousRecord, a.newRecord] && r.Some? ::
      Finds(records, r.value) && (a.packageId.Some? ==> r.value.packageId == a.packageId.value)
  }

  lemma TraceableIff(records: map<string, map<string, InstallRecord>>, a: AuditRecord)
    ensures AuditTargetsOk(a, records, false) <==> Traceable(records, a)
    ensures AuditTargetsOk(a, records, true) <==>
            Traceable(records, a) &&
            (a.newRecord.Some? ==>
               records[a.newRecord.value.packageId][a.newRecord.value.version].status == a.newRecord.value.status)
  {
    var refs := [a.previousRecord, a.newRecord];
    assert refs[0] in refs && refs[1] in refs;
  }

  /** An audit record is taken exactly if it is well formed, its id is new, its references find their
      records, and the new record has the status it says. */
  lemma AuditOutcome(c: FieldChecks, s: RegistryState, a: AuditRecord)
    requires c.trim("") == ""
    ensures AppendAudit(c, s, a).reply.Ok? <==>
            && AuditRule(c, a) && (forall i | 0 <= i < |s.audits| :: s.audits[i].id != a.id)
            && Traceable(s.records, a)
            && (a.newRecord.Some? ==>
                  s.records[a.newRecord.value.packageId][a.newRecord.value.version].status == a.newRecord.value.status)
    ensures AppendAudit(c, s, a).reply.Ok? ==> AppendAudit(c, s, a).state == s.(audits := s.audits + [a])
  {
    hide AuditShapeOk; hide AuditRule; hide AuditTargetsOk; hide Traceable;
    AuditShapeIff(c, a);
    TraceableIff(s.records, a);
  }

  // ---- loading

  /** One recorded version: its manifest is there, they agree, it is valid as recorded, and what it was
      installed over is recorded too. */
  ghost predicate VersionRule(c: FieldChecks, p: Policy, s: RegistryState, id: string, v: string)
    requires Has(s.records, id, v)
  {
    var r := s.records[id][v];
    && Has(s.manifests, id, v)
    && var m := s.manifests[id][v];
       && r.id == m.id == id && r.version == m.version == v
       && r.artifactDigest == m.provenance.artifactDigest && r.manifestDigest == m.provenance.manifestDigest
       && r.source == SourceSnapshot(m.provenance.source, Unpadded(c, m.provenance.repository),
                                     Unpadded(c, m.provenance.sourceRef), Unpadded(c, m.provenance.manifestPath),
                                     m.provenance.commit, Unpadded(c, m.provenance.registryIdentity),
                                     m.provenance.lineage, m.provenance.publication)
       && Validate(c, m, p.(allowUnsigned := p.allowUnsigned || r.approvedUnsigned,
                            allowProcess := p.allowProcess || r.approvedProcess)) == Some(r.boundary)
       && (r.previous.Some? ==> Has(s.records, id, r.previous.value))
       && exists n: nat :: Walk(GraphOf(s.records, id), v, n).None?
  }

  ghost predicate ChainRule(s: RegistryState, id: string, v: string)
    requires Has(s.records, id, v)
  {
    && (s.records[id][v].previous.Some? ==> Has(s.records, id, s.records[id][v].previous.value))
    && exists n: nat :: Walk(GraphOf(s.records, id), v, n).None?
  }

  lemma VersionIff(c: FieldChecks, p: Policy, s: RegistryState, id: string, v: string)
    requires Has(s.records, id, v)
    ensures VersionRule(c, p, s, id, v) <==>
            && Has(s.manifests, id, v) && EntryOk(c, p, id, v, s.records[id][v], s.manifests[id][v])
            && ChainRule(s, id, v)
  {
    hide Validate; hide Walk;
    if Has(s.manifests, id, v) {
      var m := s.manifests[id][v];
      assert c.TrimOptional(m.provenance.repository) == Unpadded(c, m.provenance.repository);
      assert c.TrimOptional(m.provenance.registryIdentity) == Unpadded(c, m.provenance.registryIdentity);
    }
  }

  lemma ChainsIff(s: RegistryState)
    ensures GraphsOk(s) <==> forall id, v | Has(s.records, id, v) :: ChainRule(s, id, v)
  {
    hide Walk;
    forall id | id in s.records
      ensures GraphOk(GraphOf(s.records, id)) <==> forall v | Has(s.records, id, v) :: ChainRule(s, id, v)
    {
      var g := GraphOf(s.records, id);
      assert forall v :: v in g <==> Has(s.records, id, v);
      assert forall v | v in g :: g[v] == s.records[id][v].previous;
      assert forall v | v in g :: ChainRule(s, id, v) <==> (g[v].Some? ==> g[v].value in g) && Ends(g, v);
    }
  }

  lemma AuditsIff(c: FieldChecks, s: RegistryState)
    requires c.trim("") == ""
    ensures AuditsOk(c, s) <==>
            && (forall i | 0 <= i < |s.audits| :: AuditRule(c, s.audits[i]) && Traceable(s.records, s.audits[i]))
            && (forall i, j | 0 <= i < j < |s.audits| :: s.audits[i].id != s.audits[j].id)
  {
    hide AuditShapeOk; hide AuditRule; hide AuditTargetsOk; hide Traceable;
    forall i | 0 <= i < |s.audits|
      ensures AuditShapeOk(c, s.audits[i]) <==> AuditRule(c, s.audits[i])
      ensures AuditTargetsOk(s.audits[i], s.records, false) <==> Traceable(s.records, s.audits[i])
    {
      AuditShapeIff(c, s.audits[i]);
      TraceableIff(s.records, s.audits[i]);
    }
  }

  /** A snapshot loads exactly if every version is in order, nothing is there without a record, and
      blocklist and audit log are ones the registry could have written. */
  lemma LoadsIff(c: FieldChecks, p: Policy, s: RegistryState)
    requires c.trim("") == ""
    ensures RegistryTheorems.Load(c, p, s).Some? <==>
            && (forall id, v | Has(s.records, id, v) :: VersionRule(c, p, s, id, v))
            && (forall id, v | Has(s.manifests, id, v) :: Has(s.records, id, v))
            && (forall id | id in s.active :: Has(s.records, id, s.active[id]))
            && (forall i | 0 <= i < |s.blocklist| :: !s.blocklist[i].key.VulnerabilityId?)
            && (forall i | 0 <= i < |s.audits| :: AuditRule(c, s.audits[i]) && Traceable(s.records, s.audits[i]))
            && (forall i, j | 0 <= i < j < |s.audits| :: s.audits[i].id != s.audits[j].id)
    ensures RegistryTheorems.Load(c, p, s).Some? ==> RegistryTheorems.Load(c, p, s).value == s
  {
    hide EntryOk; hide VersionRule; hide ChainRule; hide GraphsOk; hide AuditsOk; hide AuditRule; hide Traceable;
    forall id, v | Has(s.records, id, v)
      ensures VersionRule(c, p, s, id, v) <==>
              && Has(s.manifests, id, v) && EntryOk(c, p, id, v, s.records[id][v], s.manifests[id][v])
              && ChainRule(s, id, v)
    {
      VersionIff(c, p, s, id, v);
    }
    ChainsIff(s);
    AuditsIff(c, s);
  }
}
