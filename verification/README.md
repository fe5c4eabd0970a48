# Atelia Secretary: a verified model

Atelia Secretary is a local daemon that installs extensions, runs tool jobs under a policy, and keeps
what the tools produce. This project models the parts of its core crate that hold state or transform
output, and proves what they keep. It is written for Dafny 4.11; `dafny verify dfyconfig.toml` checks
every file.

## What is modelled

- **Extension registry** (`ExtensionManifest`, `RollbackGraph`, `RegistrySpec`, `RegistryTheorems`,
  `RegistryServices`, `ExtensionRegistry`, `ManifestRules`, `RegistryOutcomes`). `RegistrySpec` gives
  each operation as a function on states; the class `ExtensionRegistry` changes its fields in place and
  is proved against it. The theorems cover every run: what was saved can be loaded, rollback chains stay
  acyclic, audit references keep resolving, and a service call is granted exactly when it should be.
  `ManifestRules` and `RegistryOutcomes` say of each operation, without its own functions, when it
  succeeds, how it is refused and what it leaves.
- **Settings** (`Settings`, `SettingsMigration`, `SettingsService`, `SettingsRules`). Scoped defaults, the migration of
  legacy records, and audited updates. Migration works record by record in depth order; a closed form
  of it shows exactly which fields of which scopes it can change. Resolution is proved to be what its
  documentation says: the nearest scope that says something wins.
- **Artifacts** (`ArtifactIndex`, `ArtifactInterleaving`, `ArtifactStore`, `ArtifactSpill`,
  `ArtifactExpiry`, `ArtifactRules`). `ArtifactInterleaving` is a machine of any number of processes on one scope, one
  file-system step at a time, each of which may fail or be the last. `ArtifactStore` and the two
  modules after it are the sequential code; what the disk does to each artifact is an input (`Fate`).
- **Tool output** (`Utf8`, `ToolResults`, `Truncation`, `FieldBudget`, `RenderSelection`,
  `RenderRules`, `ToonValue`, `ToonRules`, `ToonRender`, `ToonLossless`). Two independently written
  truncators over UTF-8 (section 3 of RFC 3629), the selection of the fields that are shown, the TOON
  printer with a decoder that undoes it, exactly when text is quoted, the line budget, and that a result
  printed in full can be told from every other.
- **Job runs** (`JobLifecycle`, `JobStore`, `JobScript`, `JobRules`, `JobRun`). The status machine, the store's
  checks on updates, and a run against a store in which disk steps may fail and another client may cancel
  between any two of the run's store calls. What the surroundings supply (request, decision, tool
  result, settings, spill options, disk) is one `Script` value, so a theorem about all scripts is about
  all surroundings; sizes, rendering and spilling are computed from it by the modules above.

## Where the code falls short of what it promises

Each of these is proved as an exact condition with a concrete case beside it.

- A submission update trims the registry identity after validating it, while an official package is
  matched against the policy's identity verbatim. If that identity has surrounding whitespace, the
  registry reaches a state it cannot reload (`SubmissionKeepsValidIff`, `PaddedIdentityBreaksReload`).
- Migration computes a level-and-tool record against the workspace-and-tool record as it stands. If
  that one is legacy too and comes later, a field can be lost (`FieldPreservedIff`,
  `MigrationCanLoseAField`).
- A run that rewrites a result points its copy of the job at an audit event before that event is
  stored. If the rewritten result then fails to render, the attempt to mark the job failed is refused
  as stale, and the job stays running until someone cancels it (`StrandedExit`). This happens exactly when oversized
  output is rejected, the result is within the limit, and an explicit spill turns a field that is shown
  into a reference over the limit (`StrandsIff`, `StrandedRunExists`, `RunStranded`).
- A write that fails to canonicalize the path of the file it has just placed leaves the file behind
  without a row (`artifacts.rs` line 305); no clean-up is tried. A failed write restores the files
  exactly if this did not happen and one of its two deletions worked (`WriteBytes`), and a failed spill
  exactly if neither this nor a failed deletion happened to any of its artifacts (`RestoredIff`,
  `SpillLargeFields`). In the concrete case nothing ever removes the file
  (`AbandonedWriteLeavesOrphan`, `OrphansStayForever`).

## Model

| member | source | states |
|---|---|---|
| `ExtensionManifest.ValidateManifest` | crates/atelia-core/src/extensions.rs:636-683 | The checking pass, with its loops over service declarations, returns exactly the boundary the declarative check assigns, or nothing |
| `ExtensionManifest.ValidateProvides` | crates/atelia-core/src/extensions.rs:1053-1125 | The loop with a set of seen keys accepts exactly the lists whose declarations are each fine and whose keys are pairwise distinct |
| `ExtensionManifest.ValidateConsumes` | crates/atelia-core/src/extensions.rs:1053-1125 | The same for consumed services |
| `ExtensionManifest.ValidateMonotone` | crates/atelia-core/src/extensions.rs:636-892 | Granting approvals never rejects a manifest that was accepted and never changes its boundary |
| `ExtensionManifest.RepublishKeepsApprovals` | crates/atelia-core/src/extensions.rs:2092-2232 | A manifest whose publication was rewritten and which validates under a laxer policy validates under every policy that accepted it before |
| `ExtensionManifest.RejectedNeverValidates` | crates/atelia-core/src/extensions.rs:894-983 | No visibility admits a rejected submission |
| `RollbackGraph.RepointAcyclicIff` | crates/atelia-core/src/extensions.rs:1858-1877 | Pointing a version at another keeps an acyclic chain graph acyclic if and only if the chain from the target avoids the version |
| `RollbackGraph.DetectRollbackCycle` | crates/atelia-core/src/extensions.rs:3072-3086 | The walk with a visited set reports a repeat exactly if the chain from the start never ends |
| `RollbackGraph.WouldCreateRollbackCycle` | crates/atelia-core/src/extensions.rs:1858-1877 | The walk from the active version says yes exactly if the chain reaches the version being installed |
| `RegistryTheorems.FailureLeavesStateUnchanged` | crates/atelia-core/src/extensions.rs:1829-2307 | Every refused operation leaves the whole registry as it was |
| `RegistryTheorems.InstallPointerIsSafe` | crates/atelia-core/src/extensions.rs:1858-1918 | The pointer an install stores keeps the graph closed, and acyclic if and only if the install is not the one refused |
| `RegistryTheorems.SubmissionKeepsValidIff` | crates/atelia-core/src/extensions.rs:2155-2232 | A successful submission update keeps a valid state valid if and only if the package is not official or the policy's official identity has no surrounding whitespace |
| `RegistryTheorems.StepKeepsSound` | crates/atelia-core/src/extensions.rs:1829-2307 | Every operation keeps a registry in order: reloadable, under a policy with a trimmed identity |
| `RegistryTheorems.RunKeepsValid` | crates/atelia-core/src/extensions.rs:1785-2307 | Every run of the operations from a valid state stays valid, and no recorded version disappears or changes a digest |
| `RegistryTheorems.ReloadIsIdentity` | crates/atelia-core/src/extensions.rs:1796-1819 | For every run from empty or from a loadable snapshot, loading the snapshot gives back an equal registry |
| `RegistryTheorems.ReloadNeedsNoApprovals` | crates/atelia-core/src/store.rs:409-423 | A registry built under a permissive policy passes the reload check under the same policy without approvals |
| `RegistryTheorems.PaddedIdentityBreaksReload` | crates/atelia-core/src/extensions.rs:2155-2232 | Under every set of field checks that trims as Unicode does and accepts an ordinary id, version and digest, a blank before the official identity, one install and one submission update reach a state that cannot be reloaded |
| `RegistryTheorems.AuditRefsResolveForever` | crates/atelia-core/src/extensions.rs:2279-2307 | Over any run logs only grow, audit ids stay distinct, and an audit reference keeps resolving to an install record with the same digests |
| `RegistryTheorems.RollbacksFollowChain` | crates/atelia-core/src/extensions.rs:1973-2009 | k consecutive rollbacks land exactly k steps down the chain and leave it unchanged, so fewer can succeed than the chain has versions |
| `RegistryTheorems.StoredPublications` | crates/atelia-core/src/extensions.rs:2533-2675 | In a valid state record and manifest agree on the publication, it meets the visibility table, and it is never rejected |
| `RegistryTheorems.SettledSubmissionsAreSticky` | crates/atelia-core/src/extensions.rs:2092-2152 | A submitted or accepted submission survives every run without a submission update or reinstall of that version |
| `RegistryServices.DeclarationsAreUnambiguous` | crates/atelia-core/src/extensions.rs:1053-1125 | In a validated manifest at most one declaration of each side can answer a request |
| `RegistryServices.NegotiateIff` | crates/atelia-core/src/extensions.rs:2326-2438 | Looking at the first matching declarations succeeds if and only if some pair of declarations agrees |
| `RegistryServices.GrantIff` | crates/atelia-core/src/extensions.rs:2326-2475 | In a valid state a call is granted if and only if both sides are active, enabled and not blocklisted and some pair of declarations agrees on call and permission |
| `ExtensionRegistry.ExtensionRegistry.constructor` | crates/atelia-core/src/extensions.rs:1785-1794 | A new registry is empty, and in order if its policy's identity is trimmed |
| `ExtensionRegistry.ExtensionRegistry.Install` | crates/atelia-core/src/extensions.rs:1879-1957 | Reply and new state are those of the specified install, which InstallSucceedsIff, InstallRefusals and InstallHolds pin: among other things it is refused for a blocklisted package and makes the new version active; a registry in order stays so |
| `ExtensionRegistry.ExtensionRegistry.Rollback` | crates/atelia-core/src/extensions.rs:1973-2009 | Reply and new state are those of the specified rollback, pinned by RollbackOutcome; a registry in order stays so |
| `ExtensionRegistry.ExtensionRegistry.Disable` | crates/atelia-core/src/extensions.rs:2011-2029 | Reply and new state are those of the specified disable, pinned by DisableOutcome; a registry in order stays so |
| `ExtensionRegistry.ExtensionRegistry.Enable` | crates/atelia-core/src/extensions.rs:2031-2058 | Reply and new state are those of the specified enable, pinned by EnableOutcome; a registry in order stays so |
| `ExtensionRegistry.ExtensionRegistry.Remove` | crates/atelia-core/src/extensions.rs:2060-2089 | Reply and new state are those of the specified remove, pinned by RemoveOutcome; a registry in order stays so |
| `ExtensionRegistry.ExtensionRegistry.UpdatePublication` | crates/atelia-core/src/extensions.rs:2092-2152 | Reply and new state are those of the specified publication update, pinned by PublicationOutcome; a registry in order stays so |
| `ExtensionRegistry.ExtensionRegistry.UpdateRegistrySubmission` | crates/atelia-core/src/extensions.rs:2155-2232 | Reply and new state are those of the specified submission update, pinned by SubmissionOutcome and SubmissionHolds; a registry in order stays so |
| `ExtensionRegistry.ExtensionRegistry.AddBlocklistEntry` | crates/atelia-core/src/extensions.rs:1829-1836 | Reply and new state are those of the specified blocklist addition; a registry in order stays so |
| `ExtensionRegistry.ExtensionRegistry.AppendAuditRecord` | crates/atelia-core/src/extensions.rs:2279-2307 | Reply and new state are those of the specified audit append; a registry in order stays so |
| `ExtensionRegistry.ExtensionRegistry.AuthorizeServiceCall` | crates/atelia-core/src/extensions.rs:2326-2475 | The reply is the specified authorization, pinned by CallGrantedIff and GrantSays |
| `ExtensionRegistry.ExtensionRegistry.FindBlocklistHit` | crates/atelia-core/src/extensions.rs:2471-2475 | The scan finds the first entry that matches the package |
| `ExtensionRegistry.ExtensionRegistry.RunValidationChecks` | crates/atelia-core/src/extensions.rs:1838-1856 | The shared checks return the first specified error; which refusal applies when, blocklist included, is stated by InstallRefusals |
| `ExtensionRegistry.ValidateVersions` | crates/atelia-core/src/extensions.rs:2533-2675 | The loop over one extension's versions accepts exactly the specified ones |
| `ExtensionRegistry.ValidateAudits` | crates/atelia-core/src/extensions.rs:2667-2710 | The loop accepts exactly the audit logs with distinct ids whose records and targets check out |
| `ExtensionRegistry.ValidateSnapshot` | crates/atelia-core/src/extensions.rs:2533-2675 | The reload check accepts exactly the valid states |
| `ExtensionRegistry.FromSnapshot` | crates/atelia-core/src/extensions.rs:1796-1809 | Loading succeeds exactly on valid states and reproduces them in order |
| `ManifestRules.BoundaryIff` | crates/atelia-core/src/extensions.rs:685-724 | Which boundary a manifest is assigned, from its source, the prefix of its id and its registry identity |
| `ManifestRules.PublicationIff` | crates/atelia-core/src/extensions.rs:894-983 | A publication passes if and only if its submission state goes with its visibility, boundary and registry identity |
| `ManifestRules.ValidatesIff` | crates/atelia-core/src/extensions.rs:636-1125 | A manifest validates if and only if its header, origin, publication, permissions and every service declaration meet their rules, said without the checking functions |
| `RegistryOutcomes.InstallSucceedsIff` | crates/atelia-core/src/extensions.rs:1838-1957 | An install succeeds if and only if the manifest validates, no blocklist entry covers it, its digests agree with what is recorded, its origin is the same or the change approved, and the chain from the active version does not lead back to it |
| `RegistryOutcomes.InstallRefusals` | crates/atelia-core/src/extensions.rs:1838-1856 | Which refusal a failing install meets: validation before blocklist, digests, origin and chain, each if and only if the earlier ones pass |
| `RegistryOutcomes.InstallHolds` | crates/atelia-core/src/extensions.rs:1879-1957 | After an install the version is recorded with the digests, approvals and origin given, as installed and active, with the version that was active as its rollback target, and every other record is as it was |
| `RegistryOutcomes.DisableOutcome` | crates/atelia-core/src/extensions.rs:2011-2029 | When disabling succeeds, and that it writes the disabled status and nothing else |
| `RegistryOutcomes.EnableOutcome` | crates/atelia-core/src/extensions.rs:2031-2058 | When enabling succeeds: never for a blocklisted version; it writes the installed status and nothing else |
| `RegistryOutcomes.RemoveOutcome` | crates/atelia-core/src/extensions.rs:2060-2089 | When removing succeeds, and that it disables the record, leaves no version active, and changes nothing else |
| `RegistryOutcomes.RollbackOutcome` | crates/atelia-core/src/extensions.rs:1973-2009 | When rolling back succeeds: to the previous version, never to a blocklisted one; that version is active afterwards with the previous-version status, and nothing else has changed |
| `RegistryOutcomes.PublicationOutcome` | crates/atelia-core/src/extensions.rs:2092-2152 | When a publication update succeeds and what record and manifest then hold |
| `RegistryOutcomes.SubmissionOutcome` | crates/atelia-core/src/extensions.rs:2155-2232 | When a submission update succeeds: the package is published, no other identity is asked for, and the rewritten manifest validates and is not blocklisted |
| `RegistryOutcomes.SubmissionHolds` | crates/atelia-core/src/extensions.rs:2155-2232 | What record and manifest hold after a submission update |
| `RegistryOutcomes.ActivationRespectsBlocklist` | crates/atelia-core/src/extensions.rs:2471-2530 | No install, rollback or enable makes a version active that a blocklist entry covers |
| `RegistryOutcomes.RepublishingRespectsBlocklist` | crates/atelia-core/src/extensions.rs:2092-2232 | Neither does a publication or submission update leave a blocklisted manifest behind it |
| `RegistryOutcomes.BlocklistOutcome` | crates/atelia-core/src/extensions.rs:1829-1836 | An entry is refused only for a vulnerability id, and otherwise exactly that entry is appended |
| `RegistryOutcomes.CallGrantedIff` | crates/atelia-core/src/extensions.rs:2326-2475 | A service call is granted if and only if both sides take part and the two declarations that answer it agree on schema and permission |
| `RegistryOutcomes.GrantSays` | crates/atelia-core/src/extensions.rs:2326-2438 | What a grant contains: the two sides with their active versions, the service, operation and schema asked for, and the permission on which the declarations agree |
| `RegistryOutcomes.AuditOutcome` | crates/atelia-core/src/extensions.rs:2279-2307 | An audit record is accepted if and only if it meets the rules of its kind, its id is new and its references find records with the same digests and status; then exactly that record is appended |
| `RegistryOutcomes.LoadsIff` | crates/atelia-core/src/extensions.rs:2533-2675 | A snapshot loads if and only if its versions, chains and audits meet the rules, said without the checking functions |
| `Settings.DiffRestores` | crates/atelia-core/src/settings.rs:544-569 | Overrides computed against a parent, applied to that parent, give back the defaults |
| `Settings.MergeComposes` | crates/atelia-core/src/settings.rs:571-613 | Applying a merged override equals applying the two one after the other |
| `SettingsMigration.MigrateIsClosedForm` | crates/atelia-core/src/settings.rs:220-232 | Migrating record by record in depth order equals a closed form that names what each record inherits |
| `SettingsMigration.FieldPreservedIff` | crates/atelia-core/src/settings.rs:202-232 | For one scope and one field, migration keeps the resolved value if and only if the field does not leak |
| `SettingsMigration.MigrationPreservesIff` | crates/atelia-core/src/settings.rs:105-137 | For all records with distinct scopes in any order no legacy record is left, and a scope resolves as before if and only if no field leaks |
| `SettingsMigration.LegacyDefaultsSurvive` | crates/atelia-core/src/settings.rs:105-137 | A legacy scope resolves to exactly its stored defaults unless it is a level-and-tool scope stored before the workspace's legacy record for the tool |
| `SettingsMigration.MigrationCanLoseAField` | crates/atelia-core/src/settings.rs:202-232 | Three concrete legacy records whose order makes one scope lose a field |
| `SettingsService.UpdateLeavesOthers` | crates/atelia-core/src/settings.rs:160-218 | An update leaves every scope that does not inherit from the updated one as it was |
| `SettingsService.ChangeIsExact` | crates/atelia-core/src/settings.rs:716-757 | The change record holds what the scope resolved to just before and just after |
| `SettingsService.UpdateSucceedsIff` | crates/atelia-core/src/settings.rs:716-757 | An update succeeds if and only if it sets something, gives a reason, and the result is in range |
| `SettingsService.ResolutionsInRangeIff` | crates/atelia-core/src/settings.rs:187-218 | Every scope resolves in range if and only if every stored record does |
| `SettingsService.MigrationKeepsRange` | crates/atelia-core/src/settings.rs:220-232 | Records in range stay in range when migrated, and every scope then resolves in range |
| `SettingsService.RunsStayInRange` | crates/atelia-core/src/settings.rs:160-185 | Over any run of updates resolutions stay in range and scopes stay distinct |
| `SettingsService.NewServicePreservesIff` | crates/atelia-core/src/settings.rs:105-137 | A service built from stored records resolves a scope as those records did if and only if no field leaks |
| `SettingsRules.NearestWins` | crates/atelia-core/src/settings.rs:251-280 | Every field of every scope resolves to what the nearest of scope, workspace tool, level and workspace says about it, and to the built-in default if none does |
| `SettingsRules.UpdateSays` | crates/atelia-core/src/settings.rs:716-757 | A successful update records actor, reason and time in the change and in the one record it writes, and leaves every other record where and as it was |
| `SettingsRules.UpdateSaysFields` | crates/atelia-core/src/settings.rs:571-613 | What the written record says about each field: the update, or else what was said before |
| `SettingsRules.UpdateRefusals` | crates/atelia-core/src/settings.rs:716-757 | Which refusal a failing update meets, with the value it names |
| `SettingsRules.MigrationKeepsRecords` | crates/atelia-core/src/settings.rs:220-232 | Migration keeps scope, time and author of every record and leaves records that are not legacy alone |
| `SettingsRules.MigrationOrderIs` | crates/atelia-core/src/settings.rs:220-232 | Records without a tool are migrated before those with one, each group as stored |
| `SettingsService.ToolOutputSettingsService.ResolveDefaults` | crates/atelia-core/src/settings.rs:187-200 | The walk along the chain returns the specified resolution |
| `SettingsService.ToolOutputSettingsService.ResolveParentDefaults` | crates/atelia-core/src/settings.rs:202-218 | The walk stopped short of the scope returns what it inherits |
| `SettingsService.ToolOutputSettingsService.ApplyUpdate` | crates/atelia-core/src/settings.rs:160-185 | A success stores the specified records and appends the change; a refusal changes nothing |
| `SettingsService.ToolOutputSettingsService.MigrateLegacySettings` | crates/atelia-core/src/settings.rs:220-232 | The in-place loop in depth order reaches the specified migration |
| `SettingsService.NewWithSettings` | crates/atelia-core/src/settings.rs:105-137 | The built service holds the migrated records, with a blank workspace record if there was none |
| `ArtifactIndex.SortKeepsRows` | crates/atelia-core/src/artifacts.rs:814-819 | Writing an index keeps exactly the rows given |
| `ArtifactIndex.SortSorts` | crates/atelia-core/src/artifacts.rs:814-819 | A written index is in order of creation time and id |
| `ArtifactIndex.SortLeavesSorted` | crates/atelia-core/src/artifacts.rs:814-819 | An index in order is written back unchanged |
| `ArtifactIndex.SectionActs` | crates/atelia-core/src/artifacts.rs:799-832 | Each critical section keeps ids distinct and changes the looked-up row of every id exactly as specified, whatever the sort does |
| `ArtifactIndex.TableDeterminesIndex` | crates/atelia-core/src/artifacts.rs:814-819 | Two written indexes with the same rows are the same sequence |
| `ArtifactRules.SectionsKeepOrder` | crates/atelia-core/src/artifacts.rs:814-819 | In every index a section writes, any two rows are in order of creation time and then of id, by prefix or first differing character |
| `ArtifactRules.AppendSays` | crates/atelia-core/src/artifacts.rs:331-336 | Appending adds the row and keeps every other |
| `ArtifactRules.SetBytesSays` | crates/atelia-core/src/artifacts.rs:1357-1395 | The byte counts that are given are set on the row of the id, and nothing else of any row changes |
| `ArtifactRules.DropSays` | crates/atelia-core/src/artifacts.rs:1397-1420 | Dropping takes the row of the id away and keeps every other |
| `ArtifactRules.ExpireSays` | crates/atelia-core/src/artifacts.rs:632-643 | Expiry stamps the live rows among its targets, and nothing else of any row changes |
| `ArtifactInterleaving.StepKeepsValid` | crates/atelia-core/src/artifacts.rs:285-345 | Every step of every process, failed or not, keeps lock ownership, the read snapshot, the file behind each live row and the ownership of ids |
| `ArtifactInterleaving.SectionsAreSerial` | crates/atelia-core/src/artifacts.rs:331-336 | For every interleaving sections exclude each other and the index is the written sections applied in lock order |
| `ArtifactInterleaving.NothingIsLost` | crates/atelia-core/src/artifacts.rs:1357-1420 | For every interleaving an id has a row if and only if it had one or was appended and was not dropped |
| `ArtifactInterleaving.LiveRowsHaveTheirBytes` | crates/atelia-core/src/artifacts.rs:303-336 | A live row is never visible without the exact bytes it was written with, unless its own writer is rolling it back |
| `ArtifactInterleaving.FilesLeaveSafely` | crates/atelia-core/src/artifacts.rs:629-676 | A step removes the file of a live row only if its own writer is rolling it back; an expiry step only ever deletes the file of a buried or absent row |
| `ArtifactInterleaving.AbandonedWriteLeavesOrphan` | crates/atelia-core/src/artifacts.rs:303-305 | A write given up right after placing its file ends with everybody idle, the index unchanged, and a file no row names |
| `ArtifactInterleaving.OrphansStayForever` | crates/atelia-core/src/artifacts.rs:303-345 | No run of the processes ever removes such a file |
| `ArtifactInterleaving.TombstonesAreForever` | crates/atelia-core/src/artifacts.rs:632-643 | Over any run a buried row keeps its tombstone or leaves the index, and never comes back |
| `ArtifactStore.UpdateFirst` | crates/atelia-core/src/artifacts.rs:1370-1383 | The loop updates the first row with the id and reports whether there was one |
| `ArtifactStore.LocalArtifactStore.SaveRows` | crates/atelia-core/src/artifacts.rs:799-832 | An index is replaced whole by the sorted rows, or not at all if the disk fails |
| `ArtifactStore.LocalArtifactStore.WriteBytes` | crates/atelia-core/src/artifacts.rs:285-345 | Success stores file and row; a failed write leaves the index alone, and the files if and only if the file was not abandoned and one of the two deletions worked |
| `ArtifactStore.LocalArtifactStore.UpdateRecordBytes` | crates/atelia-core/src/artifacts.rs:1357-1395 | Applies the section if and only if the disk works and the row exists, and otherwise changes nothing |
| `ArtifactStore.LocalArtifactStore.RemoveRecord` | crates/atelia-core/src/artifacts.rs:1397-1420 | Drops the row if and only if the disk works and the row exists, and otherwise changes nothing |
| `ArtifactStore.LocalArtifactStore.DeleteArtifact` | crates/atelia-core/src/artifacts.rs:833-888 | Removes that one file, or none if the disk fails |
| `ArtifactStore.LocalArtifactStore.RollBack` | crates/atelia-core/src/artifacts.rs:1329-1334 | Exactly the files whose deletion works and the rows that can be dropped are gone, and nothing else has changed |
| `ArtifactSpill.PlanSpillsOversized` | crates/atelia-core/src/artifacts.rs:1256-1309 | Applying the plan replaces exactly the oversized fields by references |
| `ArtifactSpill.SpillConservesBytes` | crates/atelia-core/src/artifacts.rs:1293-1320 | The bytes reported out and in account for the change of the result's size |
| `ArtifactSpill.SpilledResultFitsIff` | crates/atelia-core/src/artifacts.rs:1280-1309 | A spilled result is within a limit if and only if the kept fields and every replacement are |
| `ArtifactSpill.SpillCanOversize` | crates/atelia-core/src/artifacts.rs:1280-1309 | For every limit, a two-byte result within it that is over it once spilled to a path as long as the limit |
| `ArtifactSpill.RestoredIff` | crates/atelia-core/src/artifacts.rs:1329-1334 | After a failed spill files are back if and only if no file is left behind, and rows if and only if no row is |
| `ArtifactSpill.FailsIff` | crates/atelia-core/src/artifacts.rs:1256-1296 | A spill fails if and only if it is on and some oversized field is not written, indexed and updated |
| `ArtifactSpill.PlanIsExact` | crates/atelia-core/src/artifacts.rs:1256-1309 | The plan names every oversized field once, in field order, with its new artifact, and no other |
| `ArtifactSpill.SpilledTextRecovered` | crates/atelia-core/src/artifacts.rs:1280-1296 | Decoding the stored file of a spilled text gives the text back, and of a spilled list its lines |
| `ArtifactSpill.WriteAll` | crates/atelia-core/src/artifacts.rs:1256-1296 | Succeeds if and only if every oversized field's write and size update work, with exact totals; otherwise leaves exactly the specified leftovers of the first failure |
| `ArtifactSpill.SpillLargeFields` | crates/atelia-core/src/artifacts.rs:1236-1327 | All or nothing: each oversized text or list is stored as the UTF-8 encoding of it or of its joined lines under its new id, its field becomes `artifact_ref` and the path, references follow field order, truncation is merged, and every other file, row and field is as it was; on failure the result is unchanged, the files are back if and only if none was abandoned and every deletion due worked, and the rows if and only if every row due was dropped |
| `ArtifactExpiry.BuryTargets` | crates/atelia-core/src/artifacts.rs:632-660 | The loop buries exactly the live targets, counts them, and collects whose files go; DoomedIff says exactly which |
| `ArtifactExpiry.DoomedIff` | crates/atelia-core/src/artifacts.rs:644-655 | An id is collected if and only if some row is a target with that id and a deletable file, and each is collected once |
| `ArtifactExpiry.DoomedCount` | crates/atelia-core/src/artifacts.rs:644-655 | As many ids are collected as there are such targets |
| `ArtifactExpiry.ExpireTwice` | crates/atelia-core/src/artifacts.rs:637-643 | Expiring again leaves the index unchanged: the first tombstone stands |
| `ArtifactExpiry.DeleteFiles` | crates/atelia-core/src/artifacts.rs:665-675 | Files go in order until a deletion fails, and the deleted count is the number of files that are gone |
| `ArtifactExpiry.ExpireScope` | crates/atelia-core/src/artifacts.rs:625-676 | Whatever fails, a file is gone only if the written index has its row buried; on success the deletable file of every target is gone, every other file is as it was, and deleted and missing add up to the number of such targets |
| `ArtifactExpiry.ListIds` | crates/atelia-core/src/artifacts.rs:584-606 | The listing fails exactly if two scopes share an id, and otherwise finds the scope of every row |
| `ArtifactExpiry.SafeExpire` | crates/atelia-core/src/artifacts.rs:572-679 | Finished scopes have their targets buried and the others are untouched. A completed call stamped exactly the live targets of the listed scopes and left every other row, deleted exactly their deletable files and left every other file, and its report counts both over the rows as they were, with tombstoned <= matched <= requested |
| `Utf8.PrefixIsLongest` | crates/atelia-core/src/runtime.rs:1122-1164 | The cut prefix is within the budget, no longer prefix is, and a cut wastes at most three bytes |
| `Utf8.PrefixEndsAtBoundary` | crates/atelia-core/src/runtime.rs:1122-1133 | Prefixes end at character boundaries of the encoding |
| `Utf8.BoundaryEndsPrefix` | crates/atelia-core/src/runtime.rs:1122-1133 | Character boundaries of the encoding are ends of prefixes |
| `Utf8.TruncateStringValue` | crates/atelia-core/src/runtime.rs:1122-1133 | Backing up from the byte limit to a boundary gives the longest prefix that fits |
| `Utf8.ForwardCut` | crates/atelia-core/src/runtime.rs:1152-1164 | Walking forward over the characters finds the same cut |
| `Utf8.EncodingRoundTrip` | crates/atelia-core/src/artifacts.rs:1280-1296 | Decoding the UTF-8 bytes of a text gives the text back |
| `Utf8.EncodingIsInjective` | crates/atelia-core/src/artifacts.rs:1280-1296 | Different texts have different bytes |
| `ToolResults.StringListByteLen` | crates/atelia-core/src/runtime.rs:1192-1201 | The one-pass measure is the length of the joined lines, saturated |
| `ToolResults.RendererMeasureAgrees` | crates/atelia-core/src/tool_output.rs:539-560 | The renderer's measure of a list is the length of the joined lines |
| `ToolResults.SummedByteLen` | crates/atelia-core/src/tool_output.rs:539-560 | The renderer's sum, computed over the lines, is the length of the joined lines |
| `ToolResults.OversizedIff` | crates/atelia-core/src/runtime.rs:1176-1201 | A field is oversized if and only if it is a text, or a list joined by newlines, whose bytes exceed the limit |
| `ToolResults.LinesOfJoin` | crates/atelia-core/src/artifacts.rs:1280-1296 | Joined lines can be taken apart again |
| `ToolResults.MergeSays` | crates/atelia-core/src/artifacts.rs:1429-1449 | Merging into existing metadata adds both byte counts, saturating, and appends the reason |
| `Truncation.TruncateStringListRuntime` | crates/atelia-core/src/runtime.rs:1135-1174 | The loop keeps the specified lines and reports exactly their joined length, within the budget |
| `Truncation.TruncateStringListRender` | crates/atelia-core/src/tool_output.rs:575-604 | The renderer's loop keeps the specified lines and reports exactly their joined length, within the budget |
| `Truncation.RuntimeKeepsPrefix` | crates/atelia-core/src/runtime.rs:1135-1174 | What the runtime keeps, joined, is a prefix of the original joined |
| `Truncation.RuntimeWastesLittle` | crates/atelia-core/src/runtime.rs:1135-1174 | If anything is dropped, the budget is used up to one character and one separator |
| `Truncation.TruncatorsAgreeIff` | crates/atelia-core/src/tool_output.rs:575-604 | The two truncators keep the same lines if and only if no line before the cut is empty and none after it could still start |
| `Truncation.AsciiListsAgree` | crates/atelia-core/src/tool_output.rs:575-604 | On non-empty ASCII lines the truncators always agree |
| `FieldBudget.BytesConserved` | crates/atelia-core/src/runtime.rs:1054-1100 | The bytes reported as removed are the bytes that are gone |
| `FieldBudget.RuntimePassLeavesNothingOver` | crates/atelia-core/src/runtime.rs:1054-1100 | After the runtime's pass no field is over the budget by the renderer's measure |
| `FieldBudget.RuntimeBytesConserved` | crates/atelia-core/src/runtime.rs:1054-1100 | The runtime's report accounts for every byte it removed |
| `FieldBudget.CutSays` | crates/atelia-core/src/runtime.rs:1054-1100 | An oversized text becomes its longest part that fits; an oversized list becomes lines whose joined text is a part of the original from its start that fits and wastes at most four bytes; keys stay |
| `FieldBudget.MeasureRuntime` | crates/atelia-core/src/runtime.rs:1176-1201 | The runtime's own measure reports a field exactly if it is over budget, with its size, saturated |
| `FieldBudget.MeasureRender` | crates/atelia-core/src/tool_output.rs:539-560 | The renderer's own measure reports a field exactly if it is over budget, with its size |
| `FieldBudget.RejectsOversized` | crates/atelia-core/src/runtime.rs:1018-1045 | The rejection check finds something exactly if some field is over budget |
| `FieldBudget.TruncateOversizedFields` | crates/atelia-core/src/runtime.rs:1054-1100 | The in-place pass cuts exactly the oversized fields and reports their totals |
| `FieldBudget.ApplyRenderByteBudget` | crates/atelia-core/src/tool_output.rs:442-530 | The in-place pass accepts, rejects or cuts as specified and merges the truncation |
| `FieldBudget.TruncateThenRender` | crates/atelia-core/src/runtime.rs:703-716 | After the runtime's pass the renderer's pass changes nothing, so truncation is counted once |
| `RenderSelection.ShownWithinLimit` | crates/atelia-core/src/tool_output.rs:409-418 | If the field limit does not bite, exactly the fields whose channel is on are shown |
| `RenderSelection.OverLimitIff` | crates/atelia-core/src/tool_output.rs:409-440 | The byte budget is exceeded if and only if a shown field exceeds it |
| `RenderSelection.Render` | crates/atelia-core/src/tool_output.rs:409-530 | Rendering is refused exactly if oversized output is rejected and a shown field is oversized; otherwise it yields the shown fields, cut and accounted for if any is oversized |
| `RenderRules.OptionsInForce` | crates/atelia-core/src/settings.rs:417-440 | Which channels are on, from the verbosity and what was asked |
| `RenderRules.ShownInOrder` | crates/atelia-core/src/tool_output.rs:606-608 | Under a field limit summaries come first and otherwise fields keep their order |
| `RenderRules.LeftOutIff` | crates/atelia-core/src/tool_output.rs:409-418 | A wanted field is left out if and only if the limit is used up by wanted fields that go ahead of it |
| `RenderRules.NormalizeSays` | crates/atelia-core/src/tool_output.rs:740-744 | Keys are compared trimmed, in lower case, with hyphens, dots and spaces as underscores |
| `RenderRules.ChannelIff` | crates/atelia-core/src/tool_output.rs:740-771 | Which names, prefixes and suffixes put a key in the policy, diagnostics or cost channel, in that order |
| `ToonValue.IntegerRoundTrip` | crates/atelia-core/src/tool_output.rs:995-1011 | Every 64-bit integer is read back from its text |
| `ToonValue.QuoteString` | crates/atelia-core/src/tool_output.rs:1069-1091 | The buffer loop builds the specified quoted text |
| `ToonValue.ValueRoundTrip` | crates/atelia-core/src/tool_output.rs:995-1091 | Decoding a printed value gives it back, for every value and every notion of float-like text; how it is printed is stated by ValueSays and BareIff |
| `ToonRules.BareIff` | crates/atelia-core/src/tool_output.rs:1046-1067 | Text is printed as it is if and only if it is not empty, not null, true or false, not a 64-bit integer, not float-like, and holds no control, whitespace or delimiter character; otherwise it is put in quotes |
| `ToonRules.ParsesIff` | crates/atelia-core/src/tool_output.rs:1054-1058 | Text reads as an integer if and only if it is an optional sign and digits whose positional value fits in 64 bits |
| `ToonRules.EscapeSays` | crates/atelia-core/src/tool_output.rs:1069-1091 | How each character is written between quotes: five named escapes, lower-case hexadecimal without a leading zero for other control characters, and itself otherwise |
| `ToonRules.EscapeInOrder` | crates/atelia-core/src/tool_output.rs:1069-1091 | Quoted text is its characters in order, each written on its own |
| `ToonRules.DecimalSays` | crates/atelia-core/src/tool_output.rs:995-1011 | Numerals have the right positional value and no leading zero |
| `ToonRules.ValueSays` | crates/atelia-core/src/tool_output.rs:995-1011 | How each kind of value is printed |
| `ToonRules.ListGrows` | crates/atelia-core/src/tool_output.rs:1001-1009 | Each further item of a list adds a comma and the item |
| `ToonValue.RenderingIsInjective` | crates/atelia-core/src/tool_output.rs:995-1091 | Distinct values never print alike |
| `ToonValue.FieldsRoundTrip` | crates/atelia-core/src/tool_output.rs:809-825 | The printed fields section determines every key and every typed value |
| `ToonRender.AdmittedFits` | crates/atelia-core/src/tool_output.rs:776-807 | Admitted lines are the leading ones, they fit, and they are all of them exactly if all fit |
| `ToonRender.AdmitSections` | crates/atelia-core/src/tool_output.rs:173-274 | The loop appends whole sections while they fit and stops at the first that is not empty and does not |
| `ToonRender.LayOut` | crates/atelia-core/src/tool_output.rs:173-274 | Everything if it fits; otherwise the prelude cut to leave one line, or the whole sections before the first that does not fit; the notice names what was cut, on two lines if two are spare, and takes the last kept line only if none is |
| `ToonRender.RenderToon` | crates/atelia-core/src/tool_output.rs:173-274 | The body has at most max(1, budget) lines, is complete whenever everything fits, and otherwise is exactly the cut and the notice of LayOut |
| `ToonRender.OmittedCounts` | crates/atelia-core/src/tool_output.rs:937-967 | The counts in the notice: all entries of every part that is left out, and none of the others |
| `ToonLossless.PrintedResultsDiffer` | crates/atelia-core/src/tool_output.rs:173-274 | Two results printed in full with the same text are equal: status, version, ids, schema, every field, reference, truncation and redaction can be read off the text |
| `JobLifecycle.TransitionKeepsTimes` | crates/atelia-core/src/domain.rs:402-445 | A transition succeeds if and only if the table allows it and time does not run backwards, and keeps the timestamps in order |
| `JobLifecycle.LifecycleHolds` | crates/atelia-core/src/domain.rs:272-297 | Over any attempted transitions created <= started <= completed <= updated, completed exactly if terminal, and a terminal status with its times never changes |
| `JobLifecycle.JobRecord.TransitionStatus` | crates/atelia-core/src/domain.rs:402-445 | The in-place update is the specified transition, or no change |
| `JobRules.MovesIff` | crates/atelia-core/src/domain.rs:272-297 | A queued job may go anywhere but to success, a running one anywhere but back, an ended one nowhere |
| `JobRules.TransitionSays` | crates/atelia-core/src/domain.rs:402-445 | When a change goes through, that it stamps the first start and the first end, and that it touches nothing else |
| `JobRules.StoreAcceptsIff` | crates/atelia-core/src/store.rs:3600-3850 | The store accepts an update if and only if it builds on the newest event and changes status, times, cancellation and policy summary only as the event allows |
| `JobRules.StaleUpdateRefused` | crates/atelia-core/src/store.rs:3626-3680 | Of two updates built on the same record the store takes one |
| `JobStore.UpdateKeepsAgreement` | crates/atelia-core/src/store.rs:3749-3826 | Every accepted update keeps the stored status equal to what the event log adds up to |
| `JobStore.OneEnding` | crates/atelia-core/src/store.rs:3749-3826 | A log that adds up has one terminal change if its status is terminal and none otherwise |
| `JobStore.JobStore.CreateJob` | crates/atelia-core/src/store.rs:714-747 | Stores record and first event together or neither |
| `JobStore.JobStore.Append` | crates/atelia-core/src/store.rs:847-862 | Refuses exactly stale or illegal updates; otherwise stores record and event together or neither |
| `JobStore.JobStore.RecordResult` | crates/atelia-core/src/store.rs:1516-1650 | Stores result, audit and final change together or none, and the receipt only with them |
| `JobStore.JobStore.MaybeCancel` | crates/atelia-core/src/runtime.rs:918-973 | A cancellation by another client appends its two events to a job that can still be canceled, and stamps exactly status, request, end and update time |
| `JobRun.AppendFailed` | crates/atelia-core/src/runtime.rs:1210-1236 | Marks a job failed; a record based on an event that was never stored is refused and the job stays running |
| `JobScript.FirstRenderingWorks` | crates/atelia-core/src/runtime.rs:591-625 | A result that passes the size check always renders |
| `JobScript.StrandsIff` | crates/atelia-core/src/runtime.rs:591-787 | A run is stranded if and only if oversized output is rejected, no field is over the limit, and an explicit spill whose writes work turns a shown field over the spill's limit into a reference over the renderer's |
| `JobScript.StrandedRunExists` | crates/atelia-core/src/runtime.rs:633-657 | Settings in range, a two-byte result and a spill to a path of 256 characters are such a case |
| `JobRun.Adjust` | crates/atelia-core/src/runtime.rs:630-717 | The size-limiting step fails exactly if its spill does (SpillFailsIff), and otherwise leaves the recorded fields (RecordedSays) with the spilled content kept as UTF-8 |
| `JobRules.SpillAskedIff` | crates/atelia-core/src/runtime.rs:633-672 | Which spill is due: the explicit one, or by the settings one at their own limit |
| `JobRules.SpillFailsIff` | crates/atelia-core/src/runtime.rs:633-717 | The spill fails if and only if some field over its limit is not written, indexed and updated |
| `JobRules.RewritesIff` | crates/atelia-core/src/runtime.rs:630-717 | A result is rewritten if and only if some field of it is due for a spill or a cut |
| `JobRules.RecordedSays` | crates/atelia-core/src/runtime.rs:630-717 | Each recorded field is as it was, replaced by its artifact reference, or cut to the longest part that fits |
| `JobRun.RunToolJob` | crates/atelia-core/src/runtime.rs:398-834 | With failures and cancellations anywhere: the stored log is legal; the tool runs at most once, only if the decision is to allow or to audit, and only after the stored decision and invocation; the finalizer is called at most once and only on success; a receipt equals the store. Undisturbed, the run ends as EndsAs tabulates: a decision that needs approval or blocks leaves a blocked job, no execution and no invocation; a result turned away leaves a failed job; and otherwise the job ends with the tool's status and the recorded fields, unless the spill overflows |
| `JobRun.UndisturbedExit` | crates/atelia-core/src/runtime.rs:398-834 | Status, log, fields and executions of a run that nothing disturbs, for each policy outcome and each tool status |
| `JobRun.TurnedAwayIff` | crates/atelia-core/src/runtime.rs:591-717 | A result is turned away if and only if it is invalid, an oversized field is rejected, or the spill fails |
| `JobRun.LogAddsUp` | crates/atelia-core/src/runtime.rs:398-834 | Every legal log prefix adds up to the status the run has reached |
| `JobRun.RunsEndOnce` | crates/atelia-core/src/runtime.rs:398-834 | A run ends the job exactly once if it is complete and not stranded, otherwise not at all |
| `JobRun.CanceledRunsEndOnce` | crates/atelia-core/src/runtime.rs:918-973 | A canceled run was canceled from the status it had reached, before its end, and ends once, as canceled |
| `JobRun.StrandedExit` | crates/atelia-core/src/runtime.rs:749-787 | An undisturbed stranded run exits with an error and leaves the job running with no further event |
| `JobRun.RunStranded` | crates/atelia-core/src/runtime.rs:749-787 | Running the concrete stranded case leaves the job running |

## Left out

- Character-level manifest checks (reverse-DNS ids, semver, digests, permission names, trimming) are function parameters, because only trimming's idempotence matters to the theorems.
- Tool, hook, webhook, tool-output, composition and migration declarations of a manifest are one opaque check, because they are independent single-field tests.
- Error values are kinds, not messages.
- Registry status listings and audit windows are plain reads.
- `new_with_defaults` and serialization of settings: short field copies.
- Artifact path canonicalization, symlink checks, permissions, lock calls and temporary names are operating-system behaviour: the lock is exclusive and a rename is atomic.
- Looking artifacts up by context, the path validators (a parameter of expiry) and the retention cutoff: single-branch filters.
- Scope names stored inside rows and the errors when they disagree with the directory: the model keys rows by scope.
- ExpireScope: sequential; concurrent expiry is covered by the interleaving machine, which does not model the report.
- WriteBytes: ids are taken to be new, as generated ids are; partially written temporary files are not modelled.
- TruncateOversizedFields: needs a limit below the largest machine word, or lengths that fit one, because the source's lengths saturate there.
- SpillLargeFields: byte totals are unbounded sums, where the source adds 64-bit counters.
- RenderToon: ids, which the source prints raw, are taken to hold no line break, because they are generated.
- Render: the reference and redaction lists that a summary leaves out are not modelled.
- PrintedResultsDiffer: ids are taken to hold no line break, and those of references no comma or bracket, because they are generated.
- Text and JSON rendering: they apply the same selection and byte budget; encoding a result as JSON is taken not to fail.
- `policy.rs` is a finite table; a run only needs its outcome.
- RunToolJob: the store is one job's view of it, event references and ids are not checked, a refused idempotency record counts as a disk failure, and cancellation happens between the run's store calls, where alone the run can notice it.
- The rest of `store.rs`, lock and migration-lock records, and the daemon in `ateliad`: not part of this model.
