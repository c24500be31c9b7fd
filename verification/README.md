# Verified models of state-rewriting code

These Dafny modules model the parts of the backend that rewrite or publish state and must keep its meaning:
data migrations, the Enterprise bundle installer and its two checksum verifiers, the revision-id repair that
runs before migrations, the lazily created object-store client, the crawl and ingest scheduler, and the CORS
defaults. What each of them promises is proved for every input, every run or every interleaving.

Check everything with `dafny verify dfyconfig.toml`.

| file | models |
|---|---|
| `UserGroupBackfill.dfy` | per-user project grants turned into user groups |
| `BundleChecksums.dfy`, `BundleInstall.dfy` | checksum files, bundle installation step by step |
| `ArchiveExtraction.dfy`, `BundleArchive.dfy` | archive guard and extraction, installing from an archive |
| `RevisionRemap.dfy` | moving version rows to renamed migration ids |
| `BlobClient.dfy` | double-checked initialisation by any number of threads |
| `Priority.dfy`, `ProviderSeeding.dfy`, `OrgBranding.dfy` | first-wins backfills from ordered query results |
| `Memberships.dfy` | organization memberships and owner grants |
| `CrawlSchedule.dfy`, `FolderIngest.dfy` | due times, runs of ticks, folder scans |
| `Regex.dfy`, `CorsOrigins.dfy`, `OriginPattern.dfy` | default origins, and the pattern for configured hosts on any port |
| `Text.dfy` | Python strings and ordering |

Code that changes rows, files or lists is written as methods of a class, or as loops, and is proved against a
specification; the theorems are lemmas about that specification. What the database, the disk and the network
answer comes in as a parameter, restricted only by what a query or a constraint guarantees.

## Where code and expectation part

The model follows the code. Each of these is stated as an exact condition or with a concrete input:

- Installing a bundle is crash-safe exactly when its version is not the one ACTIVE names
  (`BundleInstall.CrashSafe`; one corner case is spelled out there). A crash is always repaired by repeating the
  installation (`RecoveryCompletes`).
- A bundle that verifies at installation fails at boot exactly when it has a payload file outside the four
  copied names (`InstalledCopyVerifies`).
- No checksum file verifies a tree with a file whose path starts or ends with a blank or holds a line break
  (`VerifiableExactly`, `BlankNameNeverVerifies`).
- The comment "already a bundle root" in the extractor promises flat archives. A flat bundle is recognised
  exactly when `modules` is not its only top directory (`FlatIsRecognised`).
- The guard accepts some absolute names for which the tar filter then raises, after earlier members are written:
  exactly those that climb without coming back the same way (`FilterRaisesOn`).
- The announced next crawl drops fractions of a second, so it is right at every instant exactly when the last
  crawl stopped on a whole second; and a ONCE source never crawled is announced as never although it is due
  (`AnnouncementIsRight`, `OnceIsMisannounced`).
- A crawl that has not stamped by the next tick is started again there (`RepeatsUntilStamped`).
- The folder ingest swallows a failing project lookup. A crawl export is then ingested without its project,
  counts as processed and is not attempted again before the process restarts (`ScopeIsOwn`, `SuccessIsFinal`,
  `ExportGoesUnscoped`, `LostExport`); after a restart every file that is still there is attempted again, ingested
  before or not (`RestartForgets`). If not even the session opens, a file goes into the project left over from an
  earlier file (`StaleScope`).
- The start-up branding backfill and the migration agree exactly when, for each missing field, all rows that
  lead in one of the two orders have one value (`AgreeExactly`). Missing times and ties can separate them
  (`MissingTimeSeparates`, `TieSeparates`).
- The membership upgrade aborts exactly when organization 1 is missing and another organization has the slug
  `default`: the slug column is unique (backend/app/models.py:1656). What it promises cannot be reached then
  (`AbortIsForced`, `SlugCanBeTaken`).
- The origin pattern is made from the scheme as it is and from the host name without brackets, and escapes
  nothing but dots in the host. It accepts exactly the configured origins with an optional port if and only if
  no scheme holds a dot or a plus, no host is an address in brackets, and no host holds a star or a plus
  (`ExactlyWhenPlain`). In place of a star it admits repetitions of the character before it and nothing else
  (`WildAdmits`), so an entry that starts with a star admits no subdomain at all (`SubdomainRefused`).

## Model

| member | source | states |
|---|---|---|
| `UserGroupBackfill.Database.BackfillMemberGrants` | backend/alembic/versions/d5e6f7a8b9c0_user_groups_and_grants.py:176-251 | From any tables that satisfy their constraints the migration ends in `Migrated`: the old tables plus one group per cluster, with sorted members, the cluster's grants and fresh keys, minus exactly the rows of member-role users; each group named by its number in its organization, or by the least free one. |
| `UserGroupBackfill.AccessPreserved` | backend/alembic/versions/d5e6f7a8b9c0_user_groups_and_grants.py:191-251 | For every user, organization and project, group access afterwards is group access before plus the canonicalised direct grant; nobody gains anything elsewhere. |
| `UserGroupBackfill.MemberRowBecomesAccess` | backend/alembic/versions/d5e6f7a8b9c0_user_groups_and_grants.py:28-38 | Spelled out for one row of a user with the role "member": the row goes, and the user's group access on the project is what it was plus the rewrite of the list in the row, decoded by the driver or parsed from text, or of the empty list. |
| `UserGroupBackfill.OtherRolesKeepRows` | backend/alembic/versions/d5e6f7a8b9c0_user_groups_and_grants.py:176-196 | A row of a user with any other role, or on a project without an organization, stays, and that user's group access there does not change. |
| `UserGroupBackfill.NoRowNoChange` | backend/alembic/versions/d5e6f7a8b9c0_user_groups_and_grants.py:191-251 | Without a row on a project group access there does not change. |
| `UserGroupBackfill.OtherRowsUntouched` | backend/alembic/versions/d5e6f7a8b9c0_user_groups_and_grants.py:192-202 | The remaining rows are exactly those that belong to no member-role user; when there is no other row nothing is deleted. |
| `UserGroupBackfill.ClusteringIsExact` | backend/alembic/versions/d5e6f7a8b9c0_user_groups_and_grants.py:198-206 | Two members of an organization share a created group if and only if their grant maps are equal. |
| `UserGroupBackfill.GroupGrantsAreTheMap` | backend/alembic/versions/d5e6f7a8b9c0_user_groups_and_grants.py:206-248 | A created group holds exactly the grant map of each of its members, although the assignment kept for a fingerprint is overwritten. |
| `UserGroupBackfill.GroupCount` | backend/alembic/versions/d5e6f7a8b9c0_user_groups_and_grants.py:213-236 | An organization gets as many groups as its members have distinct grant maps. |
| `UserGroupBackfill.PrintsAgreeExactly` | backend/alembic/versions/d5e6f7a8b9c0_user_groups_and_grants.py:41-42 | Fingerprints agree if and only if the grant maps do, whatever order the rows arrive in. |
| `UserGroupBackfill.SortedListingUnique` | backend/alembic/versions/d5e6f7a8b9c0_user_groups_and_grants.py:41-42 | Two listings of a map sorted by project are the same list. |
| `UserGroupBackfill.CollectRows` | backend/alembic/versions/d5e6f7a8b9c0_user_groups_and_grants.py:191-196 | Collects, for exactly the member-role users with a grant, all their rows in arrival order. |
| `UserGroupBackfill.ClusterUsers` | backend/alembic/versions/d5e6f7a8b9c0_user_groups_and_grants.py:198-206 | Each user sits in the one cluster of its fingerprint, and the ids to delete are those of the collected rows. |
| `UserGroupBackfill.FreshName` | backend/alembic/versions/d5e6f7a8b9c0_user_groups_and_grants.py:217-223 | The search ends, with a name whose key is free: that of the preferred number, or of the least free number from 2 on. |
| `UserGroupBackfill.UntriedShrinks` | backend/alembic/versions/d5e6f7a8b9c0_user_groups_and_grants.py:220-223 | Each failed try uses up one occupied key, so the search over any finite set stops. |
| `UserGroupBackfill.NameForInjective` | backend/alembic/versions/d5e6f7a8b9c0_user_groups_and_grants.py:217-222 | Different numbers give different keys. |
| `UserGroupBackfill.NamesAre` | backend/alembic/versions/d5e6f7a8b9c0_user_groups_and_grants.py:210-223 | Every new group is called "Migrated access", alone or with a number from 2 on, and alone if it is the first of its organization and the name is free. |
| `UserGroupBackfill.ConstraintsHold` | backend/alembic/versions/d5e6f7a8b9c0_user_groups_and_grants.py:213-251 | Every unique constraint and foreign key holds afterwards, the (organization, name key) pairs included. |
| `UserGroupBackfill.SecondRunChangesNothing` | backend/alembic/versions/d5e6f7a8b9c0_user_groups_and_grants.py:191-251 | A second run creates no group and changes no table. |
| `UserGroupBackfill.Database.InsertGrants` | backend/alembic/versions/d5e6f7a8b9c0_user_groups_and_grants.py:237-248 | Writes the first assignment of each project and nothing else. |
| `UserGroupBackfill.FirstPerProjectKeepsAll` | backend/alembic/versions/d5e6f7a8b9c0_user_groups_and_grants.py:237-241 | With one row per project and user the `seen_projects` filter drops nothing. |
| `BundleChecksums.ReadChecksums` | backend/app/platform/bundle_checksums.py:30-40 | The loop computes the parsed map, or raises on a malformed line. |
| `BundleChecksums.LineEndsAt` | backend/app/platform/bundle_checksums.py:31 | Lines end at a line feed, a carriage return, both together, and the other characters at which Python ends lines. |
| `BundleChecksums.PayloadIs` | backend/app/platform/bundle_checksums.py:17-27 | Every file counts but the checksum file and the signature at the top. |
| `BundleChecksums.ParseMeaning` | backend/app/platform/bundle_checksums.py:31-40 | Reading succeeds if and only if no line is malformed, and the last line that names a path decides its digest. |
| `BundleChecksums.NothingToReport` | backend/app/platform/bundle_checksums.py:48-61 | There is no error if and only if the payload's path-to-digest map equals the parsed map. |
| `BundleChecksums.Compare` | backend/app/platform/bundle_checksums.py:48-61 | The errors listed are exactly the unexpected, mismatching and missing paths. |
| `BundleChecksums.VerifyChecksums` | backend/app/platform/bundle_checksums.py:43-61 | No checksum file, a malformed one and an empty error list each occur exactly when they should; an empty list means the tree is `Verified`. |
| `BundleChecksums.VerifyInstalledTree` | backend/app/platform/bundle_integrity.py:16-66 | Passes exactly the trees `VerifyChecksums` passes. |
| `BundleChecksums.PosixInjective` | backend/app/platform/bundle_checksums.py:51 | Two paths never share a posix name. |
| `BundleChecksums.ReadPathsAreListable` | backend/app/platform/bundle_checksums.py:32-39 | A path read from a checksum file has no blank at either end and no line break. |
| `BundleChecksums.WrittenLineReads` | backend/app/platform/bundle_checksums.py:33-39 | A digest, two blanks and a listable path read back as that entry. |
| `BundleChecksums.VerifiableExactly` | backend/app/platform/bundle_checksums.py:17-61 | A checksum file that makes a tree verify exists if and only if every payload path is listable. |
| `BundleChecksums.BlankNameNeverVerifies` | backend/app/platform/bundle_checksums.py:33-39 | A concrete tree, with one file name that starts with a blank, that no checksum text and no digest function verifies. |
| `BundleInstall.InstalledCopyVerifies` | backend/app/platform/bundle_install.py:133-139 | For a verified source the installed copy passes the boot check if and only if every payload path is under one of the four copied names. |
| `BundleInstall.Store.Install` | backend/app/platform/bundle_install.py:79-146 | Either refused with nothing changed, or installed and active; installed if and only if licence, checksums, signature, version, platform range (unless blank or skipped), `modules` and the target allow it, each spelled out. Every step leaves the loader with the old tree or the complete new one if and only if `CrashSafe` held before, and leaves a disk from which the installation can be repeated. |
| `BundleInstall.Store.Check` | backend/app/platform/bundle_install.py:98-130 | Accepts exactly the admitted requests, and gives the manifest's version. |
| `BundleInstall.AdmittedExactly` | backend/app/platform/bundle_install.py:98-130 | What admission means for a bundle whose manifest reads, condition by condition. |
| `BundleInstall.UnreadableIsRefused` | backend/app/platform/bundle_install.py:98-115 | Without a bundle or a manifest that reads nothing is admitted. |
| `BundleInstall.AfterInstallIs` | backend/app/platform/bundle_install.py:128-146 | The disk after an install path by path: ACTIVE and marker, the version's directory, and what is beside it, with the other versions replaced or kept. |
| `BundleInstall.ImageIs` | backend/app/platform/bundle_install.py:132-139 | Exactly four names are copied, with everything below them. |
| `BundleInstall.LoadedExactly` | backend/app/platform/bundle_install.py:183-201 | The loader finds exactly the stripped version in ACTIVE, if it is not blank and has a `modules` directory. |
| `BundleInstall.Store.CopyAll` | backend/app/platform/bundle_install.py:132-139 | Copies exactly the four names; before the step at which `modules` appears nothing under it exists. |
| `BundleInstall.Store.RmTree` | backend/app/platform/bundle_install.py:129-130 | Removes exactly one version's entries, step by step, without touching another version. |
| `BundleInstall.Store.SetActive` | backend/app/platform/bundle_install.py:168-180 | Refuses a version without modules and changes nothing; otherwise writes ACTIVE and then the marker, as two steps. |
| `BundleInstall.Store.Prune` | backend/app/platform/bundle_install.py:149-165 | For any name, removes every other version and lists the removed ones sorted; a blank name does nothing. If the name is the active one the loader sees what it saw at every step; otherwise nothing can be loaded afterwards. |
| `BundleInstall.CrashPoints` | backend/app/platform/bundle_install.py:128-139 | Over the removal and the copy, every crash point is harmless if and only if `CrashSafe` holds. |
| `BundleInstall.RecoveryCompletes` | backend/app/platform/bundle_install.py:98-146 | From what a crash after any step leaves, the same request is admitted again, and repeating it ends in exactly the disk that the uninterrupted installation leaves. |
| `BundleInstall.GoneIsNoticed` | backend/app/platform/bundle_install.py:129-130 | Removing the loaded version takes away what was loaded. |
| `BundleInstall.TurnLoads` | backend/app/platform/bundle_install.py:133-139 | If ACTIVE already names the version, the step that makes `modules` publishes a partial tree unless `modules` is empty. |
| `BundleInstall.LoadedIgnoresOthers` | backend/app/platform/bundle_install.py:191-201 | Steps inside one version's directory are invisible to the loader of another. |
| `BundleInstall.InstallCoherent` | backend/app/platform/bundle_install.py:128-146 | After an install ACTIVE names the new version with modules, and after a replacing one it is the only version. |
| `BundleInstall.PruningKeeps` | backend/app/platform/bundle_install.py:149-165 | Pruning keeps ACTIVE and leaves exactly the kept version. |
| `BundleInstall.HistoryCoherent` | backend/app/platform/bundle_install.py:98-180 | Over any sequence of calls ACTIVE is unset or names an installed version with modules, and the marker equals it. |
| `ArchiveExtraction.AcceptedExactly` | backend/app/platform/bundle_install.py:38-47 | A relative name is accepted if and only if what it climbs it comes back down; an absolute one if and only if it leads into the destination. |
| `ArchiveExtraction.WalkIsStraight` | backend/app/platform/bundle_install.py:42 | Lexical resolution of any name is so many steps up, then a path down. |
| `ArchiveExtraction.Disk.Extract` | backend/app/platform/bundle_install.py:50-58 | One unsafe name and nothing is written; otherwise files and directories are written in order up to the end or the first one that raises, with the filter of newer Python versions or without. Into a fresh destination it gets to the end if and only if the list is accepted and compatible. Nothing outside the destination is touched in any case. |
| `ArchiveExtraction.EndsExactly` | backend/app/platform/bundle_install.py:50-58 | Compatible means, whatever the order: every name passes the filter, no plain file stands above the place of another member or of the destination, and no two members of different kind have one place. |
| `ArchiveExtraction.PackedComesOut` | backend/app/platform/bundle_install.py:50-58 | A tree packed in any order, with or without entries for directories, comes out of a fresh destination as it went in: the same paths, the same contents. |
| `ArchiveExtraction.LastMemberWins` | backend/app/platform/bundle_install.py:53-58 | Of members that go to the same path the last one is kept. |
| `ArchiveExtraction.OthersAsBefore` | backend/app/platform/bundle_install.py:53-58 | A path that no member goes to is as it was, or is a directory made above a member. |
| `ArchiveExtraction.WrittenIsRooted` | backend/app/platform/bundle_install.py:53-58 | Extraction leaves a directory tree, even when it stops half-way. |
| `ArchiveExtraction.FilterRaisesOn` | backend/app/platform/bundle_install.py:54-58 | The filter raises on an accepted name if and only if the name is absolute and climbs above levels of the destination that it does not come back through. |
| `ArchiveExtraction.AcceptedYetRaises` | backend/app/platform/bundle_install.py:42-56 | Such names exist for every destination with two different levels. |
| `BundleArchive.InstallArchive` | backend/app/platform/bundle_install.py:50-146 | A version is installed from an archive if and only if extraction ends and the tree it resolves to is admitted; a refusal leaves the installed state alone, and nothing is written outside the two places. |
| `BundleArchive.PackedBundleComesOut` | backend/app/platform/bundle_install.py:50-66 | Round trip: a tree with one top directory, its members packed in any order, unpacks and resolves to the bundle below that directory. |
| `BundleArchive.LayoutExactly` | backend/app/platform/bundle_install.py:59-66 | The only directory at the top is the bundle; without one the tree itself if its manifest is a file; anything else is refused. |
| `BundleArchive.WrappedIsPackable` | backend/app/platform/bundle_install.py:59-62 | Every bundle of ordinary names below a top directory of any ordinary name is such a tree. |
| `BundleArchive.WrappedIsRecognised` | backend/app/platform/bundle_install.py:59-62 | A bundle packed below one top directory of any name comes out as it was packed. |
| `BundleArchive.FlatIsRecognised` | backend/app/platform/bundle_install.py:59-66 | A flat bundle with a manifest and `modules` comes out as it was packed if and only if `modules` is not its only top directory. |
| `BundleArchive.ModulesTakenForBundle` | backend/app/platform/bundle_install.py:59-126 | Otherwise the tree below `modules` is taken for the bundle, and is admitted only if it holds a verified bundle with a checksum file, a manifest and `modules` of its own. |
| `RevisionRemap.Database.Remap` | backend/app/alembic_revision_remap.py:37-60 | With `alembic_version`, an old id, the old chain's column and not the upstream chain's, the rows become exactly the renamed rows, with the moved pairs in order and no duplicate at any step; elsewhere nothing changes. |
| `RevisionRemap.Database.Update` | backend/app/alembic_revision_remap.py:55-58 | An update is issued only when the new id is not there, so the primary key holds. |
| `RevisionRemap.AppliedPreserved` | backend/app/alembic_revision_remap.py:43-60 | For any revision graph and any sound renaming the rewritten rows stand for exactly the renamed migrations that were applied, and for none of the reused ids. |
| `RevisionRemap.RemapSettles` | backend/app/alembic_revision_remap.py:43-60 | A second run moves nothing, and a run changes the rows if and only if one of them is an old id. |
| `RevisionRemap.PartlyNext` | backend/app/alembic_revision_remap.py:50-59 | Testing the snapshot instead of the table is right: no step of the loop adds or removes an id a later step asks for. |
| `RevisionRemap.RenamedIsSound` | backend/app/alembic_revision_remap.py:19-26 | The shipped renaming is injective and its old and new ids never meet. |
| `RevisionRemap.RepositoryRenames` | backend/alembic/versions/a1c0e5b7d2f4_org_member_workspace_permissions.py:15-16 | The shipped renaming and the two chains satisfy every hypothesis of `AppliedPreserved`, whatever history the chains stand on and whatever the new history holds besides. |
| `RevisionRemap.UpstreamDatabaseUntouched` | backend/app/alembic_revision_remap.py:7-9 | In any history in which the reused ids are above the marker's migration, a database stamped with one of them that has run it is left alone. |
| `RevisionRemap.ReusedAboveMarker` | backend/alembic/versions/u1v2w3x4y5z6_add_api_version_to_project_model_providers.py:15-16 | In any history that holds the repository's migrations above at least the parents they have there, every reused id is above t0u1v2w3x4y5. |
| `RevisionRemap.RepositoryUntouched` | backend/app/alembic_revision_remap.py:7-9 | So the gate never fires on a database of this repository that is stamped with a reused id and has run what is below it. |
| `RevisionRemap.RepairOldChain` | backend/app/alembic_revision_remap.py:37-60 | The repair does fire where it should: a database stamped with an old id in the old history moves, and in any new history its rows then stand for exactly the renamed migrations it had applied, and for none of the reused ids. |
| `RevisionRemap.OldColumns` | backend/app/alembic_revision_remap.py:7-10 | Such a database has the old chain's column, as the first old migration is below every old id, and not the upstream chain's. |
| `BlobClient.SafeInitialisation` | backend/app/platform/blob_store.py:30-55 | Under every interleaving and every failure: one stored object at most, one thread in the lock, and only the stored client is returned, after a step at which the store answered that the bucket exists or was made. |
| `BlobClient.MadeOnlyIfMissing` | backend/app/platform/blob_store.py:52-53 | The bucket is made only by a thread that was answered that there is none. |
| `BlobClient.OnlyIfConfigured` | backend/app/platform/blob_store.py:34-36 | A thread in or before the lock was answered that the endpoint is configured. |
| `BlobClient.ClientWasConstructed` | backend/app/platform/blob_store.py:37-48 | The stored client is the object that a construction inside the lock gave. |
| `BlobClient.SameClientForever` | backend/app/platform/blob_store.py:30-55 | Any two calls that return, at any two moments, return the same object. |
| `BlobClient.StepKeepsInv` | backend/app/platform/blob_store.py:30-55 | Every read, write, lock operation and failing call keeps the invariant for all threads. |
| `BlobClient.RunKeepsClient` | backend/app/platform/blob_store.py:37-54 | A stored client is never replaced, and readiness is never withdrawn. |
| `BlobClient.FailureIsRetryable` | backend/app/platform/blob_store.py:36-54 | A failed construction or bucket call frees the lock, leaves the client as it was and not ready. |
| `BlobClient.LockIsReleased` | backend/app/platform/blob_store.py:36-55 | In any schedule that gives the holder of the lock the steps it still needs, seven at most, the lock is freed by one of them, whatever other threads do and whichever calls fail. |
| `BlobClient.HealthyCallReturns` | backend/app/platform/blob_store.py:30-55 | From every reachable state with the lock free, a call that runs alone against a healthy store returns a client. |
| `Priority.FirstIsLeast` | backend/alembic/versions/k1l2m3n4o5p6_add_provider_surface_tuning.py:73-78 | The first row of a key in an ordered answer is the least row with that key, and exists when any row has it. |
| `ProviderSeeding.SeedCandidates` | backend/alembic/versions/j0k1l2m3n4o5_add_project_model_providers.py:50-90 | Whatever order ties come in, the candidates are exactly the saved keys, in priority order. |
| `ProviderSeeding.Seed` | backend/alembic/versions/j0k1l2m3n4o5_add_project_model_providers.py:93-135 | The rows inserted are exactly those of the first candidate of each project and hosted family. |
| `ProviderSeeding.SeedingPicksBest` | backend/alembic/versions/j0k1l2m3n4o5_add_project_model_providers.py:50-135 | Exactly one row for each project and hosted family with a saved key, from the least candidate by source, owner (chatbot only) and recency. |
| `ProviderSeeding.OwnersKeyIsSeeded` | backend/alembic/versions/j0k1l2m3n4o5_add_project_model_providers.py:50-63 | If the project's owner has a chatbot widget of the family with a key, the row is copied from a most recent one of the owner's. |
| `ProviderSeeding.ChatbotKeyIsSeeded` | backend/alembic/versions/j0k1l2m3n4o5_add_project_model_providers.py:50-63 | Otherwise from a most recent chatbot widget with a key, if there is one. |
| `ProviderSeeding.SearchKeyIsSeeded` | backend/alembic/versions/j0k1l2m3n4o5_add_project_model_providers.py:66-78 | Otherwise from a most recent search widget with a key, if there is one. |
| `ProviderSeeding.ProfileKeyIsSeeded` | backend/alembic/versions/j0k1l2m3n4o5_add_project_model_providers.py:79-90 | And otherwise from a most recent profile with a key. |
| `ProviderSeeding.FamiliesAgree` | backend/alembic/versions/j0k1l2m3n4o5_add_project_model_providers.py:27-37 | Seeding and tuning find the same family, but for "ollama", which is not seeded. |
| `ProviderSeeding.FamilyMeaning` | backend/alembic/versions/k1l2m3n4o5p6_add_provider_surface_tuning.py:37-49 | Which words in the provider's name stand for which family, and which of them decides when several occur. |
| `ProviderSeeding.LatestWidgetValues` | backend/alembic/versions/k1l2m3n4o5p6_add_provider_surface_tuning.py:58-78 | The dictionary holds, for each key with a row, the values of its first row. |
| `ProviderSeeding.NewestIsLeading` | backend/alembic/versions/k1l2m3n4o5p6_add_provider_surface_tuning.py:58-78 | Those values come from the leading widget of the project and family: owner first, then most recent. |
| `ProviderSeeding.ProviderTable.Backfill` | backend/alembic/versions/k1l2m3n4o5p6_add_provider_surface_tuning.py:81-95 | Every row gets its own tuning and no other column changes; a row without any value is not updated. |
| `ProviderSeeding.TuningFollowsLeadingWidget` | backend/alembic/versions/k1l2m3n4o5p6_add_provider_surface_tuning.py:58-95 | On each surface the shared temperature if it is set, else everything from the leading widget. |
| `ProviderSeeding.OwnersWidgetLeads` | backend/alembic/versions/k1l2m3n4o5p6_add_provider_surface_tuning.py:58-95 | If the project's owner has a widget of the family, the surface is tuned as a most recent one of the owner's, but for a shared temperature. |
| `ProviderSeeding.NewestWidgetLeads` | backend/alembic/versions/k1l2m3n4o5p6_add_provider_surface_tuning.py:58-95 | Otherwise as a most recent widget of anybody. |
| `ProviderSeeding.AnswersExist` | backend/alembic/versions/j0k1l2m3n4o5_add_project_model_providers.py:53-90 | The queries have answers whatever the tables hold. |
| `ProviderSeeding.Upgrade` | backend/alembic/versions/k1l2m3n4o5p6_add_provider_surface_tuning.py:81-109 | Both migrations in turn leave one row per project and family with a saved key, from the best candidate, tuned from the leading widgets. |
| `OrgBranding.Choose` | backend/app/schema_safety_net.py:110-118 | The loop with its early exit picks the stripped value of the first row that has one, for each field. |
| `OrgBranding.Organizations.SafetyNet` | backend/app/schema_safety_net.py:101-121 | Fills every organization from its own members; skipping complete ones and ones without a value makes no difference. |
| `OrgBranding.Organizations.Migration` | backend/alembic/versions/x4y5z6a7b8c9_org_workspace_branding.py:53-99 | Fills every organization from its own members. |
| `OrgBranding.FilledFromMembers` | backend/app/schema_safety_net.py:67-121 | A value is never overwritten; a field stays null if and only if no member has a non-blank one; otherwise it comes from the least such member. |
| `OrgBranding.WhoseBranding` | backend/app/schema_safety_net.py:67-121 | The value comes, stripped, from an organization admin if one has a value, then from a row with a logo, then from the most recent, a missing time last. |
| `OrgBranding.WhoseBrandingMigrated` | backend/alembic/versions/x4y5z6a7b8c9_org_workspace_branding.py:59-99 | The same in the migration, with a missing time first. |
| `OrgBranding.FillingAgainKeeps` | backend/app/schema_safety_net.py:101-121 | Running either backfill after either changes nothing. |
| `OrgBranding.AgreeExactly` | backend/app/schema_safety_net.py:67-121 | Over all answers of both queries the safety net and the migration fill the same values if and only if, for each missing field, all rows that lead in one of the two orders have one value. |
| `OrgBranding.BackfillsAgree` | backend/alembic/versions/x4y5z6a7b8c9_org_workspace_branding.py:53-99 | In particular they agree without missing or equal times. |
| `OrgBranding.MissingTimeSeparates` | backend/alembic/versions/x4y5z6a7b8c9_org_workspace_branding.py:66-72 | Two members, one without a time, for which they differ. |
| `OrgBranding.TieSeparates` | backend/app/schema_safety_net.py:81-87 | Two tied members with different values are enough to separate them. |
| `Memberships.Database.Upgrade` | backend/alembic/versions/t7u8v9w0x1y2_org_memberships_and_acl.py:139-249 | Aborts, changing nothing, exactly when organization 1 is missing and the default slug is taken; otherwise ends in `Migrated`: old memberships and array grants unchanged, the missing ones added. |
| `Memberships.EveryoneIsPlaced` | backend/alembic/versions/t7u8v9w0x1y2_org_memberships_and_acl.py:168-249 | Every user has an existing organization and a membership there; every project has an existing organization; its owner holds one grant with an array. |
| `Memberships.WhatIsAdded` | backend/alembic/versions/t7u8v9w0x1y2_org_memberships_and_acl.py:139-249 | New memberships are those of users at home, admins as "org_admin" and others as "member"; a new organization is number 1 with the slug "default"; a grant without an array gets the twelve permissions; registration is closed everywhere. |
| `Memberships.OwnerBelongs` | backend/alembic/versions/t7u8v9w0x1y2_org_memberships_and_acl.py:178-216 | The owner ends up a member of the project's organization if and only if the project had none, had the owner's, or the owner was a member all along. |
| `Memberships.StaysValid` | backend/alembic/versions/t7u8v9w0x1y2_org_memberships_and_acl.py:139-249 | Foreign keys and unique slugs hold afterwards. |
| `Memberships.AbortIsForced` | backend/alembic/versions/t7u8v9w0x1y2_org_memberships_and_acl.py:139-249 | Tables migrated as promised satisfy the constraints if and only if the default slug was not taken, so an abort has no alternative. |
| `Memberships.SlugCanBeTaken` | backend/alembic/versions/t7u8v9w0x1y2_org_memberships_and_acl.py:139-166 | Valid tables on which the upgrade aborts. |
| `Memberships.OneOutcome` | backend/alembic/versions/t7u8v9w0x1y2_org_memberships_and_acl.py:139-249 | What the upgrade promises fixes every table, so the outcome does not depend on the order of rows. |
| `Memberships.SecondUpgradeIsIdle` | backend/alembic/versions/t7u8v9w0x1y2_org_memberships_and_acl.py:139-249 | A second run cannot abort and changes nothing. |
| `Memberships.FirstOrg` | backend/alembic/versions/t7u8v9w0x1y2_org_memberships_and_acl.py:172 | The least organization id, if there is one. |
| `CrawlSchedule.AnnouncementIsRight` | backend/app/scheduler.py:129-148 | An active, ready source is due at exactly the instants at which the announced time is reached, if and only if its last crawl is on a whole second or missing, or, for a ONCE source, if it was crawled before. |
| `CrawlSchedule.AnnouncementLags` | backend/app/scheduler.py:129-148 | Otherwise the source is due less than a second after the announced time, and never before it. |
| `CrawlSchedule.OnceIsMisannounced` | backend/app/scheduler.py:131-132 | A ONCE source that is due and announced as never. |
| `CrawlSchedule.DueAfterDays` | backend/app/scheduler.py:39-66 | An active, ready source is due 1, 7 or 30 days after its last crawl, at once if it was never crawled, and never again if its cadence is ONCE. |
| `CrawlSchedule.CheckAndCrawl` | backend/app/scheduler.py:69-98 | Starts a crawl for exactly the due sources, in query order. |
| `CrawlSchedule.TriggersExactly` | backend/app/scheduler.py:39-66 | Over any run of ticks, with crawls of any length, a tick triggers if and only if every stamp fallen so far is at least the period ago or, while none has fallen, the source was due from the start. |
| `CrawlSchedule.CadenceRespected` | backend/app/scheduler.py:39-66 | With ticks at most an hour apart, a trigger that does not repeat that of the tick before comes no earlier than the period after the last stamp, and less than an hour late, however long crawls run. |
| `CrawlSchedule.RepeatsUntilStamped` | backend/app/scheduler.py:47-56 | A trigger is repeated at the next tick if and only if no crawl has stamped in between. |
| `CrawlSchedule.DueIsNotMissed` | backend/app/scheduler.py:39-103 | After a trigger there is another one by the first tick that is the period past every stamp of the crawls started so far. |
| `CrawlSchedule.PromptCadence` | backend/app/scheduler.py:39-103 | If every crawl stamps by the next tick, the next trigger comes no earlier than the period after the crawl's last stamp, and less than an hour late. |
| `CrawlSchedule.OnceTriggers` | backend/app/scheduler.py:47-49 | A ONCE source triggers at a tick if and only if it was never crawled and no crawl started before has stamped yet. |
| `CrawlSchedule.OnceAtMostOnce` | backend/app/scheduler.py:47-49 | It triggers at most once if the crawl stamps by the next tick. |
| `FolderIngest.Scheduler.CheckDataFolder` | backend/app/scheduler.py:156-284 | One scan attempts the new supported files in order, each under the scope the loop variable holds after its lookup raised before the reset, raised after it, or completed, and marks exactly the indexed ones. |
| `FolderIngest.RunKeepsInv` | backend/app/scheduler.py:183-284 | Over any sequence of scans and restarts, since the last restart each path is ingested successfully at most once and not attempted afterwards, and the processed set is the set of those paths. |
| `FolderIngest.FailedFilesAreRetried` | backend/app/scheduler.py:183-284 | A scan with a pipeline attempts a path if and only if it is listed, supported and was not ingested successfully since the last restart. |
| `FolderIngest.NoPipelineNoAttempt` | backend/app/scheduler.py:193-196 | Without a pipeline a scan changes nothing. |
| `FolderIngest.RestartForgets` | backend/app/scheduler.py:24-25 | The processed set is a module global: the first scan after a restart attempts every supported file that is there, ingested before or not. |
| `FolderIngest.ScopeIsOwn` | backend/app/scheduler.py:196-254 | In every scan a file is attempted under the project it belongs to if and only if its lookup completed, or failed where nothing is owed, or did not start and an earlier file left the right project; it is ingested into the wrong place if and only if it has an index and none of these holds although a scope is bound. |
| `FolderIngest.SuccessIsFinal` | backend/app/scheduler.py:183-284 | However many scans follow without a restart, a file ingested since the last one stays processed and is not attempted again, whatever place it went to. |
| `FolderIngest.ExportGoesUnscoped` | backend/app/scheduler.py:205-229 | After any history, in any scan: a new file of a project whose lookup raises is ingested without a project, and no scan before a restart attempts it again. |
| `FolderIngest.LostExport` | backend/app/scheduler.py:205-229 | A crawl export to which this happens. |
| `FolderIngest.StaleScope` | backend/app/scheduler.py:196-254 | When its session does not open, any file goes into the project of the file before it. |
| `CorsOrigins.OriginList.Add` | backend/app/platform/app_factory.py:345-362 | A new origin comes in with its twin, which is never there yet; no duplicates, and closed under the twin. |
| `CorsOrigins.TwinTwice` | backend/app/platform/app_factory.py:352-362 | The twin of an origin is another origin whose twin is the first one. |
| `CorsOrigins.TwinSwapsHead` | backend/app/platform/app_factory.py:352-358 | Substring test and replacement can only act on the head of the network location. |
| `CorsOrigins.ListedMeaning` | backend/app/platform/app_factory.py:338-373 | The list holds the origins of the inputs and their twins and nothing else. |
| `CorsOrigins.DefaultOrigins` | backend/app/platform/app_factory.py:364-373 | For any settings: no duplicates, closed under the twin, exactly the origins of the two settings and the four local addresses and their twins; it fails if and only if the URL parser raises on one. |
| `CorsOrigins.AskedForExactly` | backend/app/platform/app_factory.py:338-373 | An origin is asked for if and only if it is scheme and network location of an input, with the two local names exchanged or not. |
| `OriginPattern.BuildPattern` | backend/app/platform/app_factory.py:379-400 | The loop builds the sorted, joined patterns of the sites the list configures. |
| `OriginPattern.BuiltMeansConfigured` | backend/app/platform/app_factory.py:384-399 | There is a pattern if and only if some entry has a scheme and a host. |
| `OriginPattern.ConfiguredExactly` | backend/app/platform/app_factory.py:384-395 | A site is configured by exactly the entries other than "" and "*" that parse to its scheme and host name, neither missing. |
| `OriginPattern.PlainPatternMatches` | backend/app/platform/app_factory.py:396-397 | The generated text, read as a pattern, fully matches exactly the origin with an optional numeric port, for a plain scheme and a host name that stands without brackets. |
| `OriginPattern.WildPatternMatches` | backend/app/platform/app_factory.py:396-397 | The pattern of an entry with a star anywhere in its host matches the text before the star without its last character, any number of that character, and what stands behind the star, with an optional port, and nothing else. |
| `OriginPattern.WildAdmits` | backend/app/platform/app_factory.py:396-397 | With some text in place of the star, an origin is accepted if and only if that text only repeats the character before the star. |
| `OriginPattern.SubdomainRefused` | backend/app/platform/app_factory.py:396-397 | So an entry that starts with a star accepts no subdomain, with or without a port. |
| `OriginPattern.StarKeepsOut` | backend/app/platform/app_factory.py:396-397 | The own origin of a site with a star or a plus in its host name is matched by no configured pattern with a plain scheme and a readable host. |
| `OriginPattern.BracketKeepsOut` | backend/app/platform/app_factory.py:393-397 | An origin whose host is an address in brackets is matched by no pattern with a plain scheme and a readable host, its own included. |
| `OriginPattern.ExactlyWhenPlain` | backend/app/platform/app_factory.py:379-400 | The joined pattern accepts exactly the configured origins with an optional numeric port if and only if no scheme holds a dot or a plus, no host stands in brackets and no host holds a star or a plus. |
| `Regex.JoinMatches` | backend/app/platform/app_factory.py:400 | Patterns joined by a bar match what one of them matches, unless one cannot be read. |

## Left out

- Text that is not UTF-8, half-written files, symbolic links, and manifest versions that are not plain path components.
- Hashing, signatures, licences, JSON, version ranges, URL parsing, `migrate_member_permissions` and ingestion itself: parameters.
- The order of `rglob` and of error messages: errors are compared as sets.
- `allow_unsigned` and the platform version: part of the signature and version-range parameters.
- The second INSERT of the default organization: proved never to apply, so it writes nothing here.
- Column creation, indexes, downgrades, and columns no step reads (descriptions, quotas, timestamps of new rows).
- Search settings without a project: the column is not nullable (backend/app/models.py:922).
- Length limits of names and colours in the database.
- Possessive and lazy quantifiers in patterns: two quantifiers in a row in a scheme or a host count as unreadable.
- The configured extra origin pattern, which is joined to the generated one as it is.
- Overlapping folder scans, and the user a file is ingested for.
- Crawls started by hand, and changes of a source while ticks run.
- The ClickUp and Gmail loops, `put`, `get` and `delete` of the object store, and the smaller data migrations: the same style, and easier.
- `ArchiveExtraction.Disk.Extract`: links, devices and permissions of members; directories that a name with ".." passes through and that writing it creates; and older Python versions that pass over a directory member at an existing file (the image runs 3.14, backend/docker/Dockerfile:6).
- `OriginPattern.ExactlyWhenPlain`: hosts with characters other than dots, stars and plus signs that mean something in patterns.
